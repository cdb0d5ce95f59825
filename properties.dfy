/**
  Properties of the public operations, stated on the specification functions the client's
  methods are proved against.
 */
module StatsdProperties {
  import opened Wrappers
  import opened CText
  import opened StatsdWire
  import opened StatsdClient

  /** A counter line is the name, ':', the rendered value, `|c`, the rate part and the newline. */
  lemma CounterLine(ns: string, stat: string, value: U64, rate: real, lf: bool)
    ensures Line(ns, stat, value, COUNTER, rate, lf)
         == CStr(ns) + CStr(stat) + ":" + Decimal(AsSigned(value)) + "|c" + RateSuffix(rate) + (if lf then "\n" else "")
  {
    CStrOfPlain(COUNTER);
    var head := CStr(ns) + CStr(stat) + ":" + Decimal(AsSigned(value));
    assert head + "|" + "c" == head + "|c";
  }

  /**
    A server reading a counter line gets back the full name, the type `c`, the value as `%zd`
    printed it, and a rate part exactly when the rate is not 1.
   */
  lemma CounterReadsBack(ns: string, stat: string, value: U64, rate: real, lf: bool)
    requires ':' !in CStr(ns) + CStr(stat)
    ensures ParseLine(Line(ns, stat, value, COUNTER, rate, lf)).Some?
    ensures var m := ParseLine(Line(ns, stat, value, COUNTER, rate, lf)).value;
            m.name == CStr(ns) + CStr(stat) && m.value == AsSigned(value) && m.kind == "c"
            && (m.rate.None? <==> rate == 1.0) && m.newline == lf
  {
    CStrOfPlain(COUNTER);
    LineRoundTrip(ns, stat, value, COUNTER, rate, lf);
  }

  /** The size_t 2^64 - 1 that `statsd_dec` passes prints as `-1` through `%zd`. */
  lemma MinusOneText()
    ensures Decimal(AsSigned(ToU64(-1))) == "-1"
  {
    assert ToU64(-1) == TWO_64 - 1;
    assert AsSigned(TWO_64 - 1) == -1;
    assert Decimal(-1) == "-" + [Digit(1)];
  }

  /** `statsd_dec` sends `-1`: the size_t 2^64 - 1 printed through `%zd`. */
  lemma DecRendersMinusOne(ns: string, stat: string, rate: real, lf: bool)
    ensures Line(ns, stat, ToU64(-1), COUNTER, rate, lf)
         == CStr(ns) + CStr(stat) + ":-1|c" + RateSuffix(rate) + (if lf then "\n" else "")
  {
    CounterLine(ns, stat, ToU64(-1), rate, lf);
    MinusOneText();
    var a := CStr(ns) + CStr(stat);
    assert ":" + "-1" + "|c" == ":-1|c";
    assert a + ":" + "-1" + "|c" == a + (":" + "-1" + "|c");
  }

  /** `statsd_inc` sends `1`. */
  lemma IncRendersOne(ns: string, stat: string, rate: real, lf: bool)
    ensures Line(ns, stat, 1, COUNTER, rate, lf)
         == CStr(ns) + CStr(stat) + ":1|c" + RateSuffix(rate) + (if lf then "\n" else "")
  {
    CounterLine(ns, stat, 1, rate, lf);
    assert Decimal(1) == "1" by {
      assert Decimal(1) == [Digit(1)];
    }
    var a, b := CStr(ns) + CStr(stat), RateSuffix(rate) + (if lf then "\n" else "");
    assert ":" + "1" + "|c" == ":1|c";
    assert a + ":" + "1" + "|c" == a + (":" + "1" + "|c");
  }

  /**
    Gauges and timings are sent at rate 1: no random draw is taken, and the one datagram is
    `<ns><stat>:<value>|<type>` with no `|@` part.
   */
  lemma UnsampledKinds(peer: Option<Peer>, stat: string, value: U64, kind: string, p: real, sendOk: bool)
    requires kind == GAUGE || kind == TIMING
    ensures StatOutcome(peer, stat, value, kind, 1.0, p, sendOk).calls
         == if peer.None? then []
            else [SendTo(peer.value.sock, peer.value.server,
                         Truncate(CStr(peer.value.ns) + CStr(stat) + ":" + Decimal(AsSigned(value)) + "|" + kind,
                                  MAX_MSG_LEN))]
    ensures StatOutcome(peer, stat, value, kind, 1.0, p, sendOk).rc
         == if peer.None? then -2 else if sendOk then 0 else -1
  {
    CStrOfPlain(kind);
    if peer.Some? {
      var l := peer.value;
      var text := CStr(l.ns) + CStr(stat) + ":" + Decimal(AsSigned(value)) + "|" + kind;
      assert RateSuffix(1.0) == "";
      assert Line(l.ns, stat, value, kind, 1.0, false) == text + "" + "";
      assert text + "" + "" == text;
      assert Datagram(l.ns, stat, value, kind, 1.0) == Truncate(text, MAX_MSG_LEN);
    }
  }

  /** A stat whose sample rate is 1 or more is always sent, whatever the draw. */
  lemma FullRateAlwaysSends(peer: Option<Peer>, stat: string, value: U64, kind: string, rate: real,
                            p: real, sendOk: bool)
    requires rate >= 1.0 && peer.Some?
    ensures exists d :: SendTo(peer.value.sock, peer.value.server, d) in StatOutcome(peer, stat, value, kind, rate, p, sendOk).calls
  {
    var o := StatOutcome(peer, stat, value, kind, rate, p, sendOk);
    var d := Datagram(peer.value.ns, stat, value, kind, rate);
    assert o.calls == [SendTo(peer.value.sock, peer.value.server, d)];
  }

  /** At rate 1 and without newline, a line built from NUL-free arguments is `<ns><stat>:<value>|<type>`. */
  lemma FullRateLine(ns: string, stat: string, value: U64, kind: string)
    requires '\0' !in ns && '\0' !in stat && '\0' !in kind
    ensures Line(ns, stat, value, kind, 1.0, false) == ns + stat + ":" + Decimal(AsSigned(value)) + "|" + kind
  {
    CStrOfPlain(ns);
    CStrOfPlain(stat);
    CStrOfPlain(kind);
    var text := ns + stat + ":" + Decimal(AsSigned(value)) + "|" + kind;
    assert Line(ns, stat, value, kind, 1.0, false) == text + "" + "";
  }

  /** A counter without namespace: `a.b:42|c`. */
  lemma CounterExample()
    ensures Line("", "a.b", 42, COUNTER, 1.0, false) == "a.b:42|c"
  {
    FullRateLine("", "a.b", 42, COUNTER);
    assert Decimal(42) == "42" by {
      assert NatDecimal(4) == "4";
    }
  }

  /** The same counter under namespace `ns` (stored as "ns."): `ns.a.b:42|c`. */
  lemma NamespacedCounterExample()
    ensures Line("ns.", "a.b", 42, COUNTER, 1.0, false) == "ns.a.b:42|c"
  {
    FullRateLine("ns.", "a.b", 42, COUNTER);
    assert Decimal(42) == "42" by {
      assert NatDecimal(4) == "4";
    }
  }

  /** A timing: `t:150|ms`. */
  lemma TimingExample()
    ensures Line("", "t", 150, TIMING, 1.0, false) == "t:150|ms"
  {
    FullRateLine("", "t", 150, TIMING);
    assert Decimal(150) == "150" by {
      assert NatDecimal(1) == "1";
      assert NatDecimal(15) == "15";
    }
  }

  /** `%.2f` of one half. */
  lemma HalfRate()
    ensures RateSuffix(0.5) == "|@0.50"
  {
    assert Hundredths(0.5) == 50;
    assert NatDecimal(0) == "0";
    assert Fixed2(0.5) == "0.50";
  }

  /** A sampled counter carries the rate with two decimals: `hits:1|c|@0.50`. */
  lemma SampledExample()
    ensures Line("", "hits", 1, COUNTER, 0.5, false) == "hits:1|c|@0.50"
  {
    IncRendersOne("", "hits", 0.5, false);
    CStrOfPlain("");
    CStrOfPlain("hits");
    HalfRate();
    assert "" + "hits" + ":1|c" + "|@0.50" + "" == "hits:1|c|@0.50";
  }

  /**
    The stat name reaches the wire as given: `cleanup` only rewrote a copy. A ':' in the name
    then makes a StatsD server read a shorter name.
   */
  lemma DelimiterReachesWire()
    ensures Line("", "a:b", 1, COUNTER, 1.0, false) == "a:b:1|c"
    ensures ParseLine("a:b:1|c").Some? && ParseLine("a:b:1|c").value.name == "a"
  {
    FullRateLine("", "a:b", 1, COUNTER);
    assert Decimal(1) == "1";
    assert Find("a:b:1|c", ':') == 1;
    assert ParseFields("b:1|c").Some? by {
      assert Find("b:1|c", '|') == 3;
      assert ParseTail("c").Some?;
    }
  }

  /** Had the name been sanitised, the server would read it whole. */
  lemma SanitizedNameSurvives()
    ensures Sanitize("a:b") == "a_b"
    ensures Line("", Sanitize("a:b"), 1, COUNTER, 1.0, false) == "a_b:1|c"
    ensures ParseLine("a_b:1|c") == Some(Metric("a_b", 1, "c", None, false))
  {
    assert Sanitize("a:b") == "a_b";
    FullRateLine("", "a_b", 1, COUNTER);
    assert Decimal(1) == "1";
    CStrOfPlain("");
    CStrOfPlain("a_b");
    CStrOfPlain(COUNTER);
    assert AsSigned(1) == 1;
    assert Line("", "a_b", 1, COUNTER, 1.0, false) == "a_b:1|c";
    LineRoundTrip("", "a_b", 1, COUNTER, 1.0, false);
    assert "" + "a_b" == "a_b";
  }
}
