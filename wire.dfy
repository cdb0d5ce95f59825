/**
  The StatsD wire format produced by the client: `[<ns>.]<name>:<value>|<type>[|@<rate>]`,
  the name sanitiser, the sampling rule, and what a bounded `snprintf` leaves in a buffer.
 */
module StatsdWire {
  import opened Wrappers
  import opened CText

  /** Size of the message buffer `send_stat` formats into. */
  const MAX_MSG_LEN: nat := 1024

  /** Type tokens of the public operations. */
  const COUNTER: string := "c"
  const GAUGE: string := "g"
  const TIMING: string := "ms"

  function Min(a: int, b: int): int { if a <= b then a else b }

  // ---------------------------------------------------------------- name sanitising

  /** The characters that separate the fields of a StatsD line. */
  predicate IsDelimiter(c: char) { c == ':' || c == '|' || c == '@' }

  predicate NoDelimiters(s: string) { forall i :: 0 <= i < |s| ==> !IsDelimiter(s[i]) }

  function SanitizeChar(c: char): char { if IsDelimiter(c) then '_' else c }

  /** The name rewriting `cleanup` performs: every delimiter becomes '_'. */
  function Sanitize(s: string): (r: string)
    ensures |r| == |s|
  {
    if s == [] then [] else [SanitizeChar(s[0])] + Sanitize(s[1..])
  }

  /** Sanitize works character by character: delimiters become '_', everything else stays. */
  lemma {:induction false} SanitizeAt(s: string, i: nat)
    requires i < |s|
    ensures Sanitize(s)[i] == (if IsDelimiter(s[i]) then '_' else s[i])
  {
    if i > 0 {
      SanitizeAt(s[1..], i - 1);
    }
  }

  /** A sanitised name holds no delimiter. */
  lemma SanitizeClean(s: string)
    ensures NoDelimiters(Sanitize(s))
  {
    forall i | 0 <= i < |s| ensures !IsDelimiter(Sanitize(s)[i]) {
      SanitizeAt(s, i);
    }
  }

  /** Sanitize leaves a string alone exactly when it holds no delimiter. */
  lemma SanitizeFixpoint(s: string)
    ensures Sanitize(s) == s <==> NoDelimiters(s)
  {
    SanitizeClean(s);
    if NoDelimiters(s) {
      forall i | 0 <= i < |s| ensures Sanitize(s)[i] == s[i] {
        SanitizeAt(s, i);
      }
    }
  }

  /** Sanitising twice is sanitising once. */
  lemma SanitizeIdempotent(s: string)
    ensures Sanitize(Sanitize(s)) == Sanitize(s)
  {
    SanitizeClean(s);
    SanitizeFixpoint(Sanitize(s));
  }

  // ---------------------------------------------------------------- sampling

  /**
    `should_send` once its random draw `p` = random()/RAND_MAX is a parameter: a rate of at
    least 1 always sends (and `p` is never drawn); below 1 it sends iff the rate exceeds `p`.
   */
  function ShouldSend(rate: real, p: real): (send: bool)
    ensures rate >= 1.0 ==> send
    ensures 0.0 <= p && rate <= 0.0 ==> !send
  {
    if rate < 1.0 then rate > p else true
  }

  /** `should_send` draws a random number exactly when the rate is below 1. */
  predicate DrawsRandom(rate: real) { rate < 1.0 }

  /** For one draw, a higher rate sends whenever a lower one does. */
  lemma ShouldSendMonotone(low: real, high: real, p: real)
    requires low <= high && ShouldSend(low, p)
    ensures ShouldSend(high, p)
  {
  }

  /** Below rate 1, the draws that send are exactly those under the rate. */
  lemma ShouldSendBelowOne(rate: real, p: real)
    requires rate < 1.0
    ensures ShouldSend(rate, p) <==> p < rate
  {
  }

  // ---------------------------------------------------------------- the line

  /** `|@<rate>` when the rate is not exactly 1, nothing otherwise. */
  function RateSuffix(rate: real): (s: string)
    ensures s == [] <==> rate == 1.0
  {
    if rate == 1.0 then "" else "|@" + Fixed2(rate)
  }

  /**
    The text `statsd_prepare` formats, before truncation. Each `%s` argument is read as a
    C string, the value through `%zd`, and the line ends with '\n' iff `lf` is set.
   */
  function Line(ns: string, stat: string, value: U64, kind: string, rate: real, lf: bool): (r: string)
    ensures '\0' !in r
  {
    var v := Decimal(AsSigned(value));
    assert '\0' !in v by {
      assert forall i :: 0 <= i < |v| ==> v[i] == '-' || IsDigit(v[i]);
    }
    var suffix := RateSuffix(rate);
    assert '\0' !in suffix;
    CStr(ns) + CStr(stat) + ":" + v + "|" + CStr(kind) + suffix + (if lf then "\n" else "")
  }

  // ---------------------------------------------------------------- snprintf

  /** The text `snprintf(buf, n, ...)` stores: at most n - 1 characters of what it formats. */
  function Truncate(out: string, n: nat): (r: string)
    requires n > 0
    ensures r <= out && |r| == Min(|out|, n - 1)
    ensures |out| < n ==> r == out
  {
    out[..Min(|out|, n - 1)]
  }

  /**
    The buffer after `snprintf(buf, n, "...")` whose formatted text is `out`: the truncated text
    and a NUL; a zero bound writes nothing.
   */
  function BoundedWrite(buf: seq<char>, n: nat, out: string): (r: seq<char>)
    requires n <= |buf|
    ensures |r| == |buf|
    ensures forall i :: n <= i < |buf| ==> r[i] == buf[i]
  {
    if n == 0 then buf
    else
      var k := Min(|out|, n - 1);
      out[..k] + ['\0'] + buf[k + 1..]
  }

  /** After a bounded write, `strlen` and `%s` see the formatted text cut to n - 1 characters. */
  lemma BoundedWriteReadBack(buf: seq<char>, n: nat, out: string)
    requires 0 < n <= |buf| && '\0' !in out
    ensures CStr(BoundedWrite(buf, n, out)) == Truncate(out, n)
  {
    var k := Min(|out|, n - 1);
    var r := BoundedWrite(buf, n, out);
    assert r[..k] == out[..k] && r[k] == '\0';
    CStrUnique(r, out[..k]);
  }

  /** The datagram `send_stat` hands to `statsd_send`: the line without '\n', cut to the buffer. */
  function Datagram(ns: string, stat: string, value: U64, kind: string, rate: real): (d: string)
    ensures d <= Line(ns, stat, value, kind, rate, false)
    ensures |d| == Min(|Line(ns, stat, value, kind, rate, false)|, MAX_MSG_LEN - 1)
  {
    Truncate(Line(ns, stat, value, kind, rate, false), MAX_MSG_LEN)
  }

  // ---------------------------------------------------------------- reading a line back

  /** A StatsD line split into its fields; `rate` is the text after `|@`. */
  datatype Metric = Metric(name: string, value: int, kind: string, rate: Option<string>, newline: bool)

  /** Index of the first `c` in `s`, or |s|. */
  function Find(s: string, c: char): (i: nat)
    ensures i <= |s| && c !in s[..i]
    ensures i < |s| ==> s[i] == c
  {
    if s == [] || s[0] == c then 0 else 1 + Find(s[1..], c)
  }

  lemma FindFirst(a: string, c: char, b: string)
    requires c !in a
    ensures Find(a + [c] + b, c) == |a|
    decreases |a|
  {
    if a != [] {
      assert (a + [c] + b)[1..] == a[1..] + [c] + b;
      FindFirst(a[1..], c, b);
    }
  }

  lemma FindAbsent(a: string, c: char)
    requires c !in a
    ensures Find(a, c) == |a|
  {
  }

  /** The fields after the name: the value, the type and the optional rate. */
  datatype Fields = Fields(value: int, kind: string, rate: Option<string>)

  /** Splits `<type>` or `<type>|@<rate>`. */
  function ParseTail(tail: string): Option<(string, Option<string>)>
  {
    var k := Find(tail, '|');
    if k == |tail| then Some((tail, None))
    else if k + 1 < |tail| && tail[k + 1] == '@' then Some((tail[..k], Some(tail[k + 2..])))
    else None
  }

  /** Splits `<value>|<tail>`. */
  function ParseFields(rest: string): Option<Fields>
  {
    var j := Find(rest, '|');
    if j == |rest| then None
    else
      var t := ParseTail(rest[j + 1..]);
      if t.None? then None else Some(Fields(SignedValue(rest[..j]), t.value.0, t.value.1))
  }

  /** Splits `<name>:<fields>`. */
  function ParseBody(body: string, newline: bool): Option<Metric>
  {
    var i := Find(body, ':');
    if i == |body| then None
    else
      var f := ParseFields(body[i + 1..]);
      if f.None? then None else Some(Metric(body[..i], f.value.value, f.value.kind, f.value.rate, newline))
  }

  /**
    How a StatsD server splits a line: a final '\n' is set aside, the name runs to the first ':',
    the value to the next '|', the type to the next '|', and a rate follows `|@`.
   */
  function ParseLine(line: string): Option<Metric>
  {
    var newline := |line| > 0 && line[|line| - 1] == '\n';
    ParseBody(if newline then line[..|line| - 1] else line, newline)
  }

  lemma SampledTail(k: string, f: string)
    requires '|' !in k
    ensures ParseTail(k + "|@" + f) == Some((k, Some(f)))
  {
    var tail := k + "|@" + f;
    assert tail == k + ['|'] + ("@" + f);
    FindFirst(k, '|', "@" + f);
    assert |k| + 1 < |tail| && tail[|k| + 1] == '@';
    assert tail[..|k|] == k;
    assert tail[|k| + 2..] == f;
  }

  lemma TailRoundTrip(k: string, rate: real)
    requires '|' !in k
    ensures ParseTail(k + RateSuffix(rate)) == Some((k, if rate == 1.0 then None else Some(Fixed2(rate))))
  {
    if rate == 1.0 {
      assert k + RateSuffix(rate) == k;
      FindAbsent(k, '|');
    } else {
      var f := Fixed2(rate);
      assert k + RateSuffix(rate) == k + "|@" + f;
      SampledTail(k, f);
    }
  }

  lemma FieldsRoundTrip(x: int, k: string, rate: real)
    requires '|' !in k
    ensures ParseFields(Decimal(x) + "|" + k + RateSuffix(rate))
         == Some(Fields(x, k, if rate == 1.0 then None else Some(Fixed2(rate))))
  {
    var v := Decimal(x);
    var tail := k + RateSuffix(rate);
    var rest := Decimal(x) + "|" + k + RateSuffix(rate);
    assert '|' !in v by {
      assert forall i :: 0 <= i < |v| ==> v[i] == '-' || IsDigit(v[i]);
    }
    assert rest == v + ['|'] + tail;
    FindFirst(v, '|', tail);
    assert rest[..|v|] == v;
    assert rest[|v| + 1..] == tail;
    DecimalRoundTrip(x);
    TailRoundTrip(k, rate);
  }

  lemma BodyRoundTrip(name: string, x: int, k: string, rate: real, newline: bool)
    requires ':' !in name && '|' !in k
    ensures ParseBody(name + ":" + Decimal(x) + "|" + k + RateSuffix(rate), newline)
         == Some(Metric(name, x, k, if rate == 1.0 then None else Some(Fixed2(rate)), newline))
  {
    var rest := Decimal(x) + "|" + k + RateSuffix(rate);
    var body := name + ":" + Decimal(x) + "|" + k + RateSuffix(rate);
    assert body == name + [':'] + rest;
    FindFirst(name, ':', rest);
    assert body[..|name|] == name;
    assert body[|name| + 1..] == rest;
    FieldsRoundTrip(x, k, rate);
  }

  /** A line without its optional newline ends in a digit of the rate, the type, or the '|' before it. */
  lemma BodyEnd(name: string, x: int, k: string, rate: real)
    requires '\n' !in k
    ensures var body := name + ":" + Decimal(x) + "|" + k + RateSuffix(rate);
            |body| > 0 && body[|body| - 1] != '\n'
  {
    var suffix := RateSuffix(rate);
    var body := name + ":" + Decimal(x) + "|" + k + suffix;
    if suffix != [] {
      var f := Fixed2(rate);
      assert suffix == "|@" + f;
      assert body[|body| - 1] == f[|f| - 1];
    } else if k != [] {
      assert body[|body| - 1] == k[|k| - 1];
    } else {
      assert body[|body| - 1] == '|';
    }
  }

  /** The final '\n' is recognised and removed before the fields are split. */
  lemma NewlineSetAside(body: string, lf: bool)
    requires |body| > 0 && body[|body| - 1] != '\n'
    ensures ParseLine(body + (if lf then "\n" else "")) == ParseBody(body, lf)
  {
    var line := body + (if lf then "\n" else "");
    var newline := |line| > 0 && line[|line| - 1] == '\n';
    assert newline == lf;
    assert (if newline then line[..|line| - 1] else line) == body;
  }

  /**
    Round trip: when the name (namespace and stat) holds no ':' and the type no '|' or '\n',
    a server reads back the name, the signed value, the type, the rate text and the newline.
   */
  lemma LineRoundTrip(ns: string, stat: string, value: U64, kind: string, rate: real, lf: bool)
    requires ':' !in CStr(ns) + CStr(stat)
    requires '|' !in CStr(kind) && '\n' !in CStr(kind)
    ensures ParseLine(Line(ns, stat, value, kind, rate, lf))
         == Some(Metric(CStr(ns) + CStr(stat), AsSigned(value), CStr(kind),
                        if rate == 1.0 then None else Some(Fixed2(rate)), lf))
  {
    var name := CStr(ns) + CStr(stat);
    var x := AsSigned(value);
    var k := CStr(kind);
    var body := name + ":" + Decimal(x) + "|" + k + RateSuffix(rate);
    var line := Line(ns, stat, value, kind, rate, lf);
    assert line == body + (if lf then "\n" else "");
    BodyEnd(name, x, k, rate);
    NewlineSetAside(body, lf);
    BodyRoundTrip(name, x, k, rate, lf);
  }

  /** With a sanitised stat and a delimiter-free namespace, the name a server reads is the sanitised one. */
  lemma SanitizedLineRoundTrip(ns: string, stat: string, value: U64, kind: string, rate: real, lf: bool)
    requires NoDelimiters(CStr(ns))
    requires '|' !in CStr(kind) && '\n' !in CStr(kind)
    ensures ParseLine(Line(ns, Sanitize(stat), value, kind, rate, lf)).Some?
    ensures ParseLine(Line(ns, Sanitize(stat), value, kind, rate, lf)).value.name == CStr(ns) + CStr(Sanitize(stat))
    ensures ParseLine(Line(ns, Sanitize(stat), value, kind, rate, lf)).value.value == AsSigned(value)
  {
    SanitizeClean(stat);
    LineRoundTrip(ns, Sanitize(stat), value, kind, rate, lf);
  }
}
