/**
  The statsd client: a Link holding the UDP socket, the server address and the namespace
  buffer, its construction and teardown, the in-place `cleanup`, `statsd_prepare` writing
  into a caller's buffer, `statsd_send`, and the public counter, gauge and timing calls.

  The operating system is not modelled. Each operation takes the outcome of the calls it
  makes (allocation, socket creation, name lookup, the random draw, the datagram write) as
  a parameter, and returns the sequence of calls it issued.
 */
module StatsdClient {
  import opened Wrappers
  import opened CText
  import opened StatsdWire

  /** `AF_INET`. */
  const AF_INET: int := 2

  /** A C `int`. */
  type I32 = x: int | -0x8000_0000 <= x < 0x8000_0000

  /** A `sockaddr_in`: family, port (as `htons` keeps it, the low 16 bits) and IPv4 address. */
  datatype Endpoint = Endpoint(family: int, port: nat, addr: nat)

  /** A zero-filled `sockaddr_in`. */
  const UNSET: Endpoint := Endpoint(0, 0, 0)

  /** A call the client makes into the C library or the kernel. */
  datatype Syscall =
    | Alloc                                               // calloc or malloc
    | Release                                             // free
    | OpenSocket                                          // socket(AF_INET, SOCK_DGRAM, IPPROTO_UDP)
    | Resolve(host: string)                               // getaddrinfo, IPv4 and datagram hints
    | SeedRandom                                          // srandom(time(NULL))
    | CloseSocket(fd: int)                                // close
    | SendTo(fd: int, dest: Endpoint, payload: string)    // sendto of strlen(message) bytes
    | DrawRandom                                          // random()

  /** The part of a Link that a send reads: socket, destination and namespace text. */
  datatype Peer = Peer(sock: int, server: Endpoint, ns: string)

  /** The `statsd_link` record. `ns` is the malloc'ed, NUL-terminated namespace buffer, or NULL. */
  class Link {
    var sock: int
    var server: Endpoint
    var ns: array?<char>

    /** `calloc(1, sizeof(statsd_link))`: every field zero. */
    constructor ()
      ensures sock == 0 && server == UNSET && ns == null
    {
      sock := 0;
      server := UNSET;
      ns := null;
    }

    /** `link->ns ? link->ns : ""` as `%s` reads it. */
    function Namespace(): (s: string)
      reads this, ns
      ensures '\0' !in s
    {
      if ns == null then "" else CStr(ns[..])
    }

    function View(): Peer
      reads this, ns
    {
      Peer(sock, server, Namespace())
    }
  }

  /** The outcomes under which `statsd_init` gets past allocation, socket creation and lookup. */
  predicate InitSucceeds(allocOk: bool, socketFd: int, lookup: Option<nat>)
  {
    allocOk && socketFd != -1 && lookup.Some?
  }

  /**
    `statsd_init`. `allocOk` is whether calloc succeeds, `socketFd` what socket() returns (-1 on
    failure), `lookup` the first IPv4 address getaddrinfo returns (None on failure).
   */
  method Init(host: string, port: I32, allocOk: bool, socketFd: int, lookup: Option<nat>)
    returns (link: Link?, trace: seq<Syscall>)
    ensures host == [] || port == 0 ==> link == null && trace == []
    ensures link != null <==> host != [] && port != 0 && InitSucceeds(allocOk, socketFd, lookup)
    ensures link != null ==> fresh(link) && link.sock == socketFd && link.ns == null
    ensures link != null ==> link.server == Endpoint(AF_INET, port % 0x1_0000, lookup.value)
    ensures link != null ==> trace == [Alloc, OpenSocket, Resolve(CStr(host)), SeedRandom]
    ensures link == null && host != [] && port != 0
         ==> trace == [Alloc] + (if allocOk then [OpenSocket] + (if socketFd != -1 then [Resolve(CStr(host))] else []) + [Release]
                                 else [])
    ensures OpenSocket in trace <==> host != [] && port != 0 && allocOk
    ensures Resolve(CStr(host)) in trace <==> host != [] && port != 0 && allocOk && socketFd != -1
    ensures forall fd :: CloseSocket(fd) !in trace
  {
    if |host| == 0 || port == 0 {
      return null, [];
    }
    trace := [Alloc];
    if !allocOk {
      return null, trace;
    }
    var temp := new Link();
    trace := trace + [OpenSocket];
    temp.sock := socketFd;
    if temp.sock == -1 {
      return null, trace + [Release];
    }
    temp.server := Endpoint(AF_INET, port % 0x1_0000, 0);
    trace := trace + [Resolve(CStr(host))];
    if lookup.None? {
      // the socket just opened is not closed on this path
      return null, trace + [Release];
    }
    temp.server := temp.server.(addr := lookup.value);
    trace := trace + [SeedRandom];
    return temp, trace;
  }

  /**
    `statsd_init_with_namespace`. `ns` is the namespace pointer (None for NULL); `nsAllocOk` is
    whether the malloc of the namespace buffer succeeds. The code uses the result of
    `statsd_init` without checking it, so it is only defined when that call succeeds.
   */
  method InitWithNamespace(host: string, port: I32, ns: Option<string>, allocOk: bool, socketFd: int,
                           lookup: Option<nat>, nsAllocOk: bool)
    returns (link: Link?, trace: seq<Syscall>)
    requires host != [] && port != 0 && ns.Some? ==> InitSucceeds(allocOk, socketFd, lookup)
    ensures host == [] || port == 0 || ns.None? ==> link == null && trace == []
    ensures link != null <==> host != [] && port != 0 && ns.Some? && nsAllocOk
    ensures link != null ==> fresh(link) && link.sock == socketFd
    ensures link != null ==> link.server == Endpoint(AF_INET, port % 0x1_0000, lookup.value)
    ensures link != null ==> link.ns != null && fresh(link.ns)
    ensures link != null ==> link.ns[..] == CStr(ns.value) + ['.', '\0']
    ensures link != null ==> link.Namespace() == CStr(ns.value) + "."
    ensures host != [] && port != 0 && ns.Some? ==>
              trace == [Alloc, OpenSocket, Resolve(CStr(host)), SeedRandom, Alloc]
  {
    if |host| == 0 || port == 0 || ns.None? {
      return null, [];
    }
    var name := CStr(ns.value);
    var len := |name|;
    link, trace := Init(host, port, allocOk, socketFd, lookup);
    trace := trace + [Alloc];
    if !nsAllocOk {
      // perror("malloc"): the link and its socket are not released on this path
      return null, trace;
    }
    var buf := new char[len + 2];
    var i := 0;
    while i < len
      invariant 0 <= i <= len
      invariant buf[..i] == name[..i]
      invariant link.sock == socketFd && link.server == Endpoint(AF_INET, port % 0x1_0000, lookup.value)
    {
      buf[i] := name[i];
      i := i + 1;
    }
    buf[len] := '.';
    buf[len + 1] := '\0';
    assert buf[..] == name + ['.', '\0'];
    link.ns := buf;
    CStrUnique(buf[..], name + ".");
  }

  /**
    `statsd_finalize`: NULL is ignored; otherwise the socket is closed unless it is already -1,
    the namespace buffer is freed, and the link itself is freed.
   */
  method Finalize(link: Link?) returns (trace: seq<Syscall>)
    modifies link
    ensures link == null ==> trace == []
    ensures link != null ==> link.sock == -1 && link.ns == null && link.server == old(link.server)
    ensures link != null ==>
              trace == (if old(link.sock) != -1 then [CloseSocket(old(link.sock))] else [])
                       + (if old(link.ns) != null then [Release] else [])
                       + [Release]
  {
    trace := [];
    if link == null {
      return;
    }
    if link.sock != -1 {
      trace := trace + [CloseSocket(link.sock)];
      link.sock := -1;
    }
    if link.ns != null {
      trace := trace + [Release];
      link.ns := null;
    }
    trace := trace + [Release];
  }

  /** `cleanup`'s loop: rewrites every delimiter of the string it is given to '_', in place. */
  method Cleanup(stat: array<char>)
    modifies stat
    ensures stat[..] == Sanitize(old(stat[..]))
  {
    var i := 0;
    while i < stat.Length
      invariant 0 <= i <= stat.Length
      invariant forall j :: 0 <= j < i ==> stat[j] == SanitizeChar(old(stat[j]))
      invariant forall j :: i <= j < stat.Length ==> stat[j] == old(stat[j])
    {
      var x := stat[i];
      if x == ':' || x == '|' || x == '@' {
        stat[i] := '_';
      }
      i := i + 1;
    }
    forall j | 0 <= j < stat.Length ensures stat[j] == Sanitize(old(stat[..]))[j] {
      SanitizeAt(old(stat[..]), j);
    }
  }

  /**
    `statsd_prepare`. A NULL link leaves the buffer alone. Otherwise `cleanup` runs on a copy of
    `stat` (the parameter is passed by value), so the line carries the name as given, and
    `snprintf(message, buflen, ...)` stores the line cut to `buflen - 1` characters and a NUL.
   */
  method Prepare(link: Link?, stat: string, value: U64, kind: string, rate: real,
                 message: array<char>, buflen: nat, lf: int)
    requires buflen <= message.Length
    requires link != null ==> message != link.ns
    modifies message
    ensures link == null ==> message[..] == old(message[..])
    ensures link != null ==>
              message[..] == BoundedWrite(old(message[..]), buflen, Line(link.Namespace(), stat, value, kind, rate, lf != 0))
  {
    if link == null {
      return;
    }
    var copy := new char[|stat|](i requires 0 <= i < |stat| => stat[i]);
    Cleanup(copy);
    var line := Line(link.Namespace(), stat, value, kind, rate, lf != 0);
    WriteBounded(message, buflen, line);
  }

  /** The store `snprintf(message, buflen, ...)` makes once the text `out` is formatted. */
  method WriteBounded(message: array<char>, buflen: nat, out: string)
    requires buflen <= message.Length
    modifies message
    ensures message[..] == BoundedWrite(old(message[..]), buflen, out)
  {
    if buflen == 0 {
      return;
    }
    var k := Min(|out|, buflen - 1);
    var i := 0;
    while i < k
      invariant 0 <= i <= k
      invariant forall j :: 0 <= j < i ==> message[j] == out[j]
      invariant forall j :: i <= j < message.Length ==> message[j] == old(message[j])
    {
      message[i] := out[i];
      i := i + 1;
    }
    message[k] := '\0';
    BoundedWriteAt(old(message[..]), message[..], buflen, out);
  }

  /** A buffer that holds the cut text, a NUL after it, and its old content beyond is the bounded write. */
  lemma BoundedWriteAt(before: seq<char>, after: seq<char>, n: nat, out: string)
    requires 0 < n <= |before| == |after|
    requires forall j :: 0 <= j < Min(|out|, n - 1) ==> after[j] == out[j]
    requires after[Min(|out|, n - 1)] == '\0'
    requires forall j :: Min(|out|, n - 1) < j < |after| ==> after[j] == before[j]
    ensures after == BoundedWrite(before, n, out)
  {
  }

  /** `strlen`: the index of the first NUL. */
  method StrLen(s: array<char>) returns (n: nat)
    requires '\0' in s[..]
    ensures n < s.Length && s[n] == '\0' && '\0' !in s[..n]
    ensures s[..n] == CStr(s[..])
  {
    n := 0;
    while s[n] != '\0'
      invariant n <= s.Length
      invariant '\0' in s[n..]
      invariant '\0' !in s[..n]
      decreases s.Length - n
    {
      assert s[n..] == [s[n]] + s[n + 1..];
      n := n + 1;
    }
    CStrUnique(s[..], s[..n]);
  }

  /**
    `statsd_send`: -2 for a NULL link without touching the message; otherwise one datagram of
    `strlen(message)` bytes to the link's server, and -1 or 0 as the write fails or not.
   */
  method Send(link: Link?, message: array<char>, sendOk: bool) returns (rc: int, trace: seq<Syscall>)
    requires link != null ==> '\0' in message[..]
    ensures link == null ==> rc == -2 && trace == []
    ensures link != null ==> rc == (if sendOk then 0 else -1)
    ensures link != null ==> trace == [SendTo(link.sock, link.server, CStr(message[..]))]
  {
    if link == null {
      return -2, [];
    }
    var len := StrLen(message);
    trace := [SendTo(link.sock, link.server, message[..len])];
    if !sendOk {
      return -1, trace;
    }
    return 0, trace;
  }

  /** A return code and the calls made to get it. */
  datatype Outcome = Outcome(rc: int, calls: seq<Syscall>)

  /**
    What `send_stat` does for a link (None for NULL) and a draw `p`: a draw is taken iff the
    rate is below 1; a sampled-out stat returns 0 and sends nothing; otherwise the result is
    that of `statsd_send` on the formatted datagram.
   */
  function StatOutcome(peer: Option<Peer>, stat: string, value: U64, kind: string, rate: real,
                       p: real, sendOk: bool): (o: Outcome)
    ensures o.rc == 0 || o.rc == -1 || o.rc == -2
    ensures DrawRandom in o.calls <==> DrawsRandom(rate)
    ensures !ShouldSend(rate, p) ==> o.rc == 0 && forall c :: c in o.calls ==> !c.SendTo?
    ensures o.rc == -2 <==> ShouldSend(rate, p) && peer.None?
    ensures o.rc == -1 <==> ShouldSend(rate, p) && peer.Some? && !sendOk
  {
    var draws := if DrawsRandom(rate) then [DrawRandom] else [];
    if !ShouldSend(rate, p) then Outcome(0, draws)
    else match peer
      case None => Outcome(-2, draws)
      case Some(l) =>
        Outcome(if sendOk then 0 else -1,
                draws + [SendTo(l.sock, l.server, Datagram(l.ns, stat, value, kind, rate))])
  }

  function PeerOf(link: Link?): Option<Peer>
    reads link, if link != null then {link.ns} else {}
  {
    if link == null then None else Some(link.View())
  }

  /** `send_stat`: sample, format into a MAX_MSG_LEN buffer without newline, send. */
  method SendStat(link: Link?, stat: string, value: U64, kind: string, rate: real, p: real, sendOk: bool)
    returns (rc: int, trace: seq<Syscall>)
    ensures Outcome(rc, trace) == StatOutcome(PeerOf(link), stat, value, kind, rate, p, sendOk)
  {
    trace := if DrawsRandom(rate) then [DrawRandom] else [];
    if !ShouldSend(rate, p) {
      return 0, trace;
    }
    var message := new char[MAX_MSG_LEN];
    ghost var before := message[..];
    Prepare(link, stat, value, kind, rate, message, MAX_MSG_LEN, 0);
    if link != null {
      BoundedWriteReadBack(before, MAX_MSG_LEN, Line(link.Namespace(), stat, value, kind, rate, false));
    }
    var sent;
    rc, sent := Send(link, message, sendOk);
    trace := trace + sent;
  }

  /** `statsd_count`: a counter line, type `c`, at the given rate. */
  method Count(link: Link?, stat: string, value: U64, rate: real, p: real, sendOk: bool)
    returns (rc: int, trace: seq<Syscall>)
    ensures Outcome(rc, trace) == StatOutcome(PeerOf(link), stat, value, COUNTER, rate, p, sendOk)
  {
    rc, trace := SendStat(link, stat, value, COUNTER, rate, p, sendOk);
  }

  /** `statsd_dec`: a count of -1, which `size_t` holds as 2^64 - 1. */
  method Dec(link: Link?, stat: string, rate: real, p: real, sendOk: bool)
    returns (rc: int, trace: seq<Syscall>)
    ensures Outcome(rc, trace) == StatOutcome(PeerOf(link), stat, ToU64(-1), COUNTER, rate, p, sendOk)
  {
    rc, trace := Count(link, stat, ToU64(-1), rate, p, sendOk);
  }

  /** `statsd_inc`: a count of 1. */
  method Inc(link: Link?, stat: string, rate: real, p: real, sendOk: bool)
    returns (rc: int, trace: seq<Syscall>)
    ensures Outcome(rc, trace) == StatOutcome(PeerOf(link), stat, 1, COUNTER, rate, p, sendOk)
  {
    rc, trace := Count(link, stat, 1, rate, p, sendOk);
  }

  /** `statsd_gauge`: type `g`, never sampled. */
  method Gauge(link: Link?, stat: string, value: U64, p: real, sendOk: bool)
    returns (rc: int, trace: seq<Syscall>)
    ensures Outcome(rc, trace) == StatOutcome(PeerOf(link), stat, value, GAUGE, 1.0, p, sendOk)
  {
    rc, trace := SendStat(link, stat, value, GAUGE, 1.0, p, sendOk);
  }

  /** `statsd_timing`: type `ms`, never sampled. */
  method Timing(link: Link?, stat: string, ms: U64, p: real, sendOk: bool)
    returns (rc: int, trace: seq<Syscall>)
    ensures Outcome(rc, trace) == StatOutcome(PeerOf(link), stat, ms, TIMING, 1.0, p, sendOk)
  {
    rc, trace := SendStat(link, stat, ms, TIMING, 1.0, p, sendOk);
  }
}
