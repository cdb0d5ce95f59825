# StatsD client model

A Dafny model of the StatsD client in `statsd-client.cpp`. The client turns one metric into one
line of the StatsD text protocol,

    [<ns>.]<name>:<value>|<type>[|@<rate>]

and writes that line as a single UDP datagram to one configured server. The model covers:

- the `statsd_link` record and how it is built and torn down (`statsd_init`,
  `statsd_init_with_namespace`, `statsd_finalize`);
- the name sanitiser `cleanup`;
- the sampling rule `should_send`;
- the line encoder `statsd_prepare`, with its two format branches, its optional newline and
  the `snprintf` truncation;
- `statsd_send` and `send_stat` with their return codes;
- the public `statsd_count`, `statsd_inc`, `statsd_dec`, `statsd_gauge` and `statsd_timing`.

Files and modules:

- `ctext.dfy` (module `CText`) covers C-level text:
  - what `%s` and `strlen` read from a buffer (`CStr`);
  - `size_t` and its `%zd` rendering as a signed two's-complement value (`ToU64`, `AsSigned`);
  - decimal rendering, with a reader for the round trip;
  - `%.2f`, as rounding half to even of the exact value.
- `wire.dfy` (module `StatsdWire`) covers the wire format:
  - the sanitiser;
  - the sampling rule;
  - the line;
  - what a bounded `snprintf` leaves in a buffer;
  - the datagram `send_stat` sends;
  - a line reader (`ParseLine`) that splits a line the way a StatsD server does, used as the line's inverse.
- `client.dfy` (module `StatsdClient`) holds the imperative part:
  - the `Link` class, whose fields are `sock`, `server` and the namespace buffer `ns`;
  - the construction, teardown, cleanup, prepare and send methods;
  - `StatOutcome`, the specification of `send_stat`, which `SendStat` and the five public calls are proved against.
- `properties.dfy` (module `StatsdProperties`) holds the lemmas about the public calls and the
  worked example lines of the StatsD line format.
- `wrappers.dfy` holds the `Option` type. `None` stands for a NULL pointer or a failed lookup.

The operating system is passed in, not modelled. Each method takes the outcome of every call it
makes as a parameter:
- `allocOk` and `nsAllocOk` for `calloc` and `malloc`;
- `socketFd` for `socket()`, where -1 means failure;
- `lookup` for the first IPv4 address from `getaddrinfo`;
- `p` for the draw `random()/RAND_MAX`;
- `sendOk` for `sendto`.

Each method also returns the list of calls it made, as `Syscall` values: allocation, release,
socket, lookup, seeding, close, send and random draw. So "no socket or DNS work", "nothing is
sent" and "the socket is closed" are statements about that list. The list records the
allocation and release of the link and the namespace buffer only. It has no entry for
`freeaddrinfo` (statsd-client.cpp:63), nor for the `time()` call whose result seeds
`srandom` (statsd-client.cpp:65); `SeedRandom` stands for that line as a whole.

## Where the code and the intended behaviour differ

The model follows the code in each case below.

- **Sanitising.** The comment on `cleanup` says it changes the original string (statsd-client.cpp:97), so every stat name was meant to be sanitised before encoding. But `cleanup`
  takes its `std::string` by value (statsd-client.cpp:98). Its rewrite is lost, and
  `statsd_prepare` formats the name as given (statsd-client.cpp:149-153).
  - `Prepare` runs `Cleanup` on a copy that it then drops. Its line uses the raw `stat`.
  - `DelimiterReachesWire` shows that `a:b` reaches the wire as `a:b:1|c`, and that a server reads the name `a` from it.
  - `SanitizedNameSurvives` shows what sanitising would have given.
- **Empty namespace.** An empty namespace would make every name start with a bare `.`. The code refuses only a
  NULL namespace pointer. An empty namespace is stored as `"."`.
- **Overlong lines.** A cut line reaches the server as a different, shorter metric. The code truncates
  it to `buflen - 1` characters, through `snprintf`.
- **Closing twice.** `statsd_finalize` frees the link
  itself (statsd-client.cpp:94), so a second call uses freed memory. The model describes one call.
- **Leaks on failure.** Some failure paths do not release what they hold:
  - when `getaddrinfo` fails, the socket already opened is never closed (statsd-client.cpp:58-61, 69-74);
  - when the namespace `malloc` fails, the link and its socket are never released (statsd-client.cpp:18-21).
  - The call lists of `Init` and `InitWithNamespace` record these: they hold no `CloseSocket`.
- **Unchecked init.** `statsd_init_with_namespace` uses the result of `statsd_init` without
  checking it (statsd-client.cpp:16-18). A failed init there dereferences NULL.
  `InitWithNamespace` therefore requires that init succeeds whenever it is reached.

## Model

| member | source | states |
|---|---|---|
| `CText.ToU64` | statsd-client.cpp:163-166 | converting an int to `size_t` keeps it when it is in range, and otherwise differs from it by a multiple of 2^64 (so `-1` becomes 2^64-1) |
| `CText.AsSigned` | statsd-client.cpp:151-153 | `%zd` prints a `size_t` as a value in [-2^63, 2^63) with the same 64 bits, so converting it back gives the original |
| `CText.AsSignedOfToU64` | statsd-client.cpp:163-166 | every signed 64-bit value survives the conversion to `size_t` and `%zd`; for example `dec`'s `-1` |
| `CText.CStr` | statsd-client.cpp:151 | what `%s` reads has no NUL, is a prefix of the buffer, and stops at its first NUL |
| `CText.CStrUnique` | statsd-client.cpp:126 | a NUL-free prefix followed by a NUL (or by the end of the buffer) is exactly what `%s` and `strlen` read |
| `CText.NatDecimal` | statsd-client.cpp:151 | unsigned decimal rendering: non-empty, digits only, and no leading zero unless the value is 0 |
| `CText.DigitsValueOfNatDecimal` | statsd-client.cpp:151 | reading the decimal digits back gives the value |
| `CText.Decimal` | statsd-client.cpp:151-153 | the value is a signed decimal: it starts with '-' exactly when it is negative, the rest is digits, and the first digit is '0' only for the value 0 (no padding) |
| `CText.DecimalRoundTrip` | statsd-client.cpp:151-153 | reading the signed decimal back gives the printed value |
| `CText.RoundHalfEven` | statsd-client.cpp:153 | the rounded hundredths lie within 1/2 of the exact value, and are non-negative for a non-negative value |
| `CText.Fixed2` | statsd-client.cpp:153 | `%.2f` output: a '-' first exactly when the rate is negative, then at least one digit of whole part, '.', and exactly two fraction digits |
| `CText.Fixed2Rounds` | statsd-client.cpp:153 | the printed rate reads back to within 0.005 of the actual rate |
| `StatsdWire.Sanitize` | statsd-client.cpp:98-107 | sanitising keeps the length of the name |
| `StatsdWire.SanitizeAt` | statsd-client.cpp:100-106 | each colon, vertical bar and at-sign becomes '_', and every other character is kept |
| `StatsdWire.SanitizeClean` | statsd-client.cpp:98-107 | a sanitised name contains no delimiter |
| `StatsdWire.SanitizeFixpoint` | statsd-client.cpp:98-107 | sanitising leaves a name unchanged if and only if it contains no delimiter |
| `StatsdWire.SanitizeIdempotent` | statsd-client.cpp:98-107 | sanitising twice gives the same result as sanitising once |
| `StatsdWire.ShouldSend` | statsd-client.cpp:109-118 | a rate of at least 1 always sends; with a draw p >= 0, a rate <= 0 never sends |
| `StatsdWire.ShouldSendBelowOne` | statsd-client.cpp:112-114 | below rate 1, a stat is sent if and only if the draw is strictly under the rate |
| `StatsdWire.ShouldSendMonotone` | statsd-client.cpp:109-118 | for a given draw, raising the rate never turns a send into a skip |
| `StatsdWire.RateSuffix` | statsd-client.cpp:150-153 | the rate part (vertical bar, '@', rate) is absent if and only if the rate is exactly 1.0 |
| `StatsdWire.Line` | statsd-client.cpp:150-153 | the formatted line contains no NUL, so `strlen` later sees all of it |
| `StatsdWire.Truncate` | statsd-client.cpp:151-153 | `snprintf` keeps the prefix of the line of exactly min(length, `buflen` - 1) characters, so a line that fits is kept whole and a longer one keeps `buflen` - 1 characters |
| `StatsdWire.BoundedWrite` | statsd-client.cpp:151-153 | the store of a bounded `snprintf` keeps the buffer size and does not touch bytes at or past `buflen` |
| `StatsdWire.BoundedWriteReadBack` | statsd-client.cpp:151-153 | after the store, the buffer's C string is the line cut to `buflen - 1` characters |
| `StatsdWire.Datagram` | statsd-client.cpp:135-140 | what `send_stat` sends is the prefix of the line without its newline of exactly min(length, MAX_MSG_LEN - 1 = 1023) characters: the whole line when it fits, its first 1023 characters otherwise |
| `StatsdWire.LineRoundTrip` | statsd-client.cpp:150-153 | if the name has no colon and the type has no vertical bar or newline, a server reads back the name, the signed value, the type, the two-decimal rate (only when rate != 1.0) and the newline flag |
| `StatsdWire.SanitizedLineRoundTrip` | statsd-client.cpp:97-107 | with a sanitised name and a delimiter-free namespace, a server reads the whole name and the value back |
| `StatsdClient.Link.constructor` | statsd-client.cpp:39 | `calloc`: the socket field is 0, the address is zero-filled, and there is no namespace buffer |
| `StatsdClient.Link.Namespace` | statsd-client.cpp:151 | the prefix a line starts with is `""` for a NULL `ns`, and otherwise the buffer up to its NUL |
| `StatsdClient.Init` | statsd-client.cpp:29-75 | an empty host or a port of 0 returns NULL and makes no call. A link is returned exactly when allocation, the socket and the lookup all succeed. It then holds the socket, `AF_INET`, the port's low 16 bits, the first address and no namespace, and the calls were allocate, socket, lookup, seed. On every failure after the argument check the calls are exactly allocate, then socket if allocation succeeded, then lookup if the socket opened, then one release of the link if it was allocated; nothing is seeded and no socket is ever closed |
| `StatsdClient.InitWithNamespace` | statsd-client.cpp:6-27 | a NULL namespace, an empty host or a port of 0 returns NULL and makes no call. Otherwise the link is returned exactly when the namespace `malloc` succeeds. Its `ns` buffer is `strlen(ns)` characters, then '.', then NUL, so the prefix is `ns + "."` |
| `StatsdClient.Finalize` | statsd-client.cpp:77-95 | NULL is a no-op. Otherwise the socket is closed only if it is not -1, then set to -1. The namespace buffer is freed and set to NULL, and then the link is freed |
| `StatsdClient.Cleanup` | statsd-client.cpp:98-107 | the loop rewrites the array in place into `Sanitize` of its old contents |
| `StatsdClient.Prepare` | statsd-client.cpp:145-155 | a NULL link leaves the buffer untouched. Otherwise the buffer becomes the bounded `snprintf` of the line built from the namespace and the unsanitised `stat`, with the newline exactly when `lf` is nonzero |
| `StatsdClient.WriteBounded` | statsd-client.cpp:151-153 | the buffer receives the text cut to `buflen - 1` characters and a NUL, and the rest of it is unchanged |
| `StatsdClient.StrLen` | statsd-client.cpp:126 | `strlen` finds the first NUL, and the bytes before it are the buffer's C string |
| `StatsdClient.Send` | statsd-client.cpp:120-131 | a NULL link returns -2 and makes no call. Otherwise exactly one datagram of `strlen(message)` bytes goes to the link's socket and server, and the result is -1 if the write fails, 0 otherwise |
| `StatsdClient.StatOutcome` | statsd-client.cpp:133-143 | the result is always 0, -1 or -2. A random draw is taken exactly when the rate is below 1. A stat sampled out returns 0 and sends nothing. -2 means sampled in with no link, and -1 means sampled in with a link whose write failed |
| `StatsdClient.SendStat` | statsd-client.cpp:133-143 | its result code and call list are those of `StatOutcome`: sample, format into a 1024-byte buffer without newline, send |
| `StatsdClient.Count` | statsd-client.cpp:158-161 | `send_stat` with type `c` and the caller's rate |
| `StatsdClient.Inc` | statsd-client.cpp:168-171 | `statsd_count` with value 1 |
| `StatsdClient.Dec` | statsd-client.cpp:163-166 | `statsd_count` with `-1` converted to `size_t` |
| `StatsdClient.Gauge` | statsd-client.cpp:173-176 | `send_stat` with type `g` and rate 1.0 |
| `StatsdClient.Timing` | statsd-client.cpp:178-181 | `send_stat` with type `ms` and rate 1.0 |
| `StatsdProperties.CounterReadsBack` | statsd-client.cpp:158-161 | when the name holds no colon, a server reading the line `count` builds gets back the whole name, the value as `%zd` prints it, the type `c`, a rate part exactly when the rate is not 1, and the newline flag |
| `StatsdProperties.DecRendersMinusOne` | statsd-client.cpp:163-166 | `dec` puts the value `-1` with type `c` on the wire |
| `StatsdProperties.IncRendersOne` | statsd-client.cpp:168-171 | `inc` puts the value `1` with type `c` on the wire |
| `StatsdProperties.UnsampledKinds` | statsd-client.cpp:173-181 | gauges and timings draw no random number. Their one datagram is the namespace, the stat, a colon, the value, a vertical bar and `g` or `ms`, with no rate part. The result is -2 without a link, and otherwise 0 or -1 |
| `StatsdProperties.FullRateAlwaysSends` | statsd-client.cpp:136-142 | with a link and a rate >= 1, a datagram is sent whatever the draw |
| `StatsdProperties.FullRateLine` | statsd-client.cpp:150-151 | at rate 1.0 without newline, the line is the namespace, the stat, a colon, the value, a vertical bar and the type, and nothing more |
| `StatsdProperties.CounterExample` | statsd-client.cpp:150-151 | `a.b`, 42, counter, rate 1 gives the line `a.b:42` followed by the counter type |
| `StatsdProperties.NamespacedCounterExample` | statsd-client.cpp:22-24 | under namespace `ns`, stored as `ns.`, the same counter gives the same line with `ns.` in front |
| `StatsdProperties.TimingExample` | statsd-client.cpp:178-181 | `t` with 150 ms gives the line `t:150` followed by the timing type `ms` |
| `StatsdProperties.HalfRate` | statsd-client.cpp:153 | rate 0.5 prints as `0.50` after the vertical bar and '@' |
| `StatsdProperties.SampledExample` | statsd-client.cpp:152-153 | `hits`, 1, counter, rate 0.5 gives `hits:1`, the counter type, then the rate `0.50` |
| `StatsdProperties.DelimiterReachesWire` | statsd-client.cpp:149 | the name `a:b` goes out unsanitised as `a:b:1` plus the counter type, and a server reads the name `a` from it |
| `StatsdProperties.SanitizedNameSurvives` | statsd-client.cpp:97-107 | the sanitised name `a_b` would go out as `a_b:1` plus the counter type and be read back whole |

## Left out

- mod_statsd.cpp and mod_statsd.c are not part of this model. They are host glue: configuration loading, database counts, the polling loop, module registration, and call-record reporting that is commented out.
- Operating-system calls are outcome parameters, not models: `calloc`, `malloc`, `free`, `socket`, `getaddrinfo`, `freeaddrinfo`, `sendto`, `close`, `srandom`, `random`. The model does not read the error message or `errno`.
- Logging (`perror`, `fprintf(stderr, ...)`) is left out.
- Byte order is not modelled. `htons` is taken as keeping the low 16 bits of the port.
- Only the first IPv4 address is modelled. It is a plain number.
- The draw: `p` is a real number standing for `(float)random() / RAND_MAX`. The float rounding of that division is not modelled.
- Sampling statistics are not modelled. No claim is made about how often a given rate sends over many calls.
- The sample rate is modelled as the exact real value of the `float`. NaN, infinities and negative zero are not modelled. `%.2f` is modelled as rounding half to even on that exact value.
- `size_t` is taken to be 64 bits wide (`TWO_64`, `U64` and `AsSigned` in ctext.dfy). A 32-bit target would print `dec`'s value the same way but wrap other values at 2^32.
- Cleanup: `cleanup` counts with an `unsigned int` index (statsd-client.cpp:100), which would wrap on a name of 2^32 characters or more. `Cleanup` uses an unbounded index, so that case is not modelled.
- Characters are Dafny `char`s, standing for C `char`s. There is no 8-bit bound and no encoding.
- Memory ownership is not modelled:
  - `Finalize` describes the link's fields after the call, although the C code frees the link;
  - use after free and a second `statsd_finalize` are outside the model.
- Concurrency is left out. That covers the module's mutex and shutdown flag, and concurrent senders sharing the socket.
- `sql_count_callback` is left out.
