# HTTProxy relay worker, modelled in Dafny

HTTProxy is a small dynamic HTTP proxy. Its accept loop puts each incoming
client socket at the back of a shared list `sockets` and starts a thread. The
thread runs `run()`, which is one relay worker. It takes the oldest pending
socket. It sniffs the first block the client sends and finds the destination
in the first line that starts with `Host: `. The destination's port defaults
to 80. The worker then connects to that destination and forwards the sniffed
block. It relays bytes in both directions, polling the server first and the
client second in each round, until one side reads as closed. Last it closes
both sockets and decrements the shared `workers` counter.

The project has four modules:

- `JavaLang` (`java_lang.dfy`) holds the Java library behaviour the worker
  depends on. This covers `new String(byte[])`, `startsWith`, `trim`,
  `indexOf` and `split`, which drops trailing empty strings. It also covers
  `Integer.valueOf`, which throws on anything that is not a signed decimal int,
  and `Integer.toString`.
- `HostHeader` (`host_header.dfy`) holds the Host-line scan and the parse of
  its value, lines 65-80. The two ways line 73 throws appear as explicit
  results, `PortMissing` and `PortNotNumber`.
- `RelayEngine` (`relay.dfy`) holds the relay loop, lines 108-125. It appears
  both as a function of the reads each socket delivers and as the imperative
  loop proved against that function.
- `Proxy` (`proxy.dfy`) holds the `HTTProxy` object, with its `workers` counter
  and its FIFO `sockets` list. It also holds `run()` as the method `Run`, which
  is proved against the function `Worker`, and `Serve` and `Route`, its two
  later stages, proved against `Served` and `Routed`. It also holds the properties of whole
  sessions.

The sockets' behaviour is a parameter, `Env`. It says:

- whether wrapping the accepted socket succeeds;
- the first read;
- how the outbound connect ends: connected, an `IOException` (which `run()`
  catches), or an unchecked exception (which escapes it);
- the sequence of reads each side delivers in the loop;
- whether closing the server socket throws.

A read is a chunk of bytes, an empty array (the read timed out, or the peer
has not sent anything yet) or null (`Terminal`: the peer closed the
connection or the socket failed).

The model follows the code, also where the code behaves differently from what
a reader of the class might expect:

- The counter `workers` is never incremented anywhere in the class. Each path
  `run()` handles decrements it exactly once, with Java int wrap-around.
- A null first read makes `new String(null)` throw, so the thread dies before
  any decrement. A Host value whose port `Integer.valueOf` rejects, or whose
  `split(":")` has no second piece, ends the same way. So does an unchecked
  exception from the connect, since line 92 catches only `IOException`. If
  `SocketWrapper` builds a `java.net.Socket`, a port outside 0-65535, which
  `Integer.valueOf` accepts, raises such an exception.
- The port is the text between the first and the second `:`, not everything
  after the first. `"a:1:2"` routes to port 1 of `a`.
- The teardown closes the server socket first. When that close throws, the
  client socket is never closed.

## Model

| member | source | states |
|---|---|---|
| JavaLang.Decode | HTTProxy.java:66 | `new String(buffer)` keeps the length and maps each byte to the character with the same code |
| JavaLang.LeadingBlanks | HTTProxy.java:71 | the count is a blank prefix followed by a non-blank character or the end |
| JavaLang.TrailingBlanks | HTTProxy.java:71 | the count is a blank suffix preceded by a non-blank character or the start |
| JavaLang.TrimSplit | HTTProxy.java:71 | `trim()` returns the piece between a blank prefix and a blank suffix; it neither starts nor ends with a blank |
| JavaLang.TrimEnds | HTTProxy.java:71 | a trimmed value is empty or has non-blank characters at both ends |
| JavaLang.TrimUnique | HTTProxy.java:71 | blank padding around a value with non-blank ends trims back to exactly that value |
| JavaLang.TrimOfTrimmed | HTTProxy.java:71 | trim is the identity on a value with non-blank ends |
| JavaLang.IndexOf | HTTProxy.java:72-74 | the index holds the first occurrence of the character |
| JavaLang.Split | HTTProxy.java:66 | the pieces between separators; there is at least one and none contains the separator |
| JavaLang.JoinSplit | HTTProxy.java:66 | joining the pieces with the separator gives the text back |
| JavaLang.SplitJoin | HTTProxy.java:66 | splitting joined separator-free pieces gives the pieces back |
| JavaLang.SplitOfJoined | HTTProxy.java:66 | the split of `first + sep + rest` is `first` followed by the split of `rest` |
| JavaLang.SplitOfSeparators | HTTProxy.java:73 | text made only of separators splits into empty pieces only |
| JavaLang.JavaSplitJoin | HTTProxy.java:66 | `String.split` of joined pieces returns the pieces without trailing empty ones |
| JavaLang.SplitKeepsChar | HTTProxy.java:73 | a non-separator character lands in a non-empty piece |
| JavaLang.DropTrailingEmpty | HTTProxy.java:66 | the result is a prefix of the pieces, everything dropped is empty, and it does not end with an empty piece |
| JavaLang.JavaSplit | HTTProxy.java:66 | no piece `String.split` returns contains the separator |
| JavaLang.JavaSplitNoSecond | HTTProxy.java:73 | with only separators after the first one, `split(":")` has no element 1 |
| JavaLang.JavaSplitSecond | HTTProxy.java:73-74 | with any other character after the first separator, element 0 is the text before it and element 1 is the text up to the next separator |
| JavaLang.SplitAtFirst | HTTProxy.java:73-74 | the split is the text before the first separator followed by the split of the rest |
| JavaLang.DropTrailingEmptyCons | HTTProxy.java:73-74 | a non-empty later piece keeps the first two pieces in place |
| JavaLang.SplitFirst | HTTProxy.java:74 | the first piece is the text up to the first separator |
| JavaLang.ParseInt | HTTProxy.java:73 | `Integer.valueOf` succeeds only on a sign or a digit followed by digits, ending in a digit, and only for a value in the 32-bit int range |
| JavaLang.DigitChar | HTTProxy.java:73 | a digit value becomes a decimal digit character |
| JavaLang.ShowNat | HTTProxy.java:73 | a non-empty string of decimal digits |
| JavaLang.DigitsValueShowNat | HTTProxy.java:73 | the digits written for `n` have value `n` |
| JavaLang.ParseShow | HTTProxy.java:73 | `Integer.valueOf` reads back every int that `Integer.toString` writes |
| JavaLang.ParseNonNegative | HTTProxy.java:73 | `Integer.valueOf` reads back the decimal digits of every non-negative int |
| JavaLang.ParseNegative | HTTProxy.java:73 | `Integer.valueOf` reads back `-` followed by the digits of a magnitude up to 2^31 as the negative int |
| JavaLang.ParseIntRejectsBlank | HTTProxy.java:71-73 | a leading or trailing blank makes `Integer.valueOf` throw |
| JavaLang.ShowChars | HTTProxy.java:73 | `Integer.toString` writes at least one character, ends in a digit, and writes only digits and `-` |
| JavaLang.ParseUnsigned | HTTProxy.java:73 | `Integer.valueOf` of unsigned digits is their value when it fits an int, and throws otherwise |
| JavaLang.ParseSigned | HTTProxy.java:73 | with a leading `+` the value is the digits' value, with `-` its negation, each only within the int range (down to -2^31) |
| JavaLang.LoneSignThrows | HTTProxy.java:73 | `Integer.valueOf("-")` and `Integer.valueOf("+")` throw |
| JavaLang.ParseOutOfRange | HTTProxy.java:73 | digits for a value above 2^31-1 throw, signed with `+` or unsigned, and with `-` above 2^31 |
| JavaLang.ParsePlusShow | HTTProxy.java:73 | `+` followed by the digits of a non-negative int reads back as that int |
| HostHeader.Lines | HTTProxy.java:66 | no header line contains `\n` |
| HostHeader.ParseHostValue | HTTProxy.java:72-77 | a value without `:` is the host on port 80; a found host never contains `:`; a value is never read as "no Host line" |
| HostHeader.FirstHostLine | HTTProxy.java:69-78 | the index is the first line starting with `Host: `; there is none exactly when no line does |
| HostHeader.ScanHeaders | HTTProxy.java:65-80 | the loop that breaks at the first Host line computes `ParseHeader` |
| HostHeader.FirstHostLineIs | HTTProxy.java:69-78 | a Host line preceded only by other lines is the one the scan stops at |
| HostHeader.NoHostLineIff | HTTProxy.java:67-81 | no destination results exactly when no line starts with `Host: ` |
| HostHeader.FirstHostLineWins | HTTProxy.java:78 | the first Host line decides and later ones are ignored |
| HostHeader.PrefixIsExact | HTTProxy.java:70 | the prefix match is case-sensitive and needs the space |
| HostHeader.ColonValue | HTTProxy.java:72-74 | a value with `:` uses the text before the first `:` as host and the piece up to the next `:` as port; it throws when no later piece is non-empty or the port is not an int |
| HostHeader.ColonValueMissing | HTTProxy.java:73 | with only `:` after the first `:`, `split(":")[1]` throws |
| HostHeader.ColonValuePort | HTTProxy.java:73-74 | with another character after the first `:`, the host is the text before it and the port is read from the piece up to the next `:` |
| HostHeader.FoundHostIsClean | HTTProxy.java:66-77 | a found host contains neither `\n` nor `:` and does not start with a blank |
| HostHeader.CleanValue | HTTProxy.java:66-71 | trimming a Host line's value introduces no `\n` |
| HostHeader.ParsedHostIsClean | HTTProxy.java:72-77 | the host parsed from a value with no `\n` and no leading blank has neither, and has no `:` |
| HostHeader.CarriageReturnIgnored | HTTProxy.java:66-71 | the CR that `split("\n")` leaves on a CRLF line is removed by `trim()` |
| HostHeader.HostAndPort | HTTProxy.java:72-74 | `host:port` with one `:` gives that host and `Integer.valueOf(port)`, or throws if the port is not an int |
| HostHeader.HostWithPort | HTTProxy.java:72-74 | `host:` followed by any int written in decimal, negative ones included, reads back as that host and port |
| HostHeader.PortOutOfRange | HTTProxy.java:73 | `host:` followed by the digits of a number above 2^31-1 makes `Integer.valueOf` throw on that piece |
| HostHeader.NotNumberPort | HTTProxy.java:73 | a port piece that starts with neither a digit nor a sign throws |
| HostHeader.RequestLines | HTTProxy.java:66 | a CRLF two-line header splits into the request line and the Host line, each keeping its CR, then a lone CR |
| HostHeader.HostRequest | HTTProxy.java:65-80 | in a request line followed by a Host line, the trimmed Host value decides |
| HostHeader.HostPortRequest | HTTProxy.java:65-80 | a request line followed by `Host: host:port` and CRLF endings names that host and that port, for every int port; `Host: example.com:8443` after `GET / HTTP/1.1` is one instance |
| HostHeader.HostPortShape | HTTProxy.java:71 | `host:port` with any int port written in decimal has no `\n` and non-blank ends |
| HostHeader.RequestWithoutHost | HTTProxy.java:69-81 | a request line followed only by the blank line names no destination |
| HostHeader.PortBetweenFirstAndSecondColon | HTTProxy.java:73-74 | `a:1:2` gives host `a` and port 1 |
| HostHeader.EmptyPortThrows | HTTProxy.java:73 | `a:` and `a::` have no element 1 after the split, so line 73 throws |
| HostHeader.EmptyPieceBeforePort | HTTProxy.java:73 | `a::80` reads the empty piece as the port, and `Integer.valueOf("")` throws |
| RelayEngine.RelayMeaning | HTTProxy.java:108-125 | reads alternate server then client; only a terminal read ends the loop, and the first one does; a terminal server read skips that round's client read; each side receives exactly the other side's chunks so far, in order |
| RelayEngine.RelayCounts | HTTProxy.java:108-119 | the server is read once more than the client or as often; the first terminal read ends the loop and no earlier read is terminal |
| RelayEngine.RelayOutputs | HTTProxy.java:112-124 | the client receives the server's payloads read so far and the server the client's, in order |
| RelayEngine.RelayLoop | HTTProxy.java:108-125 | the imperative loop computes `Relay` |
| RelayEngine.AfterAfter | HTTProxy.java:108-125 | the outputs of consecutive rounds concatenate |
| RelayEngine.RelayAt | HTTProxy.java:109-124 | one step of the loop at position i: stop on the server's terminal read, stop on the client's terminal read, or forward both payloads and go on |
| RelayEngine.FirstTerminal | HTTProxy.java:110-111 | the index of the first terminal read, or the length when there is none |
| RelayEngine.FlattenAppend | HTTProxy.java:115-123 | forwarding two runs of reads forwards their concatenation |
| RelayEngine.QuietClientDoesNotBlockServer | HTTProxy.java:108-125 | while the client only times out, the client gets every server chunk up to the server's first terminal read, and the loop ends exactly there |
| RelayEngine.QuietServerDoesNotBlockClient | HTTProxy.java:108-125 | while the server only times out, the server gets every client chunk up to the client's first terminal read, and the loop ends exactly there |
| RelayEngine.FlattenOfEmpties | HTTProxy.java:112-120 | empty reads forward nothing |
| RelayEngine.ChunkThenStall | HTTProxy.java:108-125 | one chunk followed by time-outs reaches the client in the first round, and the loop keeps polling |
| RelayEngine.ServerCloseAfter | HTTProxy.java:108-125 | with a quiet client, a server close after non-terminal reads ends the loop on it, the client gets those reads' payloads and the server nothing |
| Proxy.IntDecrement | HTTProxy.java:130 | `workers--` (here and at lines 57, 85 and 97) on a Java int stays in range and is one less modulo 2^32 |
| Proxy.HTTProxy.constructor | HTTProxy.java:23-42 | the configuration is stored, `timeout` is 50, `blockSize` is 8096 and `workers` is 0, with an empty pending list |
| Proxy.HTTProxy.Accept | HTTProxy.java:152 | the accepted socket joins the back of the pending list and the counter is unchanged |
| Proxy.Served | HTTProxy.java:54-130 | the session after the take is about the socket taken |
| Proxy.Routed | HTTProxy.java:81-130 | the session after the sniff is about the socket taken |
| Proxy.Connected | HTTProxy.java:104-130 | the connected session is about the socket taken |
| Proxy.HTTProxy.Run | HTTProxy.java:48-131 | the worker takes and removes the oldest pending socket and behaves as `Worker`; the counter drops once on a handled path and is unchanged when an exception escapes |
| Proxy.HTTProxy.Serve | HTTProxy.java:54-130 | once the socket is taken the worker behaves as `Served`, keeps the pending list, and drops the counter once on a handled path |
| Proxy.HTTProxy.Route | HTTProxy.java:81-130 | after the sniff the worker behaves as `Routed`, keeps the pending list, and drops the counter once on a handled path |
| Proxy.OldestPendingFirst | HTTProxy.java:53 | two sockets accepted at line 152 are served in the order they were accepted |
| Proxy.CrashPaths | HTTProxy.java:53-98 | the thread dies exactly when the list is empty, the first read is null, the port cannot be read, or the connect throws an unchecked exception; a dying thread has closed and written nothing; every other ended path is handled |
| Proxy.RoutedCrashes | HTTProxy.java:72-98 | after the sniff the thread dies exactly when the port cannot be read or the connect to a found destination throws an unchecked exception, and then nothing is closed or written |
| Proxy.NoHostNoConnect | HTTProxy.java:81-87 | no Host line, and only that, closes the client without connecting or writing |
| Proxy.RoutedNoHost | HTTProxy.java:81-87 | after the sniff, no Host line and only that ends with no destination, the client closed and nothing written |
| Proxy.ConnectFailureClosesClient | HTTProxy.java:89-98 | the connect fails on a handled path exactly when the header names a destination and the connect to it throws `IOException`; then only the client is closed and nothing is written |
| Proxy.RoutedConnectFailure | HTTProxy.java:89-98 | after the sniff the connect fails exactly when a destination was found and the connect throws `IOException`; then only the client is closed and nothing is written |
| Proxy.WrapFailureClosesNothing | HTTProxy.java:52-58 | wrapping fails on a handled path exactly when a socket was taken and cannot be wrapped; nothing is connected, closed or written |
| Proxy.RoutedNotWrap | HTTProxy.java:81-130 | once the sniff is done the worker can no longer end as a wrap failure |
| Proxy.UncheckedConnectCrashes | HTTProxy.java:89-98 | an unchecked exception from the connect ends the thread without a decrement, closes nothing and writes nothing |
| Proxy.RelaysIffConnected | HTTProxy.java:81-108 | the worker relays exactly when it has a destination and the connect succeeds |
| Proxy.RoutedRelaysIff | HTTProxy.java:81-108 | after the sniff the worker relays exactly when it has a destination and the connect succeeds |
| Proxy.ConnectedMeaning | HTTProxy.java:104-130 | the server receives the sniffed block and then the client's chunks; the client receives the server's chunks; a finished session tears down in order, and one still relaying has closed nothing |
| Proxy.WorkerConnects | HTTProxy.java:48-104 | a connected session had a socket to take, a non-null first read whose header names the destination, and continues from the sniffed block |
| Proxy.RoutedConnects | HTTProxy.java:72-104 | a connected session after the sniff had the header name its destination and continues as `Connected` |
| Proxy.TeardownOrder | HTTProxy.java:126-129 | the server is closed first; the client is closed exactly when the server close did not throw |
| Proxy.RoutedTeardown | HTTProxy.java:126-129 | a finished session after the sniff closes the server first and the client only when that close did not throw |
| Proxy.RoutedTo | HTTProxy.java:65-104 | a first block whose header names a destination sends the worker there, the block first |
| Proxy.RoutedFound | HTTProxy.java:89-104 | a found destination is the one connected to, and a connected server first receives the sniffed block |
| Proxy.RoutesToDefaultPort | HTTProxy.java:65-104 | a Host line without a port routes to port 80 of that host |
| Proxy.RoutesToExplicitPort | HTTProxy.java:65-104 | a Host line `host:port` routes to that port of that host |
| Proxy.MissingHostIsDropped | HTTProxy.java:81-87 | a request without a Host line is dropped: client closed, nothing connected or written |
| Proxy.StalledServerKeepsSession | HTTProxy.java:104-125 | 100 bytes from a server that then stalls reach the client in the first round, and the session goes on |
| Proxy.ServerCloseEndsSession | HTTProxy.java:108-130 | a server close ends the loop on that read, the client gets everything sent before it, and both sockets are closed |

## Left out

- `start()` and `main`: the server socket, the accept loop, thread creation and argument parsing are I/O. Only their effect on the pending list (line 152) is modelled, by `Accept`.
- Concurrency: `synchronized(this)` and the unsynchronised `workers--` are not modelled. Each `Run` is one atomic step on the object, so lost updates of the counter between threads are not captured.
- The `setSoTimeout` calls (lines 63, 101-102) and their swallowed exceptions are left out. A timeout appears only as an `Empty` read.
- `SocketWrapper` is not part of this model. Its `readBytes` / `writeBytes` are the `Env` read sequences plus the outputs of a `Session`, and every write is taken to succeed.
- The outbound connect (line 91) is the three-way `Env.connect`: `Established`, `IOFailure` or `UncheckedFailure`. `SocketWrapper` is not part of this model, so which destinations make it throw is given by `Env` and not derived. That covers DNS failures and the port range check.
- `getRemoteSocketAddress` (line 99) and all logging (lines 55-56, 106-107, 113-114, 121-122) are left out, since they do not affect the relayed bytes.
- The platform charset is taken to be Latin-1: `Decode` maps each byte to the character with the same code, so multi-byte encodings are not modelled.
- `ParseInt` accepts only ASCII digits; the non-ASCII decimal digits `Integer.valueOf` also accepts are not modelled.
- `blockSize` (8096) only bounds the size of one read. The model takes chunks as given and does not constrain their length.
- The relay loop in the source need not end. The model sees finite read sequences, and a session whose observed reads run out before a terminal read ends with `Relaying` / `Idle`, meaning "still polling".
