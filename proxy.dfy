/**
 The proxy object and the life of one relay worker (`run`): take the oldest
 pending socket, sniff the first block, find the destination in its Host
 line, connect, send the sniffed block on, relay until a terminal read, close
 both sockets. Every path the code handles ends with one `workers--`; the
 paths on which an exception escapes `run` (an empty pending list, a null
 first read, a Host value whose port cannot be read, an unchecked exception
 from the connect) end the thread without it, leaving the client socket open.

 What the sockets do is given as an `Env`: whether wrapping the accepted
 socket succeeds, the first read, how the outbound connect ends, the
 reads each side delivers in the relay loop, and whether closing the server
 socket throws.
 */
module Proxy {
  import opened JavaLang
  import opened HostHeader
  import opened RelayEngine

  /** An accepted client socket, known by its identity. */
  datatype Conn = Conn(id: nat)

  datatype Side = Client | Server

  /** The exceptions that escape `run`. */
  datatype Crash =
    | NoPendingSocket        // sockets.remove(0) on an empty list (line 53)
    | NullFirstRead          // new String(null) after a terminal first read (line 66)
    | PortIndexOutOfBounds   // split(":")[1] with no second piece (line 73)
    | PortNumberFormat       // Integer.valueOf on a piece that is not an int (line 73)
    | ConnectUnchecked       // an unchecked exception from the connect, which line 92 does not catch

  datatype Outcome =
    | WrapFailed             // lines 54-58
    | NoDestination          // lines 81-87
    | ConnectFailed          // lines 92-98
    | Finished(stop: Stop)   // lines 108-130, stop is ServerClosed or ClientClosed
    | Relaying               // still inside the loop when the observed reads end
    | Crashed(crash: Crash)

  /**
   How `new SocketWrapper(rhost, rport, false)` (line 91) ends: connected, an
   IOException (caught at line 92), or an unchecked exception such as the
   IllegalArgumentException a java.net.Socket raises for a port outside 0-65535.
   */
  datatype ConnectResult = Established | IOFailure | UncheckedFailure

  /** What the sockets deliver to one worker. */
  datatype Env = Env(
    wrapOk: bool,
    firstRead: ReadResult,
    connect: ConnectResult,
    serverReads: seq<ReadResult>,
    clientReads: seq<ReadResult>,
    serverCloseThrows: bool)

  /**
   What one worker did: the socket it took, how it ended, the destination it
   connected to (or tried to), everything it wrote to each side in order, and
   the sockets it called close() on, in order.
   */
  datatype Session = Session(
    client: Option<Conn>,
    outcome: Outcome,
    dest: Option<Destination>,
    toServer: seq<byte>,
    toClient: seq<byte>,
    closed: seq<Side>)

  /** The paths that run to the end of `run` or to one of its `return`s. */
  predicate Handled(o: Outcome) {
    o.WrapFailed? || o.NoDestination? || o.ConnectFailed? || o.Finished?
  }

  /** `workers--` on a Java int: wraps from the least int to the greatest. */
  function IntDecrement(w: int): (r: int)
    requires IntMin <= w <= IntMax
    ensures IntMin <= r <= IntMax
    ensures (w - 1 - r) % 0x1_0000_0000 == 0
  {
    if w == IntMin then IntMax else w - 1
  }

  function CrashOf(lookup: Lookup): Crash
    requires lookup.PortMissing? || lookup.PortNotNumber?
  {
    if lookup.PortMissing? then PortIndexOutOfBounds else PortNumberFormat
  }

  /** The closes of the teardown (lines 126-129): server first; a throw there skips the client. */
  function TeardownCloses(serverCloseThrows: bool): seq<Side> {
    if serverCloseThrows then [Server] else [Server, Client]
  }

  /** `run()` (lines 48-131) as a function of the pending sockets and of what the sockets deliver. */
  function Worker(pending: seq<Conn>, env: Env): Session {
    if |pending| == 0 then Session(None, Crashed(NoPendingSocket), None, [], [], [])
    else Served(pending[0], env)
  }

  /** The rest of `run` once it has taken the socket `c` (lines 54-130). */
  function Served(c: Conn, env: Env): (r: Session)
    ensures r.client == Some(c)
  {
    if !env.wrapOk then Session(Some(c), WrapFailed, None, [], [], [])
    else if env.firstRead.Terminal? then Session(Some(c), Crashed(NullFirstRead), None, [], [], [])
    else
      var buffer := Payload(env.firstRead);
      Routed(c, env, buffer, ParseHeader(Decode(buffer)))
  }

  /** The rest of `run` once the first block `buffer` has been read and looked up. */
  function Routed(c: Conn, env: Env, buffer: seq<byte>, lookup: Lookup): (r: Session)
    ensures r.client == Some(c)
  {
    if lookup.NoHostLine? then Session(Some(c), NoDestination, None, [], [], [Client])
    else if !lookup.Found? then Session(Some(c), Crashed(CrashOf(lookup)), None, [], [], [])
    else if env.connect.UncheckedFailure? then Session(Some(c), Crashed(ConnectUnchecked), Some(lookup.dest), [], [], [])
    else if env.connect.IOFailure? then Session(Some(c), ConnectFailed, Some(lookup.dest), [], [], [Client])
    else Connected(c, env, buffer, lookup.dest)
  }

  /** The rest of `run` once connected to `dest`: forward the sniffed block, relay, tear down. */
  function Connected(c: Conn, env: Env, buffer: seq<byte>, dest: Destination): (r: Session)
    ensures r.client == Some(c)
  {
    var r := Relay(env.serverReads, env.clientReads);
    if r.stop == Idle then Session(Some(c), Relaying, Some(dest), buffer + r.toServer, r.toClient, [])
    else Session(Some(c), Finished(r.stop), Some(dest), buffer + r.toServer, r.toClient, TeardownCloses(env.serverCloseThrows))
  }

  class HTTProxy {
    const lhost: string
    const lport: int
    const backlog: int
    const verbosity: int
    const timeout: int
    const blockSize: int
    var workers: int
    var sockets: seq<Conn>

    ghost predicate Valid()
      reads this
    {
      IntMin <= workers <= IntMax
    }

    /** Lines 35-42, with the field initialisers of lines 23-26. */
    constructor (lhost: string, lport: int, backlog: int, verbosity: int)
      ensures Valid()
      ensures this.lhost == lhost && this.lport == lport && this.backlog == backlog && this.verbosity == verbosity
      ensures timeout == 50 && blockSize == 8096
      ensures workers == 0 && sockets == []
    {
      this.lhost := lhost;
      this.lport := lport;
      this.backlog := backlog;
      this.verbosity := verbosity;
      timeout := 50;
      blockSize := 8096;
      workers := 0;
      sockets := [];
    }

    /** Line 152: an accepted socket joins the back of the pending list. */
    method Accept(c: Conn)
      requires Valid()
      modifies this
      ensures Valid()
      ensures sockets == old(sockets) + [c]
      ensures workers == old(workers)
    {
      sockets := sockets + [c];
    }

    /** Lines 48-131: one worker, from taking the oldest pending socket to teardown. */
    method Run(env: Env) returns (s: Session)
      requires Valid()
      modifies this
      ensures Valid()
      ensures s == Worker(old(sockets), env)
      ensures |old(sockets)| > 0 ==> s.client == Some(old(sockets)[0]) && sockets == old(sockets)[1..]
      ensures |old(sockets)| == 0 ==> sockets == []
      ensures workers == if Handled(s.outcome) then IntDecrement(old(workers)) else old(workers)
    {
      if |sockets| == 0 {
        return Session(None, Crashed(NoPendingSocket), None, [], [], []);
      }
      var client := sockets[0];
      sockets := sockets[1..];
      s := Serve(client, env);
    }

    /** Lines 54-130: wrap the taken socket, sniff the first block, then route. */
    method Serve(client: Conn, env: Env) returns (s: Session)
      requires Valid()
      modifies this
      ensures Valid()
      ensures s == Served(client, env)
      ensures sockets == old(sockets)
      ensures workers == if Handled(s.outcome) then IntDecrement(old(workers)) else old(workers)
    {
      if !env.wrapOk {
        workers := IntDecrement(workers);
        return Session(Some(client), WrapFailed, None, [], [], []);
      }
      // Header sniff (lines 62-80).
      if env.firstRead.Terminal? {
        return Session(Some(client), Crashed(NullFirstRead), None, [], [], []);
      }
      var buffer := Payload(env.firstRead);
      var lookup := ScanHeaders(Decode(buffer));
      s := Route(client, env, buffer, lookup);
    }

    /** Lines 81-130: drop the client, or connect, forward the sniffed block, relay and tear down. */
    method Route(client: Conn, env: Env, buffer: seq<byte>, lookup: Lookup) returns (s: Session)
      requires Valid()
      modifies this
      ensures Valid()
      ensures s == Routed(client, env, buffer, lookup)
      ensures sockets == old(sockets)
      ensures workers == if Handled(s.outcome) then IntDecrement(old(workers)) else old(workers)
    {
      if lookup.NoHostLine? {
        workers := IntDecrement(workers);
        return Session(Some(client), NoDestination, None, [], [], [Client]);
      }
      if !lookup.Found? {
        return Session(Some(client), Crashed(CrashOf(lookup)), None, [], [], []);
      }
      // Connect (lines 89-98).
      var dest := lookup.dest;
      if env.connect.UncheckedFailure? {
        return Session(Some(client), Crashed(ConnectUnchecked), Some(dest), [], [], []);
      }
      if env.connect.IOFailure? {
        workers := IntDecrement(workers);
        return Session(Some(client), ConnectFailed, Some(dest), [], [], [Client]);
      }
      // The sniffed block goes to the server first (line 104), then the loop.
      var toServer := buffer;
      var r := RelayLoop(env.serverReads, env.clientReads);
      toServer := toServer + r.toServer;
      if r.stop == Idle {
        return Session(Some(client), Relaying, Some(dest), toServer, r.toClient, []);
      }
      // Teardown (lines 126-130).
      var closed := [Server];
      if !env.serverCloseThrows {
        closed := closed + [Client];
      }
      workers := IntDecrement(workers);
      s := Session(Some(client), Finished(r.stop), Some(dest), toServer, r.toClient, closed);
    }
  }

  /** Two accepted sockets go to two workers in the order they were accepted (lines 53, 152). */
  method OldestPendingFirst(a: Conn, b: Conn, envA: Env, envB: Env) returns (first: Session, second: Session)
    ensures first.client == Some(a) && second.client == Some(b)
  {
    var proxy := new HTTProxy("0.0.0.0", 8080, 100, 1);
    proxy.Accept(a);
    proxy.Accept(b);
    first := proxy.Run(envA);
    second := proxy.Run(envB);
  }

  // ---------------------------------------------------------------- properties

  /** Exactly the paths through `run` that end in a crash; every other path that ends is handled. */
  lemma CrashPaths(pending: seq<Conn>, env: Env)
    ensures var s := Worker(pending, env);
            var lookup := ParseHeader(Decode(Payload(env.firstRead)));
            && (s.outcome.Crashed? <==>
                 |pending| == 0 ||
                 (env.wrapOk && (env.firstRead.Terminal? || lookup.PortMissing? || lookup.PortNotNumber? ||
                                 (lookup.Found? && env.connect.UncheckedFailure?))))
            && (Handled(s.outcome) <==> !s.outcome.Crashed? && !s.outcome.Relaying?)
            && (s.outcome.Crashed? ==> s.closed == [] && s.toServer == [] && s.toClient == [])
  {
    if |pending| > 0 && env.wrapOk && !env.firstRead.Terminal? {
      var buffer := Payload(env.firstRead);
      RoutedCrashes(pending[0], env, buffer, ParseHeader(Decode(buffer)));
    }
  }

  lemma RoutedCrashes(c: Conn, env: Env, buffer: seq<byte>, lookup: Lookup)
    ensures var s := Routed(c, env, buffer, lookup);
            && (s.outcome.Crashed? <==>
                 lookup.PortMissing? || lookup.PortNotNumber? || (lookup.Found? && env.connect.UncheckedFailure?))
            && (Handled(s.outcome) <==> !s.outcome.Crashed? && !s.outcome.Relaying?)
            && (s.outcome.Crashed? ==> s.closed == [] && s.toServer == [] && s.toClient == [])
  {
  }

  /**
   Without a Host line the client socket is closed and no outbound connection
   is attempted; nothing is written to either side.
   */
  lemma NoHostNoConnect(pending: seq<Conn>, env: Env)
    ensures var s := Worker(pending, env);
            s.outcome == NoDestination <==>
              |pending| > 0 && env.wrapOk && !env.firstRead.Terminal? && ParseHeader(Decode(Payload(env.firstRead))) == NoHostLine
    ensures var s := Worker(pending, env);
            s.outcome == NoDestination ==> s.dest == None && s.closed == [Client] && s.toServer == [] && s.toClient == []
  {
    if |pending| > 0 && env.wrapOk && !env.firstRead.Terminal? {
      var buffer := Payload(env.firstRead);
      RoutedNoHost(pending[0], env, buffer, ParseHeader(Decode(buffer)));
    }
  }

  lemma RoutedNoHost(c: Conn, env: Env, buffer: seq<byte>, lookup: Lookup)
    ensures var s := Routed(c, env, buffer, lookup);
            && (s.outcome == NoDestination <==> lookup == NoHostLine)
            && (s.outcome == NoDestination ==> s.dest == None && s.closed == [Client] && s.toServer == [] && s.toClient == [])
  {
  }

  /**
   An IOException from the connect to the parsed destination, and only that,
   closes the client socket on a handled path; nothing is written.
   */
  lemma ConnectFailureClosesClient(pending: seq<Conn>, env: Env)
    ensures var s := Worker(pending, env);
            s.outcome == ConnectFailed <==>
              && |pending| > 0 && env.wrapOk && !env.firstRead.Terminal?
              && ParseHeader(Decode(Payload(env.firstRead))).Found? && env.connect.IOFailure?
    ensures var s := Worker(pending, env);
            s.outcome == ConnectFailed ==>
              && Handled(s.outcome)
              && s.dest == Some(ParseHeader(Decode(Payload(env.firstRead))).dest)
              && s.closed == [Client] && s.toServer == [] && s.toClient == []
  {
    if |pending| > 0 && env.wrapOk && !env.firstRead.Terminal? {
      var buffer := Payload(env.firstRead);
      RoutedConnectFailure(pending[0], env, buffer, ParseHeader(Decode(buffer)));
    }
  }

  lemma RoutedConnectFailure(c: Conn, env: Env, buffer: seq<byte>, lookup: Lookup)
    ensures var s := Routed(c, env, buffer, lookup);
            && (s.outcome == ConnectFailed <==> lookup.Found? && env.connect.IOFailure?)
            && (s.outcome == ConnectFailed ==>
                  s.dest == Some(lookup.dest) && s.closed == [Client] && s.toServer == [] && s.toClient == [])
  {
  }

  /**
   A socket that cannot be wrapped (lines 52-58), and only that, ends the
   worker on a handled path before anything is read, written or closed.
   */
  lemma WrapFailureClosesNothing(pending: seq<Conn>, env: Env)
    ensures var s := Worker(pending, env);
            s.outcome == WrapFailed <==> |pending| > 0 && !env.wrapOk
    ensures var s := Worker(pending, env);
            s.outcome == WrapFailed ==> Handled(s.outcome) && s.dest == None && s.closed == [] && s.toServer == [] && s.toClient == []
  {
    if |pending| > 0 && env.wrapOk && !env.firstRead.Terminal? {
      var buffer := Payload(env.firstRead);
      RoutedNotWrap(pending[0], env, buffer, ParseHeader(Decode(buffer)));
    }
  }

  lemma RoutedNotWrap(c: Conn, env: Env, buffer: seq<byte>, lookup: Lookup)
    ensures Routed(c, env, buffer, lookup).outcome != WrapFailed
  {
  }

  /**
   An unchecked exception from the connect escapes `run`: the client socket
   stays open, nothing is written, and the path is not a handled one, so the
   counter is not decremented (HTTProxy.Run).
   */
  lemma UncheckedConnectCrashes(pending: seq<Conn>, env: Env)
    requires Worker(pending, env).dest.Some? && env.connect.UncheckedFailure?
    ensures Worker(pending, env).outcome == Crashed(ConnectUnchecked)
    ensures !Handled(Worker(pending, env).outcome)
    ensures Worker(pending, env).closed == [] && Worker(pending, env).toServer == [] && Worker(pending, env).toClient == []
  {
  }

  /** The worker relays exactly when it has a destination and the connect to it succeeds. */
  lemma RelaysIffConnected(pending: seq<Conn>, env: Env)
    ensures Worker(pending, env).outcome.Finished? || Worker(pending, env).outcome.Relaying? <==>
              Worker(pending, env).dest.Some? && env.connect.Established?
  {
    if |pending| > 0 && env.wrapOk && !env.firstRead.Terminal? {
      var buffer := Payload(env.firstRead);
      RoutedRelaysIff(pending[0], env, buffer, ParseHeader(Decode(buffer)));
    }
  }

  lemma RoutedRelaysIff(c: Conn, env: Env, buffer: seq<byte>, lookup: Lookup)
    ensures Routed(c, env, buffer, lookup).outcome.Finished? || Routed(c, env, buffer, lookup).outcome.Relaying? <==>
              Routed(c, env, buffer, lookup).dest.Some? && env.connect.Established?
  {
  }

  /** The connected part of a session: what each side receives and how it ends. */
  lemma ConnectedMeaning(c: Conn, env: Env, sniffed: seq<byte>, dest: Destination)
    ensures var s := Connected(c, env, sniffed, dest);
            var r := Relay(env.serverReads, env.clientReads);
            && r.serverReads <= |env.serverReads| && r.clientReads <= |env.clientReads|
            && s.dest == Some(dest)
            && sniffed <= s.toServer
            && s.toServer == sniffed + Flatten(env.clientReads[..r.clientReads])
            && s.toClient == Flatten(env.serverReads[..r.serverReads])
            && (s.outcome.Finished? <==> r.stop != Idle)
            && (s.outcome.Finished? ==> s.outcome.stop == r.stop && s.closed == TeardownCloses(env.serverCloseThrows))
            && (s.outcome.Relaying? <==> r.stop == Idle)
            && (s.outcome.Relaying? ==> s.closed == [])
  {
    RelayMeaning(env.serverReads, env.clientReads);
  }

  /** Once a destination is known and the connect succeeds, the rest of the session is `Connected`. */
  lemma WorkerConnects(pending: seq<Conn>, env: Env)
    requires Worker(pending, env).dest.Some? && env.connect.Established?
    ensures |pending| > 0 && env.wrapOk && !env.firstRead.Terminal?
    ensures ParseHeader(Decode(Payload(env.firstRead))) == Found(Worker(pending, env).dest.value)
    ensures Worker(pending, env) == Connected(pending[0], env, Payload(env.firstRead), Worker(pending, env).dest.value)
  {
    if |pending| > 0 && env.wrapOk && !env.firstRead.Terminal? {
      var buffer := Payload(env.firstRead);
      RoutedConnects(pending[0], env, buffer, ParseHeader(Decode(buffer)));
    }
  }

  lemma RoutedConnects(c: Conn, env: Env, buffer: seq<byte>, lookup: Lookup)
    requires Routed(c, env, buffer, lookup).dest.Some? && env.connect.Established?
    ensures lookup == Found(Routed(c, env, buffer, lookup).dest.value)
    ensures Routed(c, env, buffer, lookup) == Connected(c, env, buffer, lookup.dest)
  {
  }

  /** The teardown closes the server first; if that throws the client is never closed. */
  lemma TeardownOrder(pending: seq<Conn>, env: Env)
    requires Worker(pending, env).outcome.Finished?
    ensures |Worker(pending, env).closed| > 0 && Worker(pending, env).closed[0] == Server
    ensures Client in Worker(pending, env).closed <==> !env.serverCloseThrows
  {
    var buffer := Payload(env.firstRead);
    RoutedTeardown(pending[0], env, buffer, ParseHeader(Decode(buffer)));
  }

  lemma RoutedTeardown(c: Conn, env: Env, buffer: seq<byte>, lookup: Lookup)
    requires Routed(c, env, buffer, lookup).outcome.Finished?
    ensures Routed(c, env, buffer, lookup).closed == TeardownCloses(env.serverCloseThrows)
  {
  }

  // ---------------------------------------------------------------- scenarios

  /** A first block whose header names `dest` sends the worker to `dest`, the block first. */
  lemma RoutedTo(pending: seq<Conn>, env: Env, request: seq<byte>, dest: Destination)
    requires |pending| > 0 && env.wrapOk && env.firstRead == Chunk(request)
    requires ParseHeader(Decode(request)) == Found(dest)
    ensures Worker(pending, env).dest == Some(dest)
    ensures env.connect.Established? ==> request <= Worker(pending, env).toServer
  {
    assert Worker(pending, env) == Routed(pending[0], env, request, ParseHeader(Decode(request)));
    RoutedFound(pending[0], env, request, dest);
  }

  lemma RoutedFound(c: Conn, env: Env, request: seq<byte>, dest: Destination)
    ensures Routed(c, env, request, Found(dest)).dest == Some(dest)
    ensures env.connect.Established? ==> request <= Routed(c, env, request, Found(dest)).toServer
  {
  }

  /**
   A request whose Host line names `host` without a port is routed to port 80
   of `host`, and the request itself is the first thing the server receives.
   */
  lemma RoutesToDefaultPort(pending: seq<Conn>, env: Env, request: seq<byte>, first: string, host: string)
    requires |pending| > 0 && env.wrapOk && env.firstRead == Chunk(request)
    requires '\n' !in first && !IsHostLine(first)
    requires '\n' !in host && ':' !in host
    requires host == [] || (!IsBlank(host[0]) && !IsBlank(host[|host| - 1]))
    requires Decode(request) == first + "\n" + HostPrefix + host + "\r\n\r\n"
    ensures Worker(pending, env).dest == Some(Destination(host, DefaultPort))
    ensures env.connect.Established? ==> request <= Worker(pending, env).toServer
  {
    HostRequest(first, host);
    TrimOfTrimmed(host);
    RoutedTo(pending, env, request, Destination(host, DefaultPort));
  }

  /** A request whose Host line is `host:port` is routed to that port of `host`. */
  lemma RoutesToExplicitPort(pending: seq<Conn>, env: Env, request: seq<byte>, first: string, host: string, port: int)
    requires |pending| > 0 && env.wrapOk && env.firstRead == Chunk(request)
    requires '\n' !in first && !IsHostLine(first)
    requires '\n' !in host && ':' !in host && (host == [] || !IsBlank(host[0]))
    requires IntMin <= port <= IntMax
    requires Decode(request) == first + "\n" + HostPrefix + (host + ":" + Show(port)) + "\r\n\r\n"
    ensures Worker(pending, env).dest == Some(Destination(host, port))
    ensures env.connect.Established? ==> request <= Worker(pending, env).toServer
  {
    HostPortRequest(first, host, port);
    RoutedTo(pending, env, request, Destination(host, port));
  }

  /**
   A request without a Host line: the client is closed, nothing is connected,
   nothing is written, and the counter drops once (HTTProxy.Run).
   */
  lemma MissingHostIsDropped(pending: seq<Conn>, env: Env, request: seq<byte>, first: string)
    requires |pending| > 0 && env.wrapOk && env.firstRead == Chunk(request)
    requires '\n' !in first && !IsHostLine(first)
    requires Decode(request) == first + "\n\r\n"
    ensures Worker(pending, env).outcome == NoDestination
    ensures Worker(pending, env).dest == None && Worker(pending, env).closed == [Client]
    ensures Worker(pending, env).toServer == [] && Worker(pending, env).toClient == []
  {
    RequestWithoutHost(first);
  }

  /**
   The server sends 100 bytes and then stalls while the client is silent: the
   100 bytes reach the client in the first round and the session goes on.
   */
  lemma StalledServerKeepsSession(pending: seq<Conn>, env: Env, data: seq<byte>, n: nat)
    requires Worker(pending, env).dest.Some? && env.connect.Established? && |data| == 100
    requires env.serverReads == [Chunk(data)] + seq(n, _ => Empty)
    requires env.clientReads == seq(n + 1, _ => Empty)
    ensures Worker(pending, env).outcome == Relaying
    ensures Worker(pending, env).toClient == data
    ensures Relay(env.serverReads[..1], env.clientReads[..1]).toClient == data
  {
    WorkerConnects(pending, env);
    ChunkThenStall(data, n);
  }

  /** The server closes: the loop ends on that read, and the teardown closes both sockets. */
  lemma ServerCloseEndsSession(pending: seq<Conn>, env: Env, before: seq<ReadResult>)
    requires Worker(pending, env).dest.Some? && env.connect.Established? && !env.serverCloseThrows
    requires env.serverReads == before + [Terminal]
    requires (forall j :: 0 <= j < |before| ==> !before[j].Terminal?)
    requires |env.clientReads| >= |before| && forall j :: 0 <= j < |env.clientReads| ==> env.clientReads[j] == Empty
    ensures Worker(pending, env).outcome == Finished(ServerClosed)
    ensures Worker(pending, env).closed == [Server, Client]
    ensures Worker(pending, env).toClient == Flatten(before)
  {
    WorkerConnects(pending, env);
    ServerCloseAfter(before, env.clientReads);
  }
}
