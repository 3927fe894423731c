/**
 The relay loop of a worker: each round reads the server first and the client
 second. A chunk of data is written to the other side verbatim, an empty read
 (the short read timeout expired) forwards nothing and the loop goes on, and a
 terminal read (the peer closed or the socket failed) leaves the loop at once,
 so a terminal server read skips that round's client read.

 The reads the two sockets deliver are given as two finite sequences. When one
 runs out before a terminal read, the real loop would simply keep polling; the
 model then stops with `Idle`, meaning "still relaying, nothing more observed".
 */
module RelayEngine {
  import opened JavaLang

  /** What one `readBytes(blockSize)` returns: bytes, an empty array, or null. */
  datatype ReadResult = Chunk(data: seq<byte>) | Empty | Terminal

  datatype Stop = ServerClosed | ClientClosed | Idle

  /**
   How far the loop got: why it stopped, how many reads it made from each
   side, and what it wrote to each side.
   */
  datatype RelayEnd = RelayEnd(stop: Stop, serverReads: nat, clientReads: nat, toClient: seq<byte>, toServer: seq<byte>)

  /** The bytes a read hands over for forwarding. */
  function Payload(r: ReadResult): seq<byte> {
    if r.Chunk? then r.data else []
  }

  /** The concatenation of the payloads of `rs`, in order. */
  function Flatten(rs: seq<ReadResult>): seq<byte> {
    if rs == [] then [] else Payload(rs[0]) + Flatten(rs[1..])
  }

  /** `e` preceded by `rounds` completed rounds that wrote `toClient` and `toServer`. */
  function After(rounds: nat, toClient: seq<byte>, toServer: seq<byte>, e: RelayEnd): RelayEnd {
    RelayEnd(e.stop, rounds + e.serverReads, rounds + e.clientReads, toClient + e.toClient, toServer + e.toServer)
  }

  /** The loop of lines 108-125 as a function of the reads the two sockets deliver. */
  function Relay(sr: seq<ReadResult>, cr: seq<ReadResult>): RelayEnd
    decreases |sr|
  {
    if |sr| == 0 then RelayEnd(Idle, 0, 0, [], [])
    else if sr[0].Terminal? then RelayEnd(ServerClosed, 1, 0, [], [])
    else if |cr| == 0 then RelayEnd(Idle, 1, 0, Payload(sr[0]), [])
    else if cr[0].Terminal? then RelayEnd(ClientClosed, 1, 1, Payload(sr[0]), [])
    else After(1, Payload(sr[0]), Payload(cr[0]), Relay(sr[1..], cr[1..]))
  }

  /**
   What the loop means: reads alternate server, client; only a terminal read
   ends the loop, and the first one met always does (a terminal server read
   skips that round's client read); an empty read never ends it; the client
   receives exactly the server's chunks read so far, in order, and the server
   exactly the client's.
   */
  lemma RelayMeaning(sr: seq<ReadResult>, cr: seq<ReadResult>)
    ensures CountsHold(sr, cr, Relay(sr, cr))
    ensures OutputsHold(sr, cr, Relay(sr, cr))
  {
    RelayCounts(sr, cr);
    RelayOutputs(sr, cr);
  }

  /**
   The reads a loop that ended in `r` made, and why it stopped: the server is
   read as often as the client or once more, a terminal read is always the
   last read of its side and ends the loop, and `Idle` means a side ran out.
   */
  predicate CountsHold(sr: seq<ReadResult>, cr: seq<ReadResult>, r: RelayEnd) {
    && r.clientReads <= r.serverReads <= |sr| && r.clientReads <= |cr|
    && r.serverReads <= r.clientReads + 1
    && (forall j :: 0 <= j < r.serverReads && sr[j].Terminal? ==> r.stop == ServerClosed && j == r.serverReads - 1)
    && (forall j :: 0 <= j < r.clientReads && cr[j].Terminal? ==> r.stop == ClientClosed && j == r.clientReads - 1)
    && (r.stop == ServerClosed ==> r.serverReads == r.clientReads + 1 && sr[r.serverReads - 1].Terminal?)
    && (r.stop == ClientClosed ==> r.serverReads == r.clientReads && r.clientReads > 0 && cr[r.clientReads - 1].Terminal?)
    && (r.stop == Idle ==> (r.serverReads == r.clientReads == |sr|) || (r.serverReads == r.clientReads + 1 && r.clientReads == |cr|))
  }

  /** What a loop that ended in `r` forwarded: each side the other side's payloads read so far, in order. */
  predicate OutputsHold(sr: seq<ReadResult>, cr: seq<ReadResult>, r: RelayEnd) {
    && r.serverReads <= |sr| && r.clientReads <= |cr|
    && r.toClient == Flatten(sr[..r.serverReads])
    && r.toServer == Flatten(cr[..r.clientReads])
  }

  /** The reads the loop makes and why it stops. */
  lemma {:induction false} RelayCounts(sr: seq<ReadResult>, cr: seq<ReadResult>)
    ensures CountsHold(sr, cr, Relay(sr, cr))
    decreases |sr|
  {
    if |sr| > 0 && !sr[0].Terminal? && |cr| > 0 && !cr[0].Terminal? {
      RelayCounts(sr[1..], cr[1..]);
    }
  }

  /** What the loop forwards. */
  lemma {:induction false} RelayOutputs(sr: seq<ReadResult>, cr: seq<ReadResult>)
    ensures OutputsHold(sr, cr, Relay(sr, cr))
    decreases |sr|
  {
    if |sr| > 0 && !sr[0].Terminal? && |cr| > 0 && !cr[0].Terminal? {
      var rest := Relay(sr[1..], cr[1..]);
      RelayOutputs(sr[1..], cr[1..]);
      assert sr[..rest.serverReads + 1][1..] == sr[1..][..rest.serverReads];
      assert cr[..rest.clientReads + 1][1..] == cr[1..][..rest.clientReads];
    } else if |sr| > 0 && !sr[0].Terminal? {
      assert sr[..1][1..] == [];
      if |cr| > 0 {
        assert cr[..1][1..] == [];
      }
    }
  }

  /** Lines 108-125: the polling loop, appending what it reads to the two output streams. */
  method RelayLoop(sr: seq<ReadResult>, cr: seq<ReadResult>) returns (r: RelayEnd)
    ensures r == Relay(sr, cr)
  {
    var toClient: seq<byte> := [];
    var toServer: seq<byte> := [];
    var i := 0;
    while true
      invariant i <= |sr| && i <= |cr|
      invariant Relay(sr, cr) == After(i, toClient, toServer, Relay(sr[i..], cr[i..]))
      decreases |sr| - i
    {
      RelayAt(sr, cr, i);
      assert toClient + [] == toClient && toServer + [] == toServer;
      if i == |sr| {
        return RelayEnd(Idle, i, i, toClient, toServer);
      }
      var buffer := sr[i];
      if buffer.Terminal? {
        return RelayEnd(ServerClosed, i + 1, i, toClient, toServer);
      }
      ghost var sent := toClient;
      if buffer.Chunk? && |buffer.data| > 0 {
        toClient := toClient + buffer.data;
      }
      assert toClient == sent + Payload(sr[i]);
      if i == |cr| {
        return RelayEnd(Idle, i + 1, i, toClient, toServer);
      }
      buffer := cr[i];
      if buffer.Terminal? {
        return RelayEnd(ClientClosed, i + 1, i + 1, toClient, toServer);
      }
      ghost var received := toServer;
      if buffer.Chunk? && |buffer.data| > 0 {
        toServer := toServer + buffer.data;
      }
      assert toServer == received + Payload(cr[i]);
      AfterAfter(i, sent, received, Payload(sr[i]), Payload(cr[i]), Relay(sr[i + 1..], cr[i + 1..]));
      i := i + 1;
    }
  }

  lemma AfterAfter(i: nat, toClient: seq<byte>, toServer: seq<byte>, p: seq<byte>, q: seq<byte>, e: RelayEnd)
    ensures After(i, toClient, toServer, After(1, p, q, e)) == After(i + 1, toClient + p, toServer + q, e)
  {
    assert toClient + (p + e.toClient) == (toClient + p) + e.toClient;
    assert toServer + (q + e.toServer) == (toServer + q) + e.toServer;
  }

  /** One step of `Relay` at position i of both read sequences. */
  lemma RelayAt(sr: seq<ReadResult>, cr: seq<ReadResult>, i: nat)
    requires i <= |sr| && i <= |cr|
    ensures Relay(sr[i..], cr[i..]) ==
      if i == |sr| then RelayEnd(Idle, 0, 0, [], [])
      else if sr[i].Terminal? then RelayEnd(ServerClosed, 1, 0, [], [])
      else if i == |cr| then RelayEnd(Idle, 1, 0, Payload(sr[i]), [])
      else if cr[i].Terminal? then RelayEnd(ClientClosed, 1, 1, Payload(sr[i]), [])
      else After(1, Payload(sr[i]), Payload(cr[i]), Relay(sr[i + 1..], cr[i + 1..]))
  {
    if i < |sr| && i < |cr| {
      assert sr[i..][1..] == sr[i + 1..] && cr[i..][1..] == cr[i + 1..];
    }
  }

  // ---------------------------------------------------------------- properties

  /** Index of the first terminal read, or |rs| when there is none. */
  function FirstTerminal(rs: seq<ReadResult>): (k: nat)
    ensures k <= |rs|
    ensures k < |rs| ==> rs[k].Terminal?
    ensures forall j :: 0 <= j < k ==> !rs[j].Terminal?
  {
    if rs == [] || rs[0].Terminal? then 0 else 1 + FirstTerminal(rs[1..])
  }

  lemma {:induction false} FlattenAppend(a: seq<ReadResult>, b: seq<ReadResult>)
    ensures Flatten(a + b) == Flatten(a) + Flatten(b)
  {
    if a == [] {
      assert a + b == b;
    } else {
      assert (a + b)[0] == a[0];
      assert (a + b)[1..] == a[1..] + b;
      FlattenAppend(a[1..], b);
      assert Flatten(a + b) == Payload(a[0]) + (Flatten(a[1..]) + Flatten(b));
    }
  }

  /**
   Liveness in one direction: while the client only times out, every chunk the
   server sends before it closes reaches the client, and the loop ends exactly
   when (and because) the server's first terminal read comes.
   */
  lemma {:induction false} QuietClientDoesNotBlockServer(sr: seq<ReadResult>, cr: seq<ReadResult>)
    requires |cr| + 1 >= |sr|
    requires forall j :: 0 <= j < |cr| ==> cr[j] == Empty
    ensures Relay(sr, cr).toClient == Flatten(sr[..FirstTerminal(sr)])
    ensures Relay(sr, cr).toServer == []
    ensures Relay(sr, cr).stop == if FirstTerminal(sr) < |sr| then ServerClosed else Idle
  {
    RelayMeaning(sr, cr);
    var r := Relay(sr, cr);
    var k := FirstTerminal(sr);
    if k < |sr| {
      assert r.serverReads == k + 1;
      assert sr[..k + 1] == sr[..k] + [sr[k]];
      FlattenAppend(sr[..k], [sr[k]]);
      assert Flatten([sr[k]]) == [];
    } else {
      assert r.stop == Idle;
      assert sr[..r.serverReads] == sr[..k];
    }
    FlattenOfEmpties(cr[..r.clientReads]);
  }

  /**
   Liveness in the other direction: while the server only times out, every
   chunk the client sends before it closes reaches the server, and the loop
   ends exactly when (and because) the client's first terminal read comes.
   */
  lemma QuietServerDoesNotBlockClient(sr: seq<ReadResult>, cr: seq<ReadResult>)
    requires |sr| >= |cr|
    requires forall j :: 0 <= j < |sr| ==> sr[j] == Empty
    ensures Relay(sr, cr).toServer == Flatten(cr[..FirstTerminal(cr)])
    ensures Relay(sr, cr).toClient == []
    ensures Relay(sr, cr).stop == if FirstTerminal(cr) < |cr| then ClientClosed else Idle
  {
    RelayMeaning(sr, cr);
    var r := Relay(sr, cr);
    var k := FirstTerminal(cr);
    if k < |cr| {
      assert r.clientReads == k + 1;
      assert cr[..k + 1] == cr[..k] + [cr[k]];
      FlattenAppend(cr[..k], [cr[k]]);
      assert Flatten([cr[k]]) == [];
    } else {
      assert r.stop == Idle;
      assert cr[..r.clientReads] == cr[..k];
    }
    FlattenOfEmpties(sr[..r.serverReads]);
  }

  lemma {:induction false} FlattenOfEmpties(rs: seq<ReadResult>)
    requires forall j :: 0 <= j < |rs| ==> rs[j] == Empty
    ensures Flatten(rs) == []
  {
    if rs != [] {
      FlattenOfEmpties(rs[1..]);
    }
  }

  /**
   The server sends one chunk and then stalls while the client sends nothing:
   the chunk reaches the client within the first round and the loop keeps
   polling for as long as the reads are observed.
   */
  lemma ChunkThenStall(data: seq<byte>, n: nat)
    ensures var sr := [Chunk(data)] + seq(n, _ => Empty);
            var r := Relay(sr, seq(n + 1, _ => Empty));
            r.stop == Idle && r.toClient == data && r.toServer == []
    ensures var sr := [Chunk(data)] + seq(n, _ => Empty);
            Relay(sr[..1], seq(n + 1, _ => Empty)[..1]).toClient == data
  {
    var sr := [Chunk(data)] + seq(n, _ => Empty);
    var cr := seq(n + 1, _ => Empty);
    assert sr[..1] == [Chunk(data)] && cr[..1] == [Empty];
    QuietClientDoesNotBlockServer(sr, cr);
    assert FirstTerminal(sr) == |sr| by {
      assert forall j :: 0 <= j < |sr| ==> !sr[j].Terminal?;
    }
    assert sr[..|sr|] == [Chunk(data)] + sr[1..];
    FlattenAppend([Chunk(data)], sr[1..]);
    FlattenOfEmpties(sr[1..]);
    assert Flatten([Chunk(data)]) == data + Flatten([]);
  }

  /** A server that closes after the reads `before`, facing a quiet client, ends the loop on that close. */
  lemma ServerCloseAfter(before: seq<ReadResult>, cr: seq<ReadResult>)
    requires forall j :: 0 <= j < |before| ==> !before[j].Terminal?
    requires |cr| >= |before| && forall j :: 0 <= j < |cr| ==> cr[j] == Empty
    ensures Relay(before + [Terminal], cr).stop == ServerClosed
    ensures Relay(before + [Terminal], cr).toClient == Flatten(before)
    ensures Relay(before + [Terminal], cr).toServer == []
  {
    var sr := before + [Terminal];
    QuietClientDoesNotBlockServer(sr, cr);
    assert FirstTerminal(sr) == |before| by {
      assert sr[|before|] == Terminal;
      assert forall j :: 0 <= j < |before| ==> sr[j] == before[j];
    }
    assert sr[..|before|] == before;
  }
}
