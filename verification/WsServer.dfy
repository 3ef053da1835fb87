/** The debug server: its client map and client count, over whole runs
    (daemon/debug/websocket_server.cpp). Every section that holds the clients mutex is one step. */
module WsServer {
  import opened Bytes
  import opened WsFrame
  import opened WsClient
  import opened Handshake

  const MAX_CLIENTS := 16

  /** `closings` counts the clients that ever entered the Closing state; `failed` is set when decoding
      threw in the server thread, which ends the process. */
  datatype Server = Server(clients: map<int, Client>, count: int, closings: nat, failed: bool)

  const START := Server(map[], 0, 0, false)

  datatype Ending = NoMoreData | HungUp

  /** One critical section, with everything the operating system decides in it. */
  datatype Event =
    | Accept(fd: int)
    | Read(fd: int, chunks: seq<seq<byte>>, ending: Ending, os: seq<SendResult>)
    | Write(fd: int, os: seq<SendResult>)
    | Remove(fd: int)
    | Broadcast(text: seq<byte>, scripts: map<int, seq<SendResult>>)
    | Stop

  function Script(scripts: map<int, seq<SendResult>>, fd: int): seq<SendResult> {
    if fd in scripts then scripts[fd] else []
  }

  function RemoveClient(s: Server, fd: int): Server {
    if fd !in s.clients then s
    else s.(clients := s.clients - {fd},
            count := if s.clients[fd].state == Connected then s.count - 1 else s.count)
  }

  /** Puts a client back after an operation on it, or drops it, with the counters. */
  function Settle(s: Server, fd: int, o: Out): Server
    requires fd in s.clients
  {
    var before := s.clients[fd].state;
    var after := o.client.state;
    Server(if o.alive then s.clients[fd := o.client] else s.clients - {fd},
           if before == Handshaking && after != Handshaking then s.count + 1 else s.count,
           if before != Closing && after == Closing then s.closings + 1 else s.closings,
           o.failed)
  }

  /** A client with `chunks` received. */
  function Fed(c: Client, chunks: seq<seq<byte>>): Client {
    c.(recv := c.recv + Flatten(chunks), received := c.received + Flatten(chunks))
  }

  function ReadStep(s: Server, fd: int, chunks: seq<seq<byte>>, ending: Ending, os: seq<SendResult>): Server {
    if fd !in s.clients then s
    else
      var got := Receive(s.clients[fd].recv, chunks);
      if got.None? || ending == HungUp then RemoveClient(s, fd)
      else Settle(s, fd, Process(Fed(s.clients[fd], chunks), os))
  }

  function TextFrame(text: seq<byte>): Frame { Frame(true, TEXT, false, 0, text) }

  function BroadcastClient(c: Client, text: seq<byte>, os: seq<SendResult>): Client {
    if c.state == Connected then SendFrame(c, TextFrame(text), os).client else c
  }

  function Step(s: Server, e: Event): Server {
    match e
    case Accept(fd) =>
      if |s.clients| >= MAX_CLIENTS then s else s.(clients := s.clients[fd := NEW_CLIENT])
    case Read(fd, chunks, ending, os) => ReadStep(s, fd, chunks, ending, os)
    case Write(fd, os) => if fd in s.clients then Settle(s, fd, Flush(s.clients[fd], os)) else s
    case Remove(fd) => RemoveClient(s, fd)
    case Broadcast(text, scripts) =>
      s.(clients := map fd | fd in s.clients :: BroadcastClient(s.clients[fd], text, Script(scripts, fd)))
    case Stop => START
  }

  /** A descriptor just accepted is not one still open; a process that died takes no more steps. */
  predicate Enabled(s: Server, e: Event) {
    !s.failed && (e.Accept? ==> e.fd !in s.clients)
  }

  function Run(events: seq<Event>): Server {
    if events == [] then START else Step(Run(events[..|events| - 1]), events[|events| - 1])
  }

  ghost predicate Possible(events: seq<Event>) {
    forall i :: 0 <= i < |events| ==> Enabled(Run(events[..i]), events[i])
  }

  // ---- Invariants of all runs -----------------------------------------------------------------

  ghost function ConnectedSet(clients: map<int, Client>): set<int> {
    set fd | fd in clients && clients[fd].state == Connected
  }

  ghost predicate Inv(s: Server) {
    && |s.clients| <= MAX_CLIENTS
    && (forall fd :: fd in s.clients ==> ClientInv(s.clients[fd]))
    && s.count == |ConnectedSet(s.clients)| + s.closings
  }

  lemma ConnectedUpdate(clients: map<int, Client>, fd: int, c: Client)
    requires fd in clients
    ensures |ConnectedSet(clients[fd := c])| - |ConnectedSet(clients)|
         == (if c.state == Connected then 1 else 0) - (if clients[fd].state == Connected then 1 else 0)
  {
    var others := ConnectedSet(clients) - {fd};
    assert ConnectedSet(clients[fd := c]) == if c.state == Connected then others + {fd} else others;
    assert ConnectedSet(clients) == if clients[fd].state == Connected then others + {fd} else others;
  }

  lemma ConnectedRemove(clients: map<int, Client>, fd: int)
    requires fd in clients
    ensures |ConnectedSet(clients - {fd})| - |ConnectedSet(clients)| == if clients[fd].state == Connected then -1 else 0
  {
    var others := ConnectedSet(clients) - {fd};
    assert ConnectedSet(clients - {fd}) == others;
    assert ConnectedSet(clients) == if clients[fd].state == Connected then others + {fd} else others;
  }

  lemma MapSizes(clients: map<int, Client>, fd: int, c: Client)
    ensures |clients - {fd}| <= |clients|
    ensures |clients[fd := c]| == if fd in clients then |clients| else |clients| + 1
  {
    assert (clients - {fd}).Keys == clients.Keys - {fd};
    assert clients[fd := c].Keys == clients.Keys + {fd};
    assert |clients.Keys - {fd}| <= |clients.Keys|;
    assert |clients.Keys + {fd}| == |clients.Keys| + if fd in clients.Keys then 0 else 1;
  }

  lemma SettleKeeps(s: Server, fd: int, o: Out)
    requires Inv(s) && fd in s.clients && ClientInv(o.client)
    requires !o.alive ==> o.client.state != Connected
    requires s.clients[fd].state == Closing ==> o.client.state == Closing
    requires s.clients[fd].state == Connected ==> o.client.state != Handshaking
    ensures Inv(Settle(s, fd, o))
  {
    hide ClientInv;
    MapSizes(s.clients, fd, o.client);
    ConnectedUpdate(s.clients, fd, o.client);
    ConnectedRemove(s.clients, fd);
    hide ConnectedSet;
  }

  lemma RemoveKeeps(s: Server, fd: int)
    requires Inv(s)
    ensures Inv(RemoveClient(s, fd))
  {
    hide ClientInv;
    if fd in s.clients {
      MapSizes(s.clients, fd, NEW_CLIENT);
      ConnectedRemove(s.clients, fd);
      hide ConnectedSet;
    }
  }

  lemma BroadcastClientKeeps(c: Client, text: seq<byte>, os: seq<SendResult>)
    requires ClientInv(c)
    ensures ClientInv(BroadcastClient(c, text, os)) && BroadcastClient(c, text, os).state == c.state
  {
    hide ClientInv, SendFrame;
    if c.state == Connected { SendFrameKeeps(c, TextFrame(text), os); }
  }

  lemma BroadcastKeeps(s: Server, text: seq<byte>, scripts: map<int, seq<SendResult>>)
    requires Inv(s)
    ensures Inv(Step(s, Broadcast(text, scripts)))
  {
    hide ClientInv, BroadcastClient, Script;
    var t := map fd | fd in s.clients :: BroadcastClient(s.clients[fd], text, Script(scripts, fd));
    forall fd | fd in s.clients ensures ClientInv(t[fd]) && t[fd].state == s.clients[fd].state {
      BroadcastClientKeeps(s.clients[fd], text, Script(scripts, fd));
    }
    assert t.Keys == s.clients.Keys;
    assert ConnectedSet(t) == ConnectedSet(s.clients);
    hide ConnectedSet;
  }

  lemma NewClientInv()
    ensures ClientInv(NEW_CLIENT)
  {
    assert EncodeAll([]) == [];
  }

  /** Every step from a good state leads to a good state. */
  lemma StepKeeps(s: Server, e: Event)
    requires Inv(s) && Enabled(s, e)
    ensures Inv(Step(s, e))
  {
    hide ClientInv, Process, Flush, ConnectedSet;
    match e
    case Accept(fd) => AcceptKeeps(s, fd);
    case Read(fd, chunks, ending, os) => ReadKeeps(s, fd, chunks, ending, os);
    case Write(fd, os) => if fd in s.clients { WriteKeeps(s, fd, os); }
    case Remove(fd) => RemoveKeeps(s, fd);
    case Broadcast(text, scripts) => BroadcastKeeps(s, text, scripts);
    case Stop => StartInv();
  }

  lemma StartInv()
    ensures Inv(START)
  {
    assert ConnectedSet(map[]) == {};
  }

  lemma AcceptKeeps(s: Server, fd: int)
    requires Inv(s) && fd !in s.clients
    ensures Inv(Step(s, Accept(fd)))
  {
    NewClientInv();
    hide ClientInv;
    MapSizes(s.clients, fd, NEW_CLIENT);
    assert ConnectedSet(s.clients[fd := NEW_CLIENT]) == ConnectedSet(s.clients);
  }

  lemma ReceivedKeeps(c: Client, chunks: seq<seq<byte>>)
    requires ClientInv(c) && |c.recv + Flatten(chunks)| <= MAX_RECV
    ensures ClientInv(Fed(c, chunks))
  {
    hide EncodeAll, IsSubsequence, ServerFrame, Response;
  }

  lemma ReadKeeps(s: Server, fd: int, chunks: seq<seq<byte>>, ending: Ending, os: seq<SendResult>)
    requires Inv(s)
    ensures Inv(ReadStep(s, fd, chunks, ending, os))
  {
    RemoveKeeps(s, fd);
    hide ConnectedSet, Process;
    if fd in s.clients {
      var c := s.clients[fd];
      var got := Receive(c.recv, chunks);
      if got.Some? && ending != HungUp {
        hide ClientInv, Receive;
        assert ClientInv(c);
        ReceivedKeeps(c, chunks);
        ProcessKeeps(Fed(c, chunks), os);
        SettleKeeps(s, fd, Process(Fed(c, chunks), os));
      }
    }
  }

  lemma WriteKeeps(s: Server, fd: int, os: seq<SendResult>)
    requires Inv(s) && fd in s.clients
    ensures Inv(Settle(s, fd, Flush(s.clients[fd], os)))
  {
    hide ConnectedSet, Flush, EncodeAll, IsSubsequence, ServerFrame, Response;
    var c := s.clients[fd];
    assert ClientInv(c);
    var o := Flush(c, os);
    assert ClientInv(o.client);
    hide ClientInv;
    SettleKeeps(s, fd, o);
  }

  lemma {:induction false} RunKeeps(events: seq<Event>)
    requires Possible(events)
    ensures Inv(Run(events))
  {
    if events == [] {
      StartInv();
    } else {
      var n := |events| - 1;
      var before := events[..n];
      hide Inv, Step, Enabled;
      assert forall i :: 0 <= i < n ==> before[..i] == events[..i] && before[i] == events[i];
      RunKeeps(before);
      assert Enabled(Run(events[..n]), events[n]);
      StepKeeps(Run(before), events[n]);
    }
  }

  // ---- What the invariants mean ---------------------------------------------------------------

  /** The read finds a Close frame in the buffer of a client that is connected, or becomes so in this read. */
  ghost predicate MeetsClose(c: Client, os: seq<SendResult>) {
    var o := if c.state == Handshaking then Greet(c, os) else Out(c, true, os, false);
    o.alive && o.client.state == Connected && !CloseFree(Drain(o.client.recv).frames)
  }

  ghost predicate ReadsClose(s: Server, e: Event) {
    && e.Read? && e.fd in s.clients && e.ending != HungUp
    && var got := Receive(s.clients[e.fd].recv, e.chunks);
      got.Some? && MeetsClose(Fed(s.clients[e.fd], e.chunks), e.os)
  }

  /** How many reads have met a Close frame since the server was last stopped. */
  ghost function CloseReads(events: seq<Event>): nat {
    if events == [] then 0
    else
      var n := |events| - 1;
      if events[n].Stop? then 0
      else CloseReads(events[..n]) + (if ReadsClose(Run(events[..n]), events[n]) then 1 else 0)
  }

  lemma ProcessCloses(c: Client, os: seq<SendResult>)
    requires c.state != Closing
    ensures Process(c, os).client.state == Closing <==> MeetsClose(c, os)
  {
    hide DrainClient, Greet, Drain, CloseFree;
    var o := if c.state == Handshaking then Greet(c, os) else Out(c, true, os, false);
    if o.alive && o.client.state == Connected { DrainCloses(o.client, o.os); }
  }

  /** `closings` grows by one exactly in the steps that meet a Close frame. */
  lemma StepCloses(s: Server, e: Event)
    ensures Step(s, e).closings == if e.Stop? then 0 else s.closings + (if ReadsClose(s, e) then 1 else 0)
  {
    hide Process, MeetsClose, Flush, BroadcastClient;
    if e.Read? && e.fd in s.clients {
      var got := Receive(s.clients[e.fd].recv, e.chunks);
      if got.Some? && s.clients[e.fd].state != Closing { ProcessCloses(Fed(s.clients[e.fd], e.chunks), e.os); }
      if got.Some? && s.clients[e.fd].state == Closing { ClosingMeetsNone(Fed(s.clients[e.fd], e.chunks), e.os); }
    }
  }

  lemma ClosingMeetsNone(c: Client, os: seq<SendResult>)
    requires c.state == Closing
    ensures !MeetsClose(c, os)
  {}

  lemma {:induction false} ClosingsCount(events: seq<Event>)
    ensures Run(events).closings == CloseReads(events)
  {
    hide Step, ReadsClose;
    if events != [] {
      var n := |events| - 1;
      ClosingsCount(events[..n]);
      StepCloses(Run(events[..n]), events[n]);
    }
  }

  /** In every run: the resource limits hold, and the published count is the number of connected clients plus
      the number of reads that met a Close frame since the last stop. So it never undercounts, and it is exact
      exactly when there was no such read. */
  lemma CountAndLimits(events: seq<Event>)
    requires Possible(events)
    ensures var s := Run(events);
            && |s.clients| <= 16
            && (forall fd :: fd in s.clients ==> |s.clients[fd].recv| <= 8192 && |s.clients[fd].send| <= 65536)
            && s.count == |ConnectedSet(s.clients)| + CloseReads(events)
            && (s.count == |ConnectedSet(s.clients)| <==> CloseReads(events) == 0)
  {
    hide Run, ConnectedSet, Delivers, CloseReads;
    RunKeeps(events);
    ClosingsCount(events);
    assert forall fd :: fd in Run(events).clients ==> ClientInv(Run(events).clients[fd]);
  }

  /** A Close frame as a client sends it, masked. */
  function CloseBytes(key: Key32): seq<byte> { ClientBytes(Frame(true, CLOSE, true, key, [])) }

  /** From every reachable state with a connected client between frames: reading a Close frame from it and then
      removing it leaves the count above the number of connected clients, whatever the socket does. */
  lemma CloseOvercounts(events: seq<Event>, fd: int, key: Key32, os: seq<SendResult>)
    requires Possible(events) && fd in Run(events).clients && !Run(events).failed
    requires Run(events).clients[fd].state == Connected && Run(events).clients[fd].recv == []
    ensures var more := events + [Read(fd, [CloseBytes(key)], NoMoreData, os), Remove(fd)];
            var t := Run(more);
            Possible(more) && fd !in t.clients && t.count > |ConnectedSet(t.clients)|
  {
    hide ConnectedSet, Step, Inv, CloseBytes, ReadsClose;
    var s := Run(events);
    var e, r := Read(fd, [CloseBytes(key)], NoMoreData, os), Remove(fd);
    var es, more := events + [e], events + [e, r];
    assert es[..|events|] == events && more[..|es|] == es && more == es + [r];
    CloseIsRead(s, fd, key, os);
    PossibleMore(events, e);
    PossibleMore(es, r);
    assert CloseReads(es) == CloseReads(events) + 1;
    assert CloseReads(more) >= CloseReads(es);
    CountAndLimits(more);
    RemovedGone(Run(es), fd);
  }

  lemma RemovedGone(s: Server, fd: int)
    ensures fd !in Step(s, Remove(fd)).clients
  {}

  lemma CloseIsRead(s: Server, fd: int, key: Key32, os: seq<SendResult>)
    requires fd in s.clients && !s.failed && s.clients[fd].state == Connected && s.clients[fd].recv == []
    ensures var e := Read(fd, [CloseBytes(key)], NoMoreData, os); ReadsClose(s, e) && !Step(s, e).failed
  {
    hide DecodeSpec, ClientBytes, Flush;
    var f := Frame(true, CLOSE, true, key, []);
    var bytes := CloseBytes(key);
    MaskedFrameDecodes(f, []);
    assert bytes + [] == bytes;
    CloseSize(key);
    assert [] + bytes == bytes;
    var c := Fed(s.clients[fd], [bytes]);
    OneChunk(bytes);
    assert c.recv == bytes;
    assert bytes[|bytes|..] == [];
    EmptyNeedsMore();
    assert Drain(bytes).frames == [f] + Drain([]).frames && f in Drain(bytes).frames;
    assert !DrainClient(c, os).failed;
  }

  lemma OneChunk(bytes: seq<byte>)
    requires |bytes| <= MAX_RECV
    ensures Receive([], [bytes]) == Some(bytes) && Flatten([bytes]) == bytes
  {
    assert [] + bytes == bytes && bytes + [] == bytes && [bytes][1..] == [];
  }

  lemma CloseSize(key: Key32)
    ensures 0 < |CloseBytes(key)| <= 14
  {}

  /** End to end: in every run, what has reached a client's socket after the handshake response decodes
      to whole frames, a prefix of the kept ones, which are a subsequence of the frames queued; and
      nothing kept is lost, since the bytes not yet written are still waiting. */
  lemma DeliveredInOrder(events: seq<Event>, fd: int)
    requires Possible(events) && fd in Run(events).clients
    ensures var c := Run(events).clients[fd];
            && c.wire + c.send == c.greeting + EncodeAll(c.accepted)
            && IsSubsequence(c.accepted, c.offered)
            && (c.greeting <= c.wire ==> DrainsTo(c.accepted, c.wire[|c.greeting|..]))
            && (c.state == Handshaking ==> c.wire == [])
            && (c.state != Handshaking ==> exists key :: c.greeting == Response(key))
  {
    RunKeeps(events);
    var c := Run(events).clients[fd];
    hide Run, ConnectedSet;
    assert ClientInv(c);
    if c.greeting <= c.wire { PeerSeesWholeFrames(c); }
    hide IsSubsequence, Response, DrainsTo, ServerFrame;
    assert EncodeAll([]) == [];
  }

  /** A client of `s` as the step leaves it, whether or not it stays in the map. */
  function ClientAfter(s: Server, e: Event, fd: int): Client
    requires fd in s.clients
  {
    var c := s.clients[fd];
    match e
    case Read(k, chunks, ending, os) =>
      if k == fd && Receive(c.recv, chunks).Some? && ending != HungUp then Process(Fed(c, chunks), os).client else c
    case Write(k, os) => if k == fd then Flush(c, os).client else c
    case Broadcast(text, scripts) => BroadcastClient(c, text, Script(scripts, fd))
    case _ => c
  }

  lemma ClientAfterStays(s: Server, e: Event, fd: int)
    requires fd in s.clients && Enabled(s, e)
    ensures fd in Step(s, e).clients ==> Step(s, e).clients[fd] == ClientAfter(s, e, fd)
  {
    hide Process, Flush, BroadcastClient, Receive;
  }

  lemma ClientAfterKeeps(s: Server, e: Event, fd: int)
    requires Inv(s) && fd in s.clients
    ensures ClientInv(ClientAfter(s, e, fd))
  {
    hide Process, Flush, BroadcastClient, Receive, EncodeAll, IsSubsequence, ServerFrame, Response, ConnectedSet;
    var c := s.clients[fd];
    assert ClientInv(c);
    match e
    case Read(k, chunks, ending, os) =>
      var got := Receive(c.recv, chunks);
      if got.Some? {
        hide ClientInv;
        assert |c.recv| <= MAX_RECV by { InvBounds(c); }
        ReceivedKeeps(c, chunks);
        ProcessKeeps(Fed(c, chunks), os);
      }
    case Broadcast(text, scripts) => BroadcastClientKeeps(c, text, Script(scripts, fd));
    case _ =>
  }

  lemma InvBounds(c: Client)
    requires ClientInv(c)
    ensures |c.recv| <= MAX_RECV
  {}

  /** The same at the moment a client leaves: in the step that removes it too, what it sent is the greeting and whole
      frames in order, up to the one its socket cut. */
  lemma DeliveredAtLeaving(events: seq<Event>, e: Event, fd: int)
    requires Possible(events) && Enabled(Run(events), e) && fd in Run(events).clients
    ensures var c := ClientAfter(Run(events), e, fd);
            && c.wire + c.send == c.greeting + EncodeAll(c.accepted)
            && IsSubsequence(c.accepted, c.offered)
            && (c.greeting <= c.wire ==> DrainsTo(c.accepted, c.wire[|c.greeting|..]))
            && (fd in Step(Run(events), e).clients ==> Step(Run(events), e).clients[fd] == c)
  {
    hide Run, Inv, ClientAfter, Step, Enabled, IsSubsequence, DrainsTo, EncodeAll, Response, ServerFrame;
    RunKeeps(events);
    var c := ClientAfter(Run(events), e, fd);
    ClientAfterKeeps(Run(events), e, fd);
    ClientAfterStays(Run(events), e, fd);
    if c.greeting <= c.wire { PeerSeesWholeFrames(c); }
  }

  // ---- Receiving ------------------------------------------------------------------------------

  ghost predicate AllStream(s: Server) { !s.failed ==> forall fd :: fd in s.clients ==> Streams(s.clients[fd]) }

  lemma StepStreams(s: Server, e: Event)
    requires AllStream(s) && !s.failed
    ensures AllStream(Step(s, e))
  {
    hide Process, Flush, SendFrame, Drain, Find, Receive;
    if e.Read? && e.fd in s.clients { ProcessStreams(s.clients[e.fd], Flatten(e.chunks), e.os); }
  }

  lemma {:induction false} RunStreams(events: seq<Event>)
    requires Possible(events)
    ensures AllStream(Run(events))
  {
    hide AllStream, Step;
    if events == [] {
      StartStreams();
    } else {
      var n := |events| - 1;
      var before := events[..n];
      assert forall i :: 0 <= i < n ==> before[..i] == events[..i] && before[i] == events[i];
      RunStreams(before);
      assert Enabled(Run(events[..n]), events[n]);
      StepStreams(Run(before), events[n]);
    }
  }

  lemma StartStreams()
    ensures AllStream(START)
  {}

  /** In every run, however the bytes were split over reads and whatever came between them: a connected client has
      handled exactly the frames of all it received after the handshake, decoded whole, none of them a Close, and
      holds exactly the incomplete rest. */
  lemma HandledWhole(events: seq<Event>, fd: int)
    requires Possible(events) && !Run(events).failed
    requires fd in Run(events).clients && Run(events).clients[fd].state == Connected
    ensures var c := Run(events).clients[fd];
            var end := Find(c.received, BLANK_LINE, 0);
            && end.Some? && Drain(c.received[end.value + 4..]) == Drained(c.handled, c.recv, false)
            && CloseFree(c.handled)
  {
    hide Run, Drain, Find;
    RunStreams(events);
  }

  lemma PossibleMore(events: seq<Event>, e: Event)
    requires Possible(events) && Enabled(Run(events), e)
    ensures Possible(events + [e]) && Run(events + [e]) == Step(Run(events), e)
  {
    hide Step, Enabled;
    var more := events + [e];
    assert more[..|events|] == events;
    forall i | 0 <= i < |more| ensures Enabled(Run(more[..i]), more[i]) {
      if i < |events| { assert more[..i] == events[..i] && more[i] == events[i]; }
    }
  }

  // ---- The server object ----------------------------------------------------------------------

  method FlushSend(client: Client, script: seq<SendResult>) returns (o: Out)
    ensures o == Flush(client, script)
  {
    var c, os := client, script;
    while c.send != [] && os != []
      invariant Flush(c, os) == Flush(client, script)
      decreases |c.send|
    {
      if !os[0].Sent? { return Out(c, true, os[1..], false); }
      var n := SentBytes(os[0].n, |c.send|);
      c, os := c.(wire := c.wire + c.send[..n], send := c.send[n..]), os[1..];
    }
    if c.send != [] { return Out(c, true, os, false); }
    o := Out(c.(pending := false), c.state != Closing, os, false);
  }

  method QueueSend(client: Client, data: seq<byte>, script: seq<SendResult>) returns (o: Out)
    ensures o == Post(client, data, script)
  {
    hide Flush;
    if |client.send| + |data| > MAX_SEND { return Out(client, true, script, false); }
    var c := client.(send := client.send + data);
    o := Out(c, true, script, false);
    if !c.pending { o := FlushSend(c, script); }
    if o.alive && o.client.send != [] { o := o.(client := o.client.(pending := true)); }
  }

  method QueueFrame(client: Client, f: Frame, script: seq<SendResult>) returns (o: Out)
    requires |f.payload| < U64
    ensures o == SendFrame(client, f, script)
  {
    hide Post, EncodeSpec;
    var data := Encode(f);
    o := QueueSend(client, data, script);
    var kept := if |client.send| + |data| <= MAX_SEND then client.accepted + [f] else client.accepted;
    o := o.(client := o.client.(offered := client.offered + [f], accepted := kept));
  }

  method OnFrame(client: Client, f: Frame, script: seq<SendResult>) returns (o: Out)
    requires |f.payload| < U64
    ensures o == HandleFrame(client, f, script)
  {
    hide SendFrame;
    var c := client.(handled := client.handled + [f]);
    if f.opcode == PING {
      o := QueueFrame(c, Pong(f.payload), script);
    } else if f.opcode == CLOSE {
      o := QueueFrame(c, CLOSE_NORMAL, script);
      o := o.(client := o.client.(state := Closing));
    } else {
      o := Out(c, true, script, false);
    }
  }

  /** The frame loop of `process_client_data`. */
  method DrainBuffer(client: Client, script: seq<SendResult>) returns (o: Out)
    requires |client.recv| <= MAX_RECV
    ensures o == DrainClient(client, script)
  {
    hide HandleFrame, DecodeSpec;
    o := Out(client, true, script, false);
    while o.alive && o.client.recv != []
      invariant !o.failed && |o.client.recv| <= MAX_RECV
      invariant DrainClient(client, script) == if o.alive then DrainClient(o.client, o.os) else o
      decreases |o.client.recv|, o.alive
    {
      var r := Decode(o.client.recv);
      if r.TooLong? { return o.(failed := true); }
      if r.NeedMore? { break; }
      PayloadBound(o.client.recv);
      o := OnFrame(o.client.(recv := o.client.recv[r.consumed..]), r.frame, o.os);
    }
  }

  lemma PayloadBound(data: seq<byte>)
    requires |data| < U64 && DecodeSpec(data).Got?
    ensures |DecodeSpec(data).frame.payload| < U64
  {}

  /** The receive loop of a readable socket. */
  method ReceiveChunks(waiting: seq<byte>, chunks: seq<seq<byte>>) returns (got: Option<seq<byte>>)
    requires |waiting| <= MAX_RECV
    ensures got == Receive(waiting, chunks)
  {
    var recv, i := waiting, 0;
    while i < |chunks|
      invariant 0 <= i <= |chunks| && |recv| <= MAX_RECV
      invariant Receive(recv, chunks[i..]) == Receive(waiting, chunks)
    {
      assert chunks[i..][1..] == chunks[i + 1..];
      if |recv| + |chunks[i]| > MAX_RECV { return None; }
      recv := recv + chunks[i];
      i := i + 1;
    }
    got := Some(recv);
  }

  method ProcessClientData(client: Client, script: seq<SendResult>) returns (o: Out)
    requires |client.recv| <= MAX_RECV
    ensures o == Process(client, script)
  {
    hide DrainClient, Post, Response, Find, ParseRequest;
    o := Out(client, true, script, false);
    if client.state == Handshaking {
      var end := Find(client.recv, BLANK_LINE, 0);
      if end.Some? {
        var key := ParseRequest(client.recv);
        if key.None? { return Out(client, false, script, false); }
        var response := Response(key.value);
        o := QueueSend(client, response, script);
        var sent := if |client.send| + |response| <= MAX_SEND then response else [];
        o := o.(client := o.client.(state := Connected, recv := client.recv[end.value + 4..], greeting := sent));
      }
    }
    if o.alive && o.client.state == Connected {
      o := DrainBuffer(o.client, o.os);
    }
  }

  method BroadcastOne(client: Client, text: seq<byte>, script: seq<SendResult>) returns (c: Client)
    requires |text| < U64
    ensures c == BroadcastClient(client, text, script)
  {
    hide SendFrame;
    c := client;
    if client.state == Connected {
      var o := QueueFrame(client, TextFrame(text), script);
      c := o.client;
    }
  }

  /** The loop of `broadcast`, over the map in any order. */
  method BroadcastAll(clients: map<int, Client>, text: seq<byte>, scripts: map<int, seq<SendResult>>)
    returns (r: map<int, Client>)
    requires |text| < U64
    ensures r == map fd | fd in clients :: BroadcastClient(clients[fd], text, Script(scripts, fd))
  {
    r := map[];
    var todo := clients.Keys;
    while todo != {}
      invariant todo <= clients.Keys && r.Keys == clients.Keys - todo
      invariant forall fd :: fd in r ==> r[fd] == BroadcastClient(clients[fd], text, Script(scripts, fd))
      decreases |todo|
    {
      assert (forall x :: x !in todo) ==> todo == {};
      var fd :| fd in todo;
      var c := BroadcastOne(clients[fd], text, Script(scripts, fd));
      r := r[fd := c];
      todo := todo - {fd};
    }
  }

  class WebSocketServer {
    var clients: map<int, Client>
    var clientCount: int
    var failed: bool
    ghost var closings: nat

    ghost function View(): Server
      reads this
    {
      Server(clients, clientCount, closings, failed)
    }

    ghost predicate Valid()
      reads this
    {
      Inv(View()) && !failed
    }

    constructor ()
      ensures View() == START && Valid()
    {
      clients, clientCount, failed, closings := map[], 0, false, 0;
      StartInv();
    }

    method AcceptClient(fd: int)
      requires Valid() && fd !in clients
      modifies this
      ensures Inv(View()) && View() == Step(old(View()), Accept(fd))
    {
      StepKeeps(View(), Accept(fd));
      hide Inv;
      if |clients| >= MAX_CLIENTS { return; }
      clients := clients[fd := NEW_CLIENT];
    }

    method RemoveClientLocked(fd: int)
      modifies this
      ensures View() == RemoveClient(old(View()), fd)
    {
      if fd !in clients { return; }
      var wasConnected := clients[fd].state == Connected;
      clients := clients - {fd};
      if wasConnected { clientCount := clientCount - 1; }
    }

    /** Stores a client after an operation on it; the handshake and the removal keep the count. */
    method Store(fd: int, o: Out)
      requires fd in clients && (!o.alive ==> o.client.state != Connected)
      modifies this
      ensures View() == Settle(old(View()), fd, o)
    {
      if clients[fd].state == Handshaking && o.client.state != Handshaking { clientCount := clientCount + 1; }
      if clients[fd].state != Closing && o.client.state == Closing { closings := closings + 1; }
      failed := o.failed;
      clients := clients[fd := o.client];
      if !o.alive { RemoveClientLocked(fd); }
      assert !o.alive ==> clients == old(clients) - {fd};
    }

    method HandleClientRead(fd: int, chunks: seq<seq<byte>>, ending: Ending, os: seq<SendResult>)
      requires Valid()
      modifies this
      ensures Inv(View()) && View() == Step(old(View()), Read(fd, chunks, ending, os))
    {
      StepKeeps(View(), Read(fd, chunks, ending, os));
      if fd !in clients { return; }
      var c := clients[fd];
      assert ClientInv(c);
      hide Inv, ClientInv, Process, Settle, RemoveClient;
      var got := ReceiveChunks(c.recv, chunks);
      if got.None? || ending == HungUp {
        RemoveClientLocked(fd);
        return;
      }
      var o := ProcessClientData(Fed(c, chunks), os);
      Store(fd, o);
    }

    method HandleClientWrite(fd: int, os: seq<SendResult>)
      requires Valid()
      modifies this
      ensures Inv(View()) && View() == Step(old(View()), Write(fd, os))
    {
      StepKeeps(View(), Write(fd, os));
      hide Inv, Flush, Settle;
      if fd !in clients { return; }
      var o := FlushSend(clients[fd], os);
      Store(fd, o);
    }

    method BroadcastText(text: seq<byte>, scripts: map<int, seq<SendResult>>)
      requires Valid() && |text| < U64
      modifies this
      ensures Inv(View()) && View() == Step(old(View()), Broadcast(text, scripts))
    {
      StepKeeps(View(), Broadcast(text, scripts));
      hide Inv;
      clients := BroadcastAll(clients, text, scripts);
    }
  }
}
