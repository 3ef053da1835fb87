/** What the debug server sends each client, and why it drops one (daemon/debug/websocket_server.cpp): the frames
    offered to a client, from the events and the frames it sent; when a frame is kept; when waiting bytes leave. */
module WsDelivery {
  import opened Bytes
  import opened WsFrame
  import opened WsClient
  import opened WsServer
  import opened Handshake

  // ---- What is offered ------------------------------------------------------------------------

  /** What the server answers a frame with: a Ping with a Pong of the same payload, a Close with a Close of
      code 1000. */
  function Reply(f: Frame): seq<Frame> {
    if f.opcode == PING then [Frame(true, PONG, false, 0, f.payload)]
    else if f.opcode == CLOSE then [Frame(true, CLOSE, false, 0, [3, 232])]
    else []
  }

  function Replies(fs: seq<Frame>): seq<Frame> {
    if fs == [] then [] else Replies(fs[..|fs| - 1]) + Reply(fs[|fs| - 1])
  }

  lemma {:induction false} RepliesAppend(a: seq<Frame>, b: seq<Frame>)
    ensures Replies(a + b) == Replies(a) + Replies(b)
    decreases |b|
  {
    hide Reply;
    if b == [] {
      assert a + b == a && Replies(a) + [] == Replies(a);
    } else {
      var n := |b| - 1;
      RepliesAppend(a, b[..n]);
      assert (a + b)[..|a| + n] == a + b[..n] && (a + b)[|a| + n] == b[n];
      assert Replies(a) + (Replies(b[..n]) + Reply(b[n])) == Replies(a) + Replies(b[..n]) + Reply(b[n]);
    }
  }

  /** From `c` to `d` the frames `fs` were handled, and just their replies offered. */
  ghost predicate Answers(c: Client, d: Client, fs: seq<Frame>) {
    d.handled == c.handled + fs && d.offered == c.offered + Replies(fs)
  }

  lemma AnswersNone(c: Client, d: Client)
    requires d.handled == c.handled && d.offered == c.offered
    ensures Answers(c, d, [])
  {
    assert Replies([]) == [];
    assert c.handled + [] == c.handled && c.offered + [] == c.offered;
  }

  lemma AnswersThen(c: Client, d: Client, e: Client, a: seq<Frame>, b: seq<Frame>)
    requires Answers(c, d, a) && Answers(d, e, b)
    ensures Answers(c, e, a + b)
  {
    RepliesAppend(a, b);
    hide Replies;
    assert c.handled + a + b == c.handled + (a + b);
    assert c.offered + Replies(a) + Replies(b) == c.offered + (Replies(a) + Replies(b));
  }

  lemma FrameAnswers(c: Client, f: Frame, os: seq<SendResult>)
    ensures Answers(c, HandleFrame(c, f, os).client, [f])
  {
    hide Post, EncodeSpec;
    assert [f][..0] == [] && Replies([]) == [];
    assert Replies([f]) == [] + Reply(f) == Reply(f);
    assert c.offered + [] == c.offered;
  }

  lemma {:induction false} DrainAnswers(c: Client, os: seq<SendResult>) returns (fs: seq<Frame>)
    ensures Answers(c, DrainClient(c, os).client, fs)
    decreases |c.recv|
  {
    hide HandleFrame, DecodeSpec, Answers;
    if c.recv != [] && DecodeSpec(c.recv).Got? {
      var Got(n, f) := DecodeSpec(c.recv);
      var c1 := c.(recv := c.recv[n..]);
      var o := HandleFrame(c1, f, os);
      FrameAnswers(c1, f, os);
      SameLogs(c, c1, o.client, [f]);
      fs := [f];
      if o.alive {
        var more := DrainAnswers(o.client, o.os);
        AnswersThen(c, o.client, DrainClient(o.client, o.os).client, [f], more);
        fs := [f] + more;
      }
    } else {
      AnswersNone(c, c);
      fs := [];
    }
  }

  lemma SameLogs(c: Client, c1: Client, d: Client, fs: seq<Frame>)
    requires c.handled == c1.handled && c.offered == c1.offered && Answers(c1, d, fs)
    ensures Answers(c, d, fs)
  {}

  lemma ProcessAnswers(c: Client, os: seq<SendResult>) returns (fs: seq<Frame>)
    ensures Answers(c, Process(c, os).client, fs)
  {
    hide DrainClient, Answers, Post, Find, ParseRequest, Response;
    var o := if c.state == Handshaking then Greet(c, os) else Out(c, true, os, false);
    AnswersNone(c, o.client);
    fs := [];
    if o.alive && o.client.state == Connected {
      fs := DrainAnswers(o.client, o.os);
      SameLogs(c, o.client, DrainClient(o.client, o.os).client, fs);
    }
  }

  /** What the last event offers a client: a broadcast its text, if the client is connected, and a read the replies to
      the frames handled in it. */
  ghost function OfferedBy(c: Client, e: Event, d: Client): seq<Frame> {
    if e.Broadcast? && c.state == Connected then [Frame(true, TEXT, false, 0, e.text)]
    else if e.Read? && c.handled <= d.handled then Replies(d.handled[|c.handled|..])
    else []
  }

  /** All that the events have offered the client of a descriptor since it was accepted. */
  ghost function Offers(events: seq<Event>, fd: int): seq<Frame> {
    if events == [] then []
    else
      var n := |events| - 1;
      var s, e, t := Run(events[..n]), events[n], Run(events);
      if fd !in s.clients || fd !in t.clients then []
      else Offers(events[..n], fd) + OfferedBy(s.clients[fd], e, t.clients[fd])
  }

  lemma StepOffers(s: Server, e: Event, fd: int)
    requires fd in s.clients && Enabled(s, e)
    ensures var c, d := s.clients[fd], ClientAfter(s, e, fd);
            d.offered == c.offered + OfferedBy(c, e, d) && c.handled <= d.handled
  {
    hide Process, Flush, Post, EncodeSpec, Receive, Replies;
    var c, d := s.clients[fd], ClientAfter(s, e, fd);
    assert Replies([]) == [] by { AnswersNone(c, c); NoReplies(); }
    assert c.handled[|c.handled|..] == [] && c.offered + [] == c.offered;
    if e.Read? && e.fd == fd && Receive(c.recv, e.chunks).Some? && e.ending != HungUp {
      var fs := ProcessAnswers(Fed(c, e.chunks), e.os);
      assert d.handled[|c.handled|..] == fs;
    }
  }

  lemma NoReplies()
    ensures Replies([]) == []
  {}

  /** In every run, for every client: what was offered to it is exactly a text frame for each broadcast made while it
      was connected, a Pong for each Ping handled and a Close for each Close handled, in that order. */
  lemma {:induction false} OfferedExactly(events: seq<Event>, fd: int)
    requires Possible(events) && fd in Run(events).clients
    ensures Run(events).clients[fd].offered == Offers(events, fd)
    decreases |events|
  {
    hide Step, OfferedBy, ClientAfter;
    if events != [] {
      var n := |events| - 1;
      var before, e := events[..n], events[n];
      PossiblePrefix(events);
      var s := Run(before);
      assert Run(events) == Step(s, e) && Enabled(s, e);
      if fd in s.clients {
        OfferedExactly(before, fd);
        ClientAfterStays(s, e, fd);
        StepOffers(s, e, fd);
      } else {
        NewOnly(s, e, fd);
      }
    }
  }

  lemma PossiblePrefix(events: seq<Event>)
    requires Possible(events) && events != []
    ensures var n := |events| - 1; Possible(events[..n]) && Enabled(Run(events[..n]), events[n])
  {
    hide Enabled, Run;
    var n := |events| - 1;
    var before := events[..n];
    forall i | 0 <= i < n ensures Enabled(Run(before[..i]), before[i]) {
      assert before[..i] == events[..i] && before[i] == events[i];
    }
  }

  lemma NewOnly(s: Server, e: Event, fd: int)
    requires fd !in s.clients && fd in Step(s, e).clients
    ensures e == Accept(fd) && Step(s, e).clients[fd] == NEW_CLIENT
  {
    hide Process, Flush, BroadcastClient, Receive;
  }

  /** The step that removes a client offers it the same. */
  lemma OfferedAtLeaving(events: seq<Event>, e: Event, fd: int)
    requires Possible(events) && Enabled(Run(events), e) && fd in Run(events).clients
    ensures var c, d := Run(events).clients[fd], ClientAfter(Run(events), e, fd);
            d.offered == Offers(events, fd) + OfferedBy(c, e, d)
  {
    hide Run, OfferedBy, ClientAfter, Enabled;
    OfferedExactly(events, fd);
    StepOffers(Run(events), e, fd);
  }

  // ---- What is kept ---------------------------------------------------------------------------

  /** A broadcast reaches every connected client that has room for it. */
  lemma BroadcastReaches(s: Server, text: seq<byte>, scripts: map<int, seq<SendResult>>, fd: int)
    requires fd in s.clients && s.clients[fd].state == Connected
    ensures var c, f := s.clients[fd], Frame(true, TEXT, false, 0, text);
            var t := Step(s, Broadcast(text, scripts));
            && fd in t.clients && t.clients[fd].offered == c.offered + [f]
            && t.clients[fd].accepted == c.accepted + (if |c.send| + |EncodeSpec(f)| <= 65536 then [f] else [])
  {
    hide Post, EncodeSpec;
    var c := s.clients[fd];
    assert c.accepted + [] == c.accepted;
  }

  /** All offered frames were kept, or they are more than the buffer holds. */
  ghost predicate KeepsAll(c: Client) {
    c.accepted == c.offered || |c.greeting| + |EncodeAll(c.offered)| > 65536
  }

  lemma SendKeepsAll(c: Client, f: Frame, os: seq<SendResult>)
    requires KeepsAll(c) && Delivers(c)
    ensures KeepsAll(SendFrame(c, f, os).client)
  {
    hide Post, EncodeSpec, EncodeAll, IsSubsequence, Response, ServerFrame;
    EncodeAllSnoc(c.offered, f);
    if c.accepted == c.offered {
      assert |c.wire + c.send| == |c.wire| + |c.send|;
      assert |c.greeting + EncodeAll(c.accepted)| == |c.greeting| + |EncodeAll(c.accepted)|;
    }
  }

  lemma FrameKeepsAll(c: Client, f: Frame, os: seq<SendResult>)
    requires KeepsAll(c) && Delivers(c)
    ensures KeepsAll(HandleFrame(c, f, os).client)
  {
    hide SendFrame, EncodeAll, IsSubsequence, Response, ServerFrame;
    var c1 := c.(handled := c.handled + [f]);
    if f.opcode == PING { SendKeepsAll(c1, Pong(f.payload), os); }
    if f.opcode == CLOSE { SendKeepsAll(c1, CLOSE_NORMAL, os); }
  }

  lemma {:induction false} DrainKeepsAll(c: Client, os: seq<SendResult>)
    requires KeepsAll(c) && ClientInv(c) && c.state != Handshaking
    ensures KeepsAll(DrainClient(c, os).client)
    decreases |c.recv|
  {
    hide HandleFrame, DecodeSpec, EncodeAll, IsSubsequence, Response, ServerFrame;
    if c.recv != [] && DecodeSpec(c.recv).Got? {
      var Got(n, f) := DecodeSpec(c.recv);
      var c1 := c.(recv := c.recv[n..]);
      FrameKeepsAll(c1, f, os);
      HandleFrameKeeps(c1, f, os);
      var o := HandleFrame(c1, f, os);
      if o.alive { DrainKeepsAll(o.client, o.os); }
    }
  }

  lemma ProcessKeepsAll(c: Client, os: seq<SendResult>)
    requires KeepsAll(c) && ClientInv(c) && (c.state == Handshaking ==> c.offered == [])
    ensures KeepsAll(Process(c, os).client)
  {
    hide DrainClient, Response, IsSubsequence, Post, Find, ParseRequest;
    var o := if c.state == Handshaking then Greet(c, os) else Out(c, true, os, false);
    if o.alive && o.client.state == Connected {
      GreetKeeps(c, os);
      hide EncodeAll, ServerFrame;
      DrainKeepsAll(o.client, o.os);
    }
  }

  lemma GreetKeeps(c: Client, os: seq<SendResult>)
    requires ClientInv(c)
    ensures c.state == Handshaking ==> ClientInv(Greet(c, os).client)
  {
    hide Response, IsSubsequence, Post, Find, ParseRequest;
    if c.state == Handshaking && Greet(c, os).client.state == Connected {
      assert EncodeAll([]) == [];
      assert Fits(c, Response(ParseRequest(c.recv).value));
    }
  }

  ghost predicate AllKept(s: Server) {
    forall fd :: fd in s.clients ==>
      KeepsAll(s.clients[fd]) && (s.clients[fd].state == Handshaking ==> s.clients[fd].offered == [])
  }

  lemma StepKeepsAll(s: Server, e: Event, fd: int)
    requires Inv(s) && AllKept(s) && Enabled(s, e) && fd in s.clients
    ensures var d := ClientAfter(s, e, fd); KeepsAll(d) && (d.state == Handshaking ==> d.offered == [])
  {
    hide Process, Flush, SendFrame, Receive, EncodeAll, IsSubsequence, Response, ServerFrame, ConnectedSet;
    var c := s.clients[fd];
    assert ClientInv(c);
    match e
    case Read(k, chunks, ending, os) =>
      if Receive(c.recv, chunks).Some? {
        ReceivedKeeps(c, chunks);
        ProcessKeepsAll(Fed(c, chunks), os);
        StaysUnoffered(Fed(c, chunks), os);
      }
    case Broadcast(text, scripts) =>
      if c.state == Connected { SendKeepsAll(c, TextFrame(text), Script(scripts, fd)); }
    case _ =>
  }

  lemma StaysUnoffered(c: Client, os: seq<SendResult>)
    ensures var d := Process(c, os).client; d.state == Handshaking ==> c.state == Handshaking && d.offered == c.offered
  {
    hide DrainClient, Response, Post, Find, ParseRequest;
  }

  lemma {:induction false} RunKeepsAll(events: seq<Event>)
    requires Possible(events)
    ensures AllKept(Run(events))
    decreases |events|
  {
    hide Step, KeepsAll, ClientAfter, Inv, Enabled;
    if events != [] {
      var n := |events| - 1;
      PossiblePrefix(events);
      var s, e := Run(events[..n]), events[n];
      RunKeepsAll(events[..n]);
      RunKeeps(events[..n]);
      forall fd | fd in Run(events).clients
        ensures var d := Run(events).clients[fd]; KeepsAll(d) && (d.state == Handshaking ==> d.offered == [])
      {
        if fd in s.clients {
          StepKeepsAll(s, e, fd);
          ClientAfterStays(s, e, fd);
        } else {
          NewOnly(s, e, fd);
          NewKeepsAll();
        }
      }
    }
  }

  lemma NewKeepsAll()
    ensures KeepsAll(NEW_CLIENT)
  {}

  /** In every run, nothing is dropped for a client for which all that was offered, with the greeting, is no more than
      the buffer holds. */
  lemma NothingDropped(events: seq<Event>, fd: int)
    requires Possible(events) && fd in Run(events).clients
    requires var c := Run(events).clients[fd]; |c.greeting| + |EncodeAll(c.offered)| <= 65536
    ensures Run(events).clients[fd].accepted == Offers(events, fd)
  {
    hide Run, EncodeAll, Offers;
    RunKeepsAll(events);
    OfferedExactly(events, fd);
  }

  // ---- When waiting bytes leave ---------------------------------------------------------------

  /** The socket takes something at each of the next `n` calls. */
  predicate Willing(os: seq<SendResult>, n: nat) { |os| >= n && forall i :: 0 <= i < n ==> os[i].Sent? }

  lemma {:induction false} FlushSendsAll(c: Client, os: seq<SendResult>)
    requires Willing(os, |c.send|)
    ensures var o := Flush(c, os); o.client.send == [] && o.client.wire == c.wire + c.send
    decreases |c.send|
  {
    if c.send == [] {
      assert c.wire + c.send == c.wire;
    } else {
      var n := SentBytes(os[0].n, |c.send|);
      FlushSendsAll(c.(send := c.send[n..], wire := c.wire + c.send[..n]), os[1..]);
      assert c.wire + c.send[..n] + c.send[n..] == c.wire + c.send;
    }
  }

  /** Bytes wait exactly where the server has asked to be told that the socket can be written. */
  ghost predicate Watched(c: Client) { c.pending <==> c.send != [] }

  lemma {:induction false} FlushWatched(c: Client, os: seq<SendResult>)
    requires c.send != [] ==> c.pending
    ensures Watched(Flush(c, os).client)
    decreases |c.send|
  {
    if c.send != [] && os != [] && os[0].Sent? {
      var n := SentBytes(os[0].n, |c.send|);
      FlushWatched(c.(send := c.send[n..], wire := c.wire + c.send[..n]), os[1..]);
    }
  }

  lemma {:induction false} FlushPending(c: Client, os: seq<SendResult>)
    ensures var o := Flush(c, os);
            && (o.client.send == [] ==> !o.client.pending)
            && (o.client.send != [] ==> o.alive && o.client.pending == c.pending)
    decreases |c.send|
  {
    if c.send != [] && os != [] && os[0].Sent? {
      var n := SentBytes(os[0].n, |c.send|);
      FlushPending(c.(send := c.send[n..], wire := c.wire + c.send[..n]), os[1..]);
    }
  }

  lemma PostWatched(c: Client, data: seq<byte>, os: seq<SendResult>)
    requires Watched(c)
    ensures Watched(Post(c, data, os).client)
  {
    hide Flush;
    if Fits(c, data) && !c.pending { FlushPending(c.(send := c.send + data), os); }
  }

  lemma SendWatched(c: Client, f: Frame, os: seq<SendResult>)
    requires Watched(c)
    ensures Watched(SendFrame(c, f, os).client)
  {
    hide Post, EncodeSpec;
    PostWatched(c, EncodeSpec(f), os);
  }

  lemma {:induction false} DrainWatched(c: Client, os: seq<SendResult>)
    requires Watched(c)
    ensures Watched(DrainClient(c, os).client)
    decreases |c.recv|
  {
    hide SendFrame, DecodeSpec;
    if c.recv != [] && DecodeSpec(c.recv).Got? {
      var Got(n, f) := DecodeSpec(c.recv);
      var c1 := c.(recv := c.recv[n..]);
      var c2 := c1.(handled := c.handled + [f]);
      SendWatched(c2, Pong(f.payload), os);
      SendWatched(c2, CLOSE_NORMAL, os);
      var o := HandleFrame(c1, f, os);
      if o.alive { DrainWatched(o.client, o.os); }
    }
  }

  lemma ProcessWatched(c: Client, os: seq<SendResult>)
    requires Watched(c)
    ensures Watched(Process(c, os).client)
  {
    hide DrainClient, Post, Find, ParseRequest, Response;
    var o := if c.state == Handshaking then Greet(c, os) else Out(c, true, os, false);
    if c.state == Handshaking && ParseRequest(c.recv).Some? {
      PostWatched(c, Response(ParseRequest(c.recv).value), os);
    }
    if o.alive && o.client.state == Connected { DrainWatched(o.client, o.os); }
  }

  lemma StepWatched(s: Server, e: Event, fd: int)
    requires fd in s.clients && Watched(s.clients[fd])
    ensures Watched(ClientAfter(s, e, fd))
  {
    hide Process, Flush, SendFrame, Receive;
    var c := s.clients[fd];
    match e
    case Read(k, chunks, ending, os) => ProcessWatched(Fed(c, chunks), os);
    case Write(k, os) => FlushWatched(c, os);
    case Broadcast(text, scripts) => SendWatched(c, TextFrame(text), Script(scripts, fd));
    case _ =>
  }

  /** In every run, bytes wait for a client exactly when the server watches its socket for writing. */
  lemma {:induction false} WaitingIsWatched(events: seq<Event>, fd: int)
    requires Possible(events) && fd in Run(events).clients
    ensures Run(events).clients[fd].pending <==> Run(events).clients[fd].send != []
    decreases |events|
  {
    hide Step, ClientAfter, Enabled;
    if events != [] {
      var n := |events| - 1;
      PossiblePrefix(events);
      var s, e := Run(events[..n]), events[n];
      if fd in s.clients {
        WaitingIsWatched(events[..n], fd);
        StepWatched(s, e, fd);
        ClientAfterStays(s, e, fd);
      } else {
        NewOnly(s, e, fd);
      }
    }
  }

  /** In every run, once its socket takes what waits, a client has been sent the greeting and all kept frames, whole. */
  lemma WriteDeliversAll(events: seq<Event>, fd: int, os: seq<SendResult>)
    requires Possible(events) && !Run(events).failed && fd in Run(events).clients
    requires Willing(os, |Run(events).clients[fd].send|)
    ensures var c := ClientAfter(Run(events), Write(fd, os), fd); c.wire == c.greeting + EncodeAll(c.accepted)
  {
    hide Run, Inv, EncodeAll, IsSubsequence, Response, ServerFrame, Flush, DrainsTo;
    FlushSendsAll(Run(events).clients[fd], os);
    DeliveredAtLeaving(events, Write(fd, os), fd);
    var c := ClientAfter(Run(events), Write(fd, os), fd);
    assert c.wire + [] == c.wire;
  }

  // ---- Connecting and closing -----------------------------------------------------------------

  /** The bytes received by the read that completed the request held the key, and were answered. */
  ghost predicate Greeted(c: Client, k: nat, key: seq<byte>) {
    && k <= |c.received| && Find(c.received[..k], BLANK_LINE, 0).Some?
    && ParseRequest(c.received[..k]) == Some(key) && c.greeting == Response(key)
  }

  /** A client waits for the request as long as there is no blank line; then it is greeted; it is closing once it has
      handled a Close; and it has handled the first of the frames it sent. */
  ghost predicate Progresses(c: Client) {
    var end := Find(c.received, BLANK_LINE, 0);
    && (c.state == Handshaking <==> end.None?)
    && (c.state != Handshaking ==> exists k, key :: Greeted(c, k, key))
    && (c.state == Closing <==> !CloseFree(c.handled))
    && (end.None? ==> c.handled == [])
    && (end.Some? ==> c.handled <= Drain(c.received[end.value + 4..]).frames)
  }

  /** The drain loop handles the first of the frames in the buffer, and is closing if a Close is among them. */
  lemma {:induction false} DrainHandlesFirst(c: Client, os: seq<SendResult>)
    requires c.state == Closing <==> !CloseFree(c.handled)
    requires c.state != Handshaking
    ensures var d := DrainClient(c, os).client;
            && c.handled <= d.handled <= c.handled + Drain(c.recv).frames
            && (d.state == Closing <==> !CloseFree(d.handled)) && d.state != Handshaking
    decreases |c.recv|
  {
    hide HandleFrame, DecodeSpec, Drain, DrainClient;
    if DecodeSpec(c.recv).Got? {
      var Got(n, f) := DecodeSpec(c.recv);
      DrainTurn(c, os);
      var c1 := c.(recv := c.recv[n..]);
      var o := HandleFrame(c1, f, os);
      assert forall g :: g in c.handled + [f] <==> g in c.handled || g == f;
      var more := Drain(c.recv[n..]).frames;
      assert c.handled + ([f] + more) == c.handled + [f] + more;
      if o.alive { DrainHandlesFirst(o.client, o.os); }
    } else {
      DrainIdle(c, os);
      assert c.handled + [] == c.handled;
    }
  }

  lemma GreetedKept(c: Client, d: Client, k: nat, key: seq<byte>)
    requires Greeted(c, k, key) && c.received <= d.received && d.greeting == c.greeting
    ensures Greeted(d, k, key) && Find(c.received, BLANK_LINE, 0).Some?
    ensures Find(d.received, BLANK_LINE, 0) == Find(c.received, BLANK_LINE, 0)
  {
    hide Find, ParseRequest, Response;
    assert d.received[..k] == c.received[..k];
    FindStable(c.received[..k], c.received[k..], BLANK_LINE);
    assert c.received[..k] + c.received[k..] == c.received;
    FindStable(c.received, d.received[|c.received|..], BLANK_LINE);
    assert c.received + d.received[|c.received|..] == d.received;
  }

  lemma FramesGrow(a: seq<byte>, b: seq<byte>)
    ensures Drain(a).frames <= Drain(a + b).frames
  {
    hide Drain;
    DrainAppend(a, b);
  }

  /** A client that has been greeted, after more bytes. */
  lemma GreetedProgresses(c: Client, more: seq<byte>, os: seq<SendResult>)
    requires Progresses(c) && Streams(c) && c.state != Handshaking
    ensures Progresses(Process(c.(recv := c.recv + more, received := c.received + more), os).client)
  {
    hide DrainClient, Drain, Find, ParseRequest, Response;
    var d := c.(recv := c.recv + more, received := c.received + more);
    var o := Process(d, os).client;
    var k, key :| Greeted(c, k, key);
    GreetedKept(c, d, k, key);
    GreetedKept(c, o, k, key);
    var at := Find(c.received, BLANK_LINE, 0).value + 4;
    var stream := c.received[at..];
    assert d.received[at..] == stream + more;
    FramesGrow(stream, more);
    if c.state == Connected {
      DrainHandlesFirst(d, os);
      DrainAppend(stream, more);
      assert o.handled <= Drain(stream + more).frames;
    }
  }

  lemma RequestProgresses(c: Client, more: seq<byte>, os: seq<SendResult>)
    requires Progresses(c) && Streams(c) && c.state == Handshaking && c.send == []
    ensures var o := Process(c.(recv := c.recv + more, received := c.received + more), os);
            o.alive || o.client.state != Handshaking ==> Progresses(o.client)
  {
    hide DrainClient, Drain, Find, ParseRequest, Response, Post;
    var d := c.(recv := c.recv + more, received := c.received + more);
    var g := Greet(d, os);
    if g.client.state == Connected {
      var o := Process(d, os).client;
      assert d.received[..|d.received|] == d.received;
      assert Greeted(g.client, |d.received|, ParseRequest(d.recv).value);
      GreetedKept(g.client, o, |d.received|, ParseRequest(d.recv).value);
      DrainHandlesFirst(g.client, g.os);
      assert [] + Drain(g.client.recv).frames == Drain(g.client.recv).frames;
    }
  }

  ghost predicate AllProgress(s: Server) {
    !s.failed ==> forall fd :: fd in s.clients ==> Progresses(s.clients[fd])
  }

  lemma StepProgresses(s: Server, e: Event, fd: int)
    requires Inv(s) && AllStream(s) && AllProgress(s) && Enabled(s, e) && fd in s.clients && fd in Step(s, e).clients
    ensures Progresses(Step(s, e).clients[fd])
  {
    hide Process, Flush, SendFrame, Receive, EncodeAll, IsSubsequence, Response, ServerFrame, ConnectedSet, Find, Drain;
    hide ParseRequest;
    var c := s.clients[fd];
    assert ClientInv(c) && Streams(c);
    if e.Read? && e.fd == fd {
      var more := Flatten(e.chunks);
      assert Fed(c, e.chunks) == c.(recv := c.recv + more, received := c.received + more);
      hide Streams;
      if c.state == Handshaking { RequestProgresses(c, more, e.os); } else { GreetedProgresses(c, more, e.os); }
    } else {
      hide Streams;
      ClientAfterStays(s, e, fd);
      var d := ClientAfter(s, e, fd);
      assert d.state == c.state && d.received == c.received && d.handled == c.handled && d.greeting == c.greeting;
      if c.state != Handshaking {
        var k, key :| Greeted(c, k, key);
        assert Greeted(d, k, key);
      }
    }
  }

  /** In every run that has not failed, for every client: it waits as long as no blank line has come; then it has been
      greeted for the key in the bytes received by then; it has handled the first of the frames it sent, and is closing
      exactly when one of them is a Close. */
  lemma {:induction false} ClientProgress(events: seq<Event>)
    requires Possible(events)
    ensures AllProgress(Run(events))
    decreases |events|
  {
    hide Step, Progresses, Inv, Enabled, AllStream;
    if events != [] {
      var n := |events| - 1;
      PossiblePrefix(events);
      var s, e := Run(events[..n]), events[n];
      assert !s.failed by { NotFailed(s, e); }
      ClientProgress(events[..n]);
      RunKeeps(events[..n]);
      RunStreams(events[..n]);
      forall fd | fd in Run(events).clients ensures Progresses(Run(events).clients[fd]) {
        if fd in s.clients {
          StepProgresses(s, e, fd);
        } else {
          NewOnly(s, e, fd);
          NewProgresses();
        }
      }
    }
  }

  lemma NotFailed(s: Server, e: Event)
    requires Enabled(s, e)
    ensures !s.failed
  {}

  lemma NewProgresses()
    ensures Progresses(NEW_CLIENT)
  {}

  // ---- Coming and going -----------------------------------------------------------------------

  lemma {:induction false} ReceiveIff(recv: seq<byte>, chunks: seq<seq<byte>>)
    requires |recv| <= 8192
    ensures Receive(recv, chunks).Some? <==> |recv| + |Flatten(chunks)| <= 8192
    decreases |chunks|
  {
    if chunks != [] && |recv| + |chunks[0]| <= 8192 { ReceiveIff(recv + chunks[0], chunks[1..]); }
  }

  /** The request is complete and has no key. */
  ghost predicate BadRequest(c: Client, chunks: seq<seq<byte>>) {
    var all := c.recv + Flatten(chunks);
    c.state == Handshaking && Find(all, BLANK_LINE, 0).Some? && ParseRequest(all).None?
  }

  /** What ends a connection at once. */
  ghost predicate Dismisses(c: Client, e: Event, fd: int) {
    || e.Stop? || e == Remove(fd)
    || (e.Read? && e.fd == fd
        && (e.ending == HungUp || |c.recv| + |Flatten(e.chunks)| > 8192 || BadRequest(c, e.chunks)))
  }

  /** In every run, a client comes with a connection accepted while there are fewer than 16, and goes when its
      connection ends, it sends too much or a bad request, or, once it is closing, when nothing waits to be sent. */
  lemma ComesAndGoes(events: seq<Event>, e: Event, fd: int)
    requires Possible(events) && Enabled(Run(events), e)
    ensures var s, t := Run(events), Step(Run(events), e);
            && (fd !in s.clients ==> (fd in t.clients <==> e == Accept(fd) && |s.clients| < 16))
            && (fd in s.clients && Dismisses(s.clients[fd], e, fd) ==> fd !in t.clients)
            && (fd in s.clients && fd !in t.clients && !Dismisses(s.clients[fd], e, fd) ==>
                  ClientAfter(s, e, fd).state == Closing && ClientAfter(s, e, fd).send == [])
            && (fd in s.clients && e.Write? && e.fd == fd && s.clients[fd].state == Closing ==>
                  (fd !in t.clients <==> ClientAfter(s, e, fd).send == []))
  {
    hide Run, Step, Dismisses, ClientAfter, ClientInv, Enabled, ConnectedSet;
    RunKeeps(events);
    var s := Run(events);
    if fd in s.clients {
      assert ClientInv(s.clients[fd]);
      InvBounds(s.clients[fd]);
      StepGoes(s, e, fd);
    } else {
      StepComes(s, e, fd);
    }
  }

  lemma StepComes(s: Server, e: Event, fd: int)
    requires fd !in s.clients
    ensures fd in Step(s, e).clients <==> e == Accept(fd) && |s.clients| < 16
  {
    hide Process, Flush, BroadcastClient, Receive;
  }

  lemma StepGoes(s: Server, e: Event, fd: int)
    requires fd in s.clients && |s.clients[fd].recv| <= 8192
    ensures var c, d, t := s.clients[fd], ClientAfter(s, e, fd), Step(s, e);
            && (Dismisses(c, e, fd) ==> fd !in t.clients)
            && (fd !in t.clients && !Dismisses(c, e, fd) ==> d.state == Closing && d.send == [])
            && (e.Write? && e.fd == fd && c.state == Closing ==> (fd !in t.clients <==> d.send == []))
  {
    hide Process, Flush, BroadcastClient, Receive, Find, ParseRequest;
    var c := s.clients[fd];
    match e
    case Read(k, chunks, _, os) =>
      ReceiveIff(c.recv, chunks);
      ProcessLeaves(Fed(c, chunks), os);
    case Write(k, os) => FlushLeaves(c, os);
    case _ =>
  }

  lemma {:induction false} FlushLeaves(c: Client, os: seq<SendResult>)
    ensures var o := Flush(c, os); !o.alive <==> c.state == Closing && o.client.send == []
    decreases |c.send|
  {
    if c.send != [] && os != [] && os[0].Sent? {
      var n := SentBytes(os[0].n, |c.send|);
      FlushLeaves(c.(send := c.send[n..], wire := c.wire + c.send[..n]), os[1..]);
    }
  }

  lemma SendLeaves(c: Client, f: Frame, os: seq<SendResult>)
    ensures var o := SendFrame(c, f, os); !o.alive ==> c.state == Closing && o.client.send == []
  {
    hide Flush, EncodeSpec;
    FlushLeaves(c.(send := c.send + EncodeSpec(f)), os);
  }

  lemma {:induction false} DrainLeaves(c: Client, os: seq<SendResult>)
    ensures var o := DrainClient(c, os); !o.alive ==> o.client.state == Closing && o.client.send == []
    decreases |c.recv|
  {
    hide SendFrame, DecodeSpec;
    if c.recv != [] && DecodeSpec(c.recv).Got? {
      var Got(n, f) := DecodeSpec(c.recv);
      var c1 := c.(recv := c.recv[n..]);
      SendLeaves(c1.(handled := c.handled + [f]), Pong(f.payload), os);
      SendLeaves(c1.(handled := c.handled + [f]), CLOSE_NORMAL, os);
      var o := HandleFrame(c1, f, os);
      if o.alive { DrainLeaves(o.client, o.os); }
    }
  }

  lemma ProcessLeaves(c: Client, os: seq<SendResult>)
    ensures var o := Process(c, os);
            var bad := c.state == Handshaking && Find(c.recv, BLANK_LINE, 0).Some? && ParseRequest(c.recv).None?;
            if bad then !o.alive else !o.alive ==> o.client.state == Closing && o.client.send == []
  {
    hide DrainClient, Post, Find, ParseRequest, Response;
    var o := if c.state == Handshaking then Greet(c, os) else Out(c, true, os, false);
    if o.alive && o.client.state == Connected { DrainLeaves(o.client, o.os); }
  }
}
