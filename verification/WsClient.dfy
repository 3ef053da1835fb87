/** One client of the debug channel: its buffers, and what `queue_send`, `flush_send`,
    `handle_frame` and `process_client_data` do to them (daemon/debug/websocket_server.cpp). */
module WsClient {
  import opened Bytes
  import opened WsFrame
  import opened Handshake

  const MAX_RECV := 8192
  const MAX_SEND := 65536

  /** What one `send` call does; an exhausted script means the call would block. */
  datatype SendResult = Sent(n: nat) | WouldBlock | SendFailed

  datatype ClientState = Handshaking | Connected | Closing

  /** The fields of the source's `ClientData`, and what an observer would have noted: the bytes
      written to the socket, the handshake response, the frames offered to `queue_send`, those it
      kept, the bytes received and the frames handled. */
  datatype Client = Client(
    state: ClientState,
    recv: seq<byte>,
    send: seq<byte>,
    pending: bool,
    wire: seq<byte>,
    greeting: seq<byte>,
    offered: seq<Frame>,
    accepted: seq<Frame>,
    received: seq<byte>,
    handled: seq<Frame>)

  const NEW_CLIENT := Client(Handshaking, [], [], false, [], [], [], [], [], [])

  /** A client after an operation, whether it is still in the client map, the rest of the script,
      and whether decoding threw. */
  datatype Out = Out(client: Client, alive: bool, os: seq<SendResult>, failed: bool)

  // ---- Sending --------------------------------------------------------------------------------

  function SentBytes(n: nat, size: nat): (r: nat)
    requires size > 0
    ensures 1 <= r <= size
  {
    if n == 0 then 1 else if n > size then size else n
  }

  function Flush(c: Client, os: seq<SendResult>): (o: Out)
    ensures o.client == c.(send := o.client.send, wire := o.client.wire, pending := o.client.pending)
    ensures o.client.wire + o.client.send == c.wire + c.send
    ensures |o.client.send| <= |c.send| && !o.failed
    ensures !o.alive ==> c.state == Closing
    decreases |c.send|
  {
    if c.send == [] then Out(c.(pending := false), c.state != Closing, os, false)
    else if os == [] then Out(c, true, os, false)
    else if !os[0].Sent? then Out(c, true, os[1..], false)
    else
      var n := SentBytes(os[0].n, |c.send|);
      assert c.wire + c.send[..n] + c.send[n..] == c.wire + c.send;
      Flush(c.(send := c.send[n..], wire := c.wire + c.send[..n]), os[1..])
  }

  predicate Fits(c: Client, data: seq<byte>) { |c.send| + |data| <= MAX_SEND }

  /** `queue_send`: whole messages only, dropped when the buffer is too full. */
  function Post(c: Client, data: seq<byte>, os: seq<SendResult>): (o: Out)
    ensures o.client == c.(send := o.client.send, wire := o.client.wire, pending := o.client.pending)
    ensures o.client.wire + o.client.send == c.wire + c.send + (if Fits(c, data) then data else [])
    ensures |c.send| <= MAX_SEND ==> |o.client.send| <= MAX_SEND
    ensures !o.alive ==> c.state == Closing
    ensures !o.failed
  {
    if !Fits(c, data) then Out(c, true, os, false)
    else
      var c1 := c.(send := c.send + data);
      assert c1.wire + c1.send == c.wire + c.send + data;
      var o := if c.pending then Out(c1, true, os, false) else Flush(c1, os);
      if o.alive && o.client.send != [] then o.(client := o.client.(pending := true)) else o
  }

  predicate ServerFrame(f: Frame) {
    !f.masked && f.maskKey == 0 && |EncodeSpec(f)| <= MAX_SEND
  }

  function SendFrame(c: Client, f: Frame, os: seq<SendResult>): (o: Out)
    ensures o.client == c.(send := o.client.send, wire := o.client.wire, pending := o.client.pending,
                           offered := o.client.offered, accepted := o.client.accepted)
    ensures !o.alive ==> c.state == Closing
    ensures !o.failed
  {
    var data := EncodeSpec(f);
    var o := Post(c, data, os);
    o.(client := o.client.(offered := c.offered + [f],
                           accepted := if Fits(c, data) then c.accepted + [f] else c.accepted))
  }

  // ---- Receiving ------------------------------------------------------------------------------

  function Pong(payload: seq<byte>): Frame { Frame(true, PONG, false, 0, payload) }

  const CLOSE_NORMAL := Frame(true, CLOSE, false, 0, [3, 232])  // code 1000

  function HandleFrame(c: Client, f: Frame, os: seq<SendResult>): (o: Out)
    ensures o.client.recv == c.recv && o.client.greeting == c.greeting && o.client.received == c.received
    ensures o.client.handled == c.handled + [f]
    ensures o.client.state == if f.opcode == CLOSE then Closing else c.state
    ensures !o.alive ==> c.state == Closing
    ensures !o.failed
  {
    var c1 := c.(handled := c.handled + [f]);
    if f.opcode == PING then SendFrame(c1, Pong(f.payload), os)
    else if f.opcode == CLOSE then
      var o := SendFrame(c1, CLOSE_NORMAL, os);
      o.(client := o.client.(state := Closing))
    else Out(c1, true, os, false)
  }

  /** The drain loop. The source goes on with the buffer of a client it has just removed; the model
      stops there. */
  function DrainClient(c: Client, os: seq<SendResult>): (o: Out)
    ensures |o.client.recv| <= |c.recv| && o.client.greeting == c.greeting && o.client.received == c.received
    ensures o.client.state == c.state || o.client.state == Closing
    ensures !o.alive ==> o.client.state == Closing
    decreases |c.recv|
  {
    if c.recv == [] then Out(c, true, os, false)
    else match DecodeSpec(c.recv)
      case NeedMore => Out(c, true, os, false)
      case TooLong => Out(c, true, os, true)
      case Got(n, f) =>
        var o := HandleFrame(c.(recv := c.recv[n..]), f, os);
        if o.alive then DrainClient(o.client, o.os) else o
  }

  const BLANK_LINE: seq<byte> := CRLF + CRLF

  /** The handshake half of `process_client_data`; the client is dropped when the request is bad. */
  function Greet(c: Client, os: seq<SendResult>): (o: Out)
    requires c.state == Handshaking
    ensures |o.client.recv| <= |c.recv|
    ensures o.client.state != Closing && !o.failed
    ensures o.client.state == Connected ==> o.alive
  {
    var end := Find(c.recv, BLANK_LINE, 0);
    if end.None? then Out(c, true, os, false)
    else
      var key := ParseRequest(c.recv);
      if key.None? then Out(c, false, os, false)
      else
        var response := Response(key.value);
        var o := Post(c, response, os);
        o.(client := o.client.(state := Connected, recv := c.recv[end.value + 4..],
                               greeting := if Fits(c, response) then response else []))
  }

  function Process(c: Client, os: seq<SendResult>): (o: Out)
    ensures |o.client.recv| <= |c.recv|
    ensures !o.alive ==> o.client.state != Connected
    ensures c.state == Closing ==> o.client.state == Closing
    ensures c.state == Connected ==> o.client.state != Handshaking
  {
    var o := if c.state == Handshaking then Greet(c, os) else Out(c, true, os, false);
    if o.alive && o.client.state == Connected then DrainClient(o.client, o.os) else o
  }

  /** Appending what `recv` delivered, chunk by chunk; `None` when the buffer would overflow. */
  function Receive(recv: seq<byte>, chunks: seq<seq<byte>>): (r: Option<seq<byte>>)
    ensures r.Some? ==> r.value == recv + Flatten(chunks)
    ensures r.Some? && |recv| <= MAX_RECV ==> |r.value| <= MAX_RECV
    decreases |chunks|
  {
    if chunks == [] then Some(recv)
    else if |recv| + |chunks[0]| > MAX_RECV then None
    else
      assert recv + Flatten(chunks) == recv + chunks[0] + Flatten(chunks[1..]);
      Receive(recv + chunks[0], chunks[1..])
  }

  // ---- What a client keeps --------------------------------------------------------------------

  function EncodeAll(fs: seq<Frame>): seq<byte> {
    if fs == [] then [] else EncodeAll(fs[..|fs| - 1]) + EncodeSpec(fs[|fs| - 1])
  }

  /** Bytes written and bytes waiting are exactly the response and the kept frames, in order; the
      kept frames are among the offered ones, in order. */
  ghost predicate Delivers(c: Client) {
    && c.wire + c.send == c.greeting + EncodeAll(c.accepted)
    && IsSubsequence(c.accepted, c.offered)
    && (forall f :: f in c.accepted ==> ServerFrame(f))
    && (c.state == Handshaking ==> c.greeting == [] && c.accepted == [] && c.send == [])
    && (c.state != Handshaking ==> exists key :: c.greeting == Response(key))
  }

  ghost predicate Bounded(c: Client) {
    |c.recv| <= MAX_RECV && |c.send| <= MAX_SEND
  }

  ghost predicate ClientInv(c: Client) { Delivers(c) && Bounded(c) }

  lemma SendFrameKeeps(c: Client, f: Frame, os: seq<SendResult>)
    requires ClientInv(c) && c.state != Handshaking && !f.masked && f.maskKey == 0
    ensures ClientInv(SendFrame(c, f, os).client)
  {
    hide EncodeSpec, Response, IsSubsequence, EncodeAll, Post;
    var data := EncodeSpec(f);
    SubsequenceStep(c.accepted, c.offered, f);
    EncodeAllSnoc(c.accepted, f);
    var d := SendFrame(c, f, os).client;
    if Fits(c, data) {
      assert d.wire + d.send == c.greeting + (EncodeAll(c.accepted) + data);
    }
  }

  lemma EncodeAllSnoc(fs: seq<Frame>, f: Frame)
    ensures EncodeAll(fs + [f]) == EncodeAll(fs) + EncodeSpec(f)
  {
    hide EncodeSpec;
    assert (fs + [f])[..|fs|] == fs;
  }

  lemma HandleFrameKeeps(c: Client, f: Frame, os: seq<SendResult>)
    requires ClientInv(c) && c.state != Handshaking
    ensures ClientInv(HandleFrame(c, f, os).client)
  {
    hide SendFrame, EncodeSpec, Response, IsSubsequence, EncodeAll;
    var c1 := c.(handled := c.handled + [f]);
    if f.opcode == PING {
      SendFrameKeeps(c1, Pong(f.payload), os);
    } else if f.opcode == CLOSE {
      SendFrameKeeps(c1, CLOSE_NORMAL, os);
    }
  }

  lemma {:induction false} DrainClientKeeps(c: Client, os: seq<SendResult>)
    requires ClientInv(c) && c.state != Handshaking
    ensures ClientInv(DrainClient(c, os).client)
    decreases |c.recv|
  {
    hide HandleFrame, DecodeSpec, Response, IsSubsequence, EncodeAll, ServerFrame;
    if c.recv != [] && DecodeSpec(c.recv).Got? {
      var Got(n, f) := DecodeSpec(c.recv);
      var c1 := c.(recv := c.recv[n..]);
      HandleFrameKeeps(c1, f, os);
      var o := HandleFrame(c1, f, os);
      if o.alive { DrainClientKeeps(o.client, o.os); }
    }
  }

  /** One pass over the receive buffer keeps everything a client promises. */
  lemma ProcessKeeps(c: Client, os: seq<SendResult>)
    requires ClientInv(c)
    ensures ClientInv(Process(c, os).client)
  {
    hide DrainClient, Response, IsSubsequence, Post, Find, ParseRequest;
    var o := if c.state == Handshaking then Greet(c, os) else Out(c, true, os, false);
    if c.state == Handshaking && o.client.state == Connected {
      var response := o.client.greeting;
      assert EncodeAll([]) == [];
      assert Fits(c, Response(ParseRequest(c.recv).value));
      assert ClientInv(o.client);
    }
    hide EncodeAll, ServerFrame;
    if o.alive && o.client.state == Connected { DrainClientKeeps(o.client, o.os); }
  }

  // ---- What the peer sees ---------------------------------------------------------------------

  function EncodeList(fs: seq<Frame>): seq<byte> {
    if fs == [] then [] else EncodeSpec(fs[0]) + EncodeList(fs[1..])
  }

  lemma {:induction false} EncodeListSnoc(fs: seq<Frame>, f: Frame)
    ensures EncodeList(fs + [f]) == EncodeList(fs) + EncodeSpec(f)
  {
    hide EncodeSpec;
    if fs == [] {
      assert fs + [f] == [f] && [f][1..] == [];
      assert EncodeList([f]) == EncodeSpec(f) + EncodeList([]);
    } else {
      assert (fs + [f])[1..] == fs[1..] + [f];
      EncodeListSnoc(fs[1..], f);
    }
  }

  lemma {:induction false} EncodeAllIsList(fs: seq<Frame>)
    ensures EncodeAll(fs) == EncodeList(fs)
  {
    hide EncodeSpec;
    if fs != [] {
      EncodeAllIsList(fs[..|fs| - 1]);
      EncodeListSnoc(fs[..|fs| - 1], fs[|fs| - 1]);
      assert fs == fs[..|fs| - 1] + [fs[|fs| - 1]];
    }
  }

  /** `w` drains to the first frames of `fs`, and what is left is a proper prefix of the next one. */
  ghost predicate DrainsTo(fs: seq<Frame>, w: seq<byte>) {
    var d := Drain(w);
    && !d.failed && d.frames <= fs
    && (|d.frames| < |fs| ==> d.rest < EncodeSpec(fs[|d.frames|]))
    && (|d.frames| == |fs| ==> d.rest == [])
  }

  /** Any prefix of a stream of frames drains to a prefix of the frames. */
  lemma {:induction false} PrefixDrains(fs: seq<Frame>, w: seq<byte>)
    requires forall f :: f in fs ==> ServerFrame(f)
    requires w <= EncodeList(fs)
    ensures DrainsTo(fs, w)
    decreases |fs|
  {
    if fs == [] {
      EmptyNeedsMore();
    } else {
      var e := EncodeSpec(fs[0]);
      hide EncodeSpec, ServerFrame, DrainsTo;
      assert ServerFrame(fs[0]);
      if |w| < |e| {
        TornFrameWaits(fs, w);
      } else {
        assert w[..|e|] == e && w[|e|..] <= EncodeList(fs[1..]);
        assert forall f :: f in fs[1..] ==> f in fs;
        PrefixDrains(fs[1..], w[|e|..]);
        WholeFrameDrains(fs, w);
      }
    }
  }

  lemma TornFrameWaits(fs: seq<Frame>, w: seq<byte>)
    requires fs != [] && ServerFrame(fs[0]) && w < EncodeSpec(fs[0])
    ensures DrainsTo(fs, w)
  {
    var e := EncodeSpec(fs[0]);
    ShortPrefixDecodes(fs[0], e);
    ProperPrefixNeedsMore(e, |w|);
    hide EncodeSpec, DecodeSpec;
    assert w == e[..|w|];
  }

  lemma WholeFrameDrains(fs: seq<Frame>, w: seq<byte>)
    requires fs != [] && ServerFrame(fs[0]) && EncodeSpec(fs[0]) <= w
    requires DrainsTo(fs[1..], w[|EncodeSpec(fs[0])|..])
    ensures DrainsTo(fs, w)
  {
    ShortPrefixDecodes(fs[0], w);
    var n := |EncodeSpec(fs[0])|;
    hide EncodeSpec, DecodeSpec, ServerFrame;
    var d := Drain(w[n..]);
    DrainGot(w, n, fs[0]);
    hide Drain;
    assert fs == [fs[0]] + fs[1..];
  }

  lemma DrainGot(w: seq<byte>, n: nat, f: Frame)
    requires DecodeSpec(w) == Got(n, f)
    ensures n <= |w|
    ensures var d := Drain(w[n..]); Drain(w) == Drained([f] + d.frames, d.rest, d.failed)
  {
    hide DecodeSpec;
  }

  lemma ShortPrefixDecodes(f: Frame, w: seq<byte>)
    requires ServerFrame(f) && EncodeSpec(f) <= w
    ensures DecodeSpec(w) == Got(|EncodeSpec(f)|, f)
  {
    var e := EncodeSpec(f);
    EncodeDecode(f, w[|e|..]);
    hide DecodeSpec;
    assert e + w[|e|..] == w;
  }

  /** The peer's view: after the response, what it has received decodes to the first of the kept
      frames and never to a torn one. */
  lemma PeerSeesWholeFrames(c: Client)
    requires Delivers(c) && c.greeting <= c.wire
    ensures DrainsTo(c.accepted, c.wire[|c.greeting|..])
    ensures IsSubsequence(c.accepted, c.offered)
  {
    EncodeAllIsList(c.accepted);
    var w := c.wire[|c.greeting|..];
    hide EncodeSpec, IsSubsequence, Response, ServerFrame, EncodeAll, EncodeList;
    assert w + c.send == (c.wire + c.send)[|c.greeting|..] == EncodeList(c.accepted);
    PrefixDrains(c.accepted, w);
  }

  // ---- Chunking -------------------------------------------------------------------------------

  ghost predicate CloseFree(fs: seq<Frame>) { forall f :: f in fs ==> f.opcode != CLOSE }

  /** Without Close frames the drain loop handles exactly the frames of the buffer and stays
      connected. */
  lemma {:induction false} DrainClientHandles(c: Client, os: seq<SendResult>)
    requires c.state == Connected && CloseFree(Drain(c.recv).frames)
    ensures var o := DrainClient(c, os);
            var d := Drain(c.recv);
            && o.alive && o.client.state == Connected && o.failed == d.failed
            && o.client.recv == d.rest
            && o.client.handled == c.handled + d.frames
    decreases |c.recv|
  {
    hide HandleFrame, DecodeSpec, Drain, DrainClient;
    if DecodeSpec(c.recv).Got? {
      var Got(n, f) := DecodeSpec(c.recv);
      var c1 := c.(recv := c.recv[n..]);
      DrainTurn(c, os);
      assert f in Drain(c.recv).frames;
      var o := HandleFrame(c1, f, os);
      assert forall g :: g in Drain(c1.recv).frames ==> g in Drain(c.recv).frames;
      DrainClientHandles(o.client, o.os);
      assert c.handled + ([f] + Drain(c1.recv).frames) == c.handled + [f] + Drain(c1.recv).frames;
    } else {
      DrainIdle(c, os);
      assert c.handled + [] == c.handled;
    }
  }

  /** One turn of the drain loop, and of draining the bytes. */
  lemma DrainTurn(c: Client, os: seq<SendResult>)
    requires DecodeSpec(c.recv).Got?
    ensures var Got(n, f) := DecodeSpec(c.recv);
            var o, d := HandleFrame(c.(recv := c.recv[n..]), f, os), Drain(c.recv[n..]);
            && DrainClient(c, os) == (if o.alive then DrainClient(o.client, o.os) else o)
            && Drain(c.recv) == Drained([f] + d.frames, d.rest, d.failed)
  {
    hide HandleFrame, DecodeSpec;
    EmptyNeedsMore();
  }

  lemma DrainIdle(c: Client, os: seq<SendResult>)
    requires !DecodeSpec(c.recv).Got?
    ensures var failed := DecodeSpec(c.recv).TooLong?;
            DrainClient(c, os) == Out(c, true, os, failed) && Drain(c.recv) == Drained([], c.recv, failed)
  {
    hide HandleFrame, DecodeSpec;
    if c.recv == [] { EmptyNeedsMore(); }
  }

  /** The drain loop moves a connected client to Closing exactly when the buffer holds a Close frame. */
  lemma {:induction false} DrainCloses(c: Client, os: seq<SendResult>)
    requires c.state == Connected
    ensures DrainClient(c, os).client.state == Closing <==> !CloseFree(Drain(c.recv).frames)
    decreases |c.recv|
  {
    hide HandleFrame, DecodeSpec, Drain, DrainClient;
    if DecodeSpec(c.recv).Got? {
      var Got(n, f) := DecodeSpec(c.recv);
      var c1 := c.(recv := c.recv[n..]);
      DrainTurn(c, os);
      var more := Drain(c1.recv).frames;
      assert forall g :: g in [f] + more <==> g == f || g in more;
      var o := HandleFrame(c1, f, os);
      if f.opcode != CLOSE { DrainCloses(o.client, o.os); } else { DrainKeepsClosing(o.client, o.os); }
    } else {
      DrainIdle(c, os);
    }
  }

  lemma DrainKeepsClosing(c: Client, os: seq<SendResult>)
    requires c.state == Closing
    ensures DrainClient(c, os).client.state == Closing
  {
    hide DrainClient;
  }

  /** Before the handshake, everything received is waiting. After it, what was received past the first blank
      line decodes to exactly the frames handled and the bytes waiting. */
  ghost predicate Streams(c: Client) {
    && (c.state == Handshaking ==> c.recv == c.received && c.handled == [])
    && (c.state == Connected ==>
          var end := Find(c.received, BLANK_LINE, 0);
          && end.Some? && Drain(c.received[end.value + 4..]) == Drained(c.handled, c.recv, false)
          && CloseFree(c.handled))
  }

  lemma FindStable(a: seq<byte>, b: seq<byte>, needle: seq<byte>)
    requires Find(a, needle, 0).Some?
    ensures Find(a + b, needle, 0) == Find(a, needle, 0)
  {
    hide Find;
    var k := Find(a, needle, 0).value;
    assert (a + b)[k..k + |needle|] == a[k..k + |needle|];
    assert OccursAt(a + b, needle, k);
    var j := Find(a + b, needle, 0).value;
    assert (a + b)[j..j + |needle|] == a[j..j + |needle|];
    assert OccursAt(a, needle, j);
  }

  lemma DrainsStream(c: Client, os: seq<SendResult>, stream: seq<byte>, handled: seq<Frame>)
    requires c.state == Connected && c.handled == handled && CloseFree(handled)
    requires Drain(stream) == (var d := Drain(c.recv); d.(frames := handled + d.frames))
    ensures var o := DrainClient(c, os);
            !o.failed && o.client.state == Connected ==>
              Drain(stream) == Drained(o.client.handled, o.client.recv, false) && CloseFree(o.client.handled)
  {
    hide DrainClient, Drain;
    DrainCloses(c, os);
    if CloseFree(Drain(c.recv).frames) { DrainClientHandles(c, os); }
  }

  /** Reading more bytes, in whatever pieces, keeps the streams of a client. */
  lemma ProcessStreams(c: Client, more: seq<byte>, os: seq<SendResult>)
    requires Streams(c)
    ensures var o := Process(c.(recv := c.recv + more, received := c.received + more), os);
            !o.failed ==> Streams(o.client)
  {
    hide DrainClient, Drain, Find, ParseRequest, Response, Post, DecodeSpec;
    var d := c.(recv := c.recv + more, received := c.received + more);
    if c.state == Connected {
      FindStable(c.received, more, BLANK_LINE);
      var at := Find(c.received, BLANK_LINE, 0).value + 4;
      var stream := c.received[at..];
      assert d.received[at..] == stream + more;
      DrainAppend(stream, more);
      DrainsStream(d, os, stream + more, c.handled);
    } else if c.state == Handshaking {
      var o := Greet(d, os);
      if o.client.state == Connected {
        var at := Find(d.received, BLANK_LINE, 0).value + 4;
        var e := Drain(o.client.recv);
        assert [] + e.frames == e.frames;
        DrainsStream(o.client, o.os, d.received[at..], []);
      }
    }
  }

  lemma EmptyNeedsMore()
    ensures DecodeSpec([]) == NeedMore
  {}
}
