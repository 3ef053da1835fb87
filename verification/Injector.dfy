/** The injector object: a bounded event buffer in front of the device, and the gestures written through it
    (daemon/input/input_injector.cpp and .h). */
module Injector {
  import opened Touch
  import opened TouchProtocol

  const MAX_EVENTS := 76

  datatype Outcome = Done | NotInitialized | InvalidArgument | NotSupported | Failed

  const ACTION_DOWN := 0
  const ACTION_UP := 1
  const ACTION_MOVE := 2

  // ---- Multi-touch ----------------------------------------------------------------------------

  datatype Touches = Touches(xs: seq<int>, ys: seq<int>, actions: seq<int>)

  predicate Matched(t: Touches) { |t.xs| == |t.ys| == |t.actions| }

  function MapPoint(info: Info, x: int, y: int, feel: (int, int)): Point {
    PointAt(Mapped(info.minX, info.maxX, x), Mapped(info.minY, info.maxY, y), feel)
  }

  /** The tracking id of the next contact after the first `n` points. */
  function NextId(t: Touches, id: int, n: nat): int
    requires n <= |t.actions|
  {
    if n == 0 then id else NextId(t, id, n - 1) + (if t.actions[n - 1] == ACTION_DOWN then 1 else 0)
  }

  function Emitted(slot: int, p: Point, action: int, id: int): (es: seq<Event>)
    ensures |es| <= if slot == 0 then 7 else 6
  {
    if action == ACTION_DOWN then Down(slot, p, id)
    else if action == ACTION_UP then Up(slot)
    else if action == ACTION_MOVE then Move(slot, p)
    else []
  }

  /** The events of the first `n` points, one slot each. */
  function MultiEvents(info: Info, t: Touches, feel: Feel, id: int, n: nat): (es: seq<Event>)
    requires Matched(t) && n <= |t.xs|
    ensures |es| <= if n == 0 then 0 else 6 * n + 1
  {
    if n == 0 then []
    else
      var p := MapPoint(info, t.xs[n - 1], t.ys[n - 1], feel(n - 1));
      MultiEvents(info, t, feel, id, n - 1) + Emitted(n - 1, p, t.actions[n - 1], NextId(t, id, n - 1))
  }

  /** What becomes of one slot. */
  function Touched(c: Contact, p: Point, action: int, id: int): Contact {
    if action == ACTION_DOWN then Contact(id, p.x, p.y, p.pressure, p.major)
    else if action == ACTION_UP then c.(id := -1)
    else if action == ACTION_MOVE then Contact(c.id, p.x, p.y, p.pressure, p.major)
    else c
  }

  lemma EmittedRead(k: Reader, slot: int, p: Point, action: int, id: int)
    ensures var r := Read(k, Emitted(slot, p, action, id));
            && At(r, slot) == Touched(At(k, slot), p, action, id)
            && forall n :: n != slot ==> At(r, n) == At(k, n)
  {
    hide Read, Down, Up, Move;
    ReadDown(k, slot, p, id);
    ReadUp(k, slot);
    ReadMove(k, slot, p);
    NothingRead(k);
  }

  /** Each point of a multi-touch call drives its own slot, and nothing else changes. */
  lemma {:induction false} MultiRead(k: Reader, info: Info, t: Touches, feel: Feel, id: int, n: nat)
    requires Matched(t) && n <= |t.xs|
    ensures var r := Read(k, MultiEvents(info, t, feel, id, n));
            && (forall i :: 0 <= i < n ==>
                  var p := MapPoint(info, t.xs[i], t.ys[i], feel(i));
                  At(r, i) == Touched(At(k, i), p, t.actions[i], NextId(t, id, i)))
            && (forall i :: i < 0 || i >= n ==> At(r, i) == At(k, i))
  {
    hide Read, Emitted, Touched, NextId, MapPoint, At;
    if n == 0 {
      NothingRead(k);
    } else {
      MultiRead(k, info, t, feel, id, n - 1);
      var front := MultiEvents(info, t, feel, id, n - 1);
      var p := MapPoint(info, t.xs[n - 1], t.ys[n - 1], feel(n - 1));
      var last := Emitted(n - 1, p, t.actions[n - 1], NextId(t, id, n - 1));
      ReadAppend(k, front, last);
      EmittedRead(Read(k, front), n - 1, p, t.actions[n - 1], NextId(t, id, n - 1));
    }
  }

  lemma {:induction false} IdsApart(t: Touches, id: int, i: nat, j: nat)
    requires i < j <= |t.actions|
    ensures id <= NextId(t, id, i) <= NextId(t, id, j)
    ensures t.actions[i] == ACTION_DOWN ==> NextId(t, id, i) < NextId(t, id, j)
    decreases j
  {
    if j > i + 1 { IdsApart(t, id, i, j - 1); } else if i > 0 { IdsApart(t, id, i - 1, i); }
  }

  /** Read from any slots: a finger put down or moved is at its mapped point, one put down has a new id, one lifted is
      gone, and no two fingers put down have the same id. */
  lemma MultiLands(k: Reader, info: Info, t: Touches, feel: Feel, id: int, i: nat, j: nat)
    requires Matched(t) && i < |t.xs| && j < |t.xs|
    ensures var r := Read(k, MultiEvents(info, t, feel, id, |t.xs|));
            && (t.actions[i] == ACTION_DOWN || t.actions[i] == ACTION_MOVE ==>
                  && At(r, i).x == Mapped(info.minX, info.maxX, t.xs[i])
                  && At(r, i).y == Mapped(info.minY, info.maxY, t.ys[i])
                  && At(r, i).pressure == feel(i).0 && At(r, i).major == feel(i).1)
            && (t.actions[i] == ACTION_MOVE ==> At(r, i).id == At(k, i).id)
            && (t.actions[i] == ACTION_UP ==> At(r, i) == At(k, i).(id := -1))
            && (t.actions[i] == ACTION_DOWN ==> At(r, i).id >= id)
            && (i < j && t.actions[i] == ACTION_DOWN && t.actions[j] == ACTION_DOWN ==> At(r, i).id < At(r, j).id)
  {
    hide Read, MultiEvents, At, NextId, Mapped;
    MultiRead(k, info, t, feel, id, |t.xs|);
    IdsApart(t, id, i, |t.xs|);
    if i < j { IdsApart(t, id, i, j); }
  }

  lemma Regroup(a: seq<Event>, b: seq<Event>, c: seq<Event>)
    ensures (a + b) + c == a + (b + c)
  {}

  // ---- The object -----------------------------------------------------------------------------

  class InputInjector {
    const info: Info
    const initialized: bool
    const ready: bool
    /** Whether each write to the device succeeds. */
    const writeOk: nat -> bool
    const buffer: array<Event>
    var count: nat
    var nextId: int
    var writes: nat
    /** What the device has received. */
    var sent: seq<Event>

    ghost predicate Valid()
      reads this
    {
      buffer.Length == MAX_EVENTS && count <= MAX_EVENTS && nextId >= 0
    }

    ghost function Buffered(): seq<Event>
      requires Valid()
      reads this, buffer
    {
      buffer[..count]
    }

    constructor (info: Info, initialized: bool, ready: bool, writeOk: nat -> bool)
      ensures Valid() && fresh(buffer) && this.info == info && this.writeOk == writeOk
      ensures this.initialized == initialized && this.ready == ready
      ensures count == 0 && nextId == 0x464C && writes == 0 && sent == []
    {
      this.info, this.initialized, this.ready, this.writeOk := info, initialized, ready, writeOk;
      buffer := new Event[MAX_EVENTS](_ => SynReport);
      count, nextId, writes, sent := 0, 0x464C, 0, [];
    }

    /** The next `n` writes succeed. */
    ghost predicate Writable(from: nat, n: nat) { ready && forall i :: from <= i < from + n ==> writeOk(i) }

    /** Events beyond the capacity are dropped. */
    method AddEvent(e: Event)
      requires Valid()
      modifies this`count, buffer
      ensures Valid()
      ensures Buffered() == if old(count) < MAX_EVENTS then old(Buffered()) + [e] else old(Buffered())
    {
      if count >= MAX_EVENTS { return; }
      buffer[count] := e;
      count := count + 1;
      assert buffer[..count] == buffer[..count - 1] + [e];
    }

    method AddEvents(es: seq<Event>)
      requires Valid() && count + |es| <= MAX_EVENTS
      modifies this`count, buffer
      ensures Valid() && Buffered() == old(Buffered()) + es
    {
      for i := 0 to |es|
        invariant Valid() && count == old(count) + i
        invariant Buffered() == old(Buffered()) + es[..i]
      {
        AddEvent(es[i]);
        assert es[..i + 1] == es[..i] + [es[i]];
      }
      assert es[..|es|] == es;
    }

    method SyncAndFlush() returns (ok: bool)
      requires Valid()
      modifies this`count, this`writes, this`sent, buffer
      ensures Valid() && count == 0 && writes == old(writes) + 1 && ok == Writable(old(writes), 1)
      ensures ok ==> sent == old(sent) + (old(Buffered()) + if old(count) < MAX_EVENTS then [SynReport] else [])
    {
      AddEvent(SynReport);
      ok := ready && writeOk(writes);
      if ok { sent := sent + buffer[..count]; }
      writes := writes + 1;
      count := 0;
    }

    /** One report: the given events, alone. */
    method Report(es: seq<Event>) returns (ok: bool)
      requires Valid() && |es| < MAX_EVENTS
      modifies this`count, this`writes, this`sent, buffer
      ensures Valid() && count == 0 && writes == old(writes) + 1 && ok == Writable(old(writes), 1)
      ensures ok ==> sent == old(sent) + (es + [SynReport])
    {
      count := 0;
      AddEvents(es);
      assert Buffered() == es;
      ok := SyncAndFlush();
    }

    method DoTap(x: int, y: int, duration: int, feel: Feel) returns (r: Outcome)
      requires Valid()
      modifies this, buffer
      ensures Valid() && nextId == old(nextId) + (if ready then 1 else 0)
      ensures r == Done <==> Writable(old(writes), FrameCount(duration, 1) + 1)
      ensures r == Done ==>
        var mx, my := Mapped(info.minX, info.maxX, x), Mapped(info.minY, info.maxY, y);
        && sent == old(sent) + Gesture(old(nextId), TapPoints(mx, my, feel, FrameCount(duration, 1)))
        && forall k :: AllFree(k) ==> Tapped(Frames(k, sent[|old(sent)|..]), old(nextId), mx, my)
    {
      hide Down, Move, Up, Mapped, Gesture, GestureTo, PointAt, Tapped, AllFree, Frames;
      if !ready { return NotInitialized; }
      var id := nextId;
      nextId := nextId + 1;
      var mx, my := Mapped(info.minX, info.maxX, x), Mapped(info.minY, info.maxY, y);
      var frames := FrameCount(duration, 1);
      ghost var points := TapPoints(mx, my, feel, frames);
      var ok := Report(Down(0, PointAt(mx, my, feel(0)), id));
      if !ok { return Failed; }
      GestureStarts(id, points);
      for i := 1 to frames
        invariant Valid() && nextId == id + 1
        invariant writes == old(writes) + i && Writable(old(writes), i)
        invariant sent == old(sent) + GestureTo(id, points, i)
      {
        ok := Report(Move(0, PointAt(mx, my, feel(i))));
        if !ok { return Failed; }
        GestureMoves(id, points, i);
        Regroup(old(sent), GestureTo(id, points, i), Move(0, points[i]) + [SynReport]);
      }
      ok := Report(Up(0));
      if !ok { return Failed; }
      GestureEnds(id, points);
      Regroup(old(sent), GestureTo(id, points, frames), Up(0) + [SynReport]);
      assert sent[|old(sent)|..] == Gesture(id, points);
      forall k | AllFree(k) ensures Tapped(Frames(k, Gesture(id, points)), id, mx, my) {
        TapIsOneContact(k, id, mx, my, feel, frames);
      }
      r := Done;
    }

    method DoSwipe(x1: int, y1: int, x2: int, y2: int, duration: int, feel: Feel) returns (r: Outcome)
      requires Valid()
      modifies this, buffer
      ensures Valid() && nextId == old(nextId) + (if ready then 1 else 0)
      ensures r == Done <==> Writable(old(writes), FrameCount(duration, 2) + 2)
      ensures r == Done ==>
        var mx1, my1 := Mapped(info.minX, info.maxX, x1), Mapped(info.minY, info.maxY, y1);
        var mx2, my2 := Mapped(info.minX, info.maxX, x2), Mapped(info.minY, info.maxY, y2);
        && sent == old(sent) + Gesture(old(nextId), SwipePoints(mx1, my1, mx2, my2, feel, FrameCount(duration, 2)))
        && forall k :: AllFree(k) ==> Swiped(Frames(k, sent[|old(sent)|..]), old(nextId), mx1, my1, mx2, my2)
    {
      hide Down, Move, Up, Mapped, Between, Gesture, GestureTo, PointAt, Swiped, AllFree, Frames;
      if !ready { return NotInitialized; }
      var id := nextId;
      nextId := nextId + 1;
      var mx1, my1 := Mapped(info.minX, info.maxX, x1), Mapped(info.minY, info.maxY, y1);
      var mx2, my2 := Mapped(info.minX, info.maxX, x2), Mapped(info.minY, info.maxY, y2);
      var steps := FrameCount(duration, 2);
      ghost var points := SwipePoints(mx1, my1, mx2, my2, feel, steps);
      Ends(mx1, mx2, steps);
      Ends(my1, my2, steps);
      var ok := Report(Down(0, PointAt(mx1, my1, feel(0)), id));
      if !ok { return Failed; }
      GestureStarts(id, points);
      for i := 1 to steps + 1
        invariant Valid() && nextId == id + 1
        invariant writes == old(writes) + i && Writable(old(writes), i)
        invariant sent == old(sent) + GestureTo(id, points, i)
      {
        ok := Report(Move(0, PointAt(Between(mx1, mx2, i, steps), Between(my1, my2, i, steps), feel(i))));
        if !ok { return Failed; }
        GestureMoves(id, points, i);
        Regroup(old(sent), GestureTo(id, points, i), Move(0, points[i]) + [SynReport]);
      }
      ok := Report(Up(0));
      if !ok { return Failed; }
      GestureEnds(id, points);
      Regroup(old(sent), GestureTo(id, points, steps + 1), Up(0) + [SynReport]);
      assert sent[|old(sent)|..] == Gesture(id, points);
      forall k | AllFree(k) ensures Swiped(Frames(k, Gesture(id, points)), id, mx1, my1, mx2, my2) {
        SwipeIsOneContact(k, id, mx1, my1, mx2, my2, feel, steps);
      }
      r := Done;
    }

    /** `multi_touch`: the buffer never overflows, so every event of every point reaches the device. */
    method MultiTouch(t: Touches, feel: Feel) returns (r: Outcome)
      requires Valid()
      modifies this, buffer
      ensures Valid()
      ensures r == NotInitialized <==> !initialized
      ensures r == InvalidArgument <==> initialized && (|t.xs| == 0 || !Matched(t) || (ready && |t.xs| > 10))
      ensures r == Done <==> initialized && Matched(t) && 1 <= |t.xs| <= 10 && Writable(old(writes), 1)
      ensures r == Done ==> sent == old(sent) + (MultiEvents(info, t, feel, old(nextId), |t.xs|) + [SynReport])
      ensures r == Done ==> nextId == NextId(t, old(nextId), |t.xs|)
    {
      hide Emitted, MapPoint;
      if !initialized { return NotInitialized; }
      var n := |t.xs|;
      if n == 0 || n != |t.ys| || n != |t.actions| { return InvalidArgument; }
      if !ready { return NotSupported; }
      if n > 10 { return InvalidArgument; }
      count := 0;
      for i := 0 to n
        invariant Valid() && sent == old(sent) && writes == old(writes)
        invariant nextId == NextId(t, old(nextId), i)
        invariant Buffered() == MultiEvents(info, t, feel, old(nextId), i)
      {
        var p := MapPoint(info, t.xs[i], t.ys[i], feel(i));
        AddEvents(Emitted(i, p, t.actions[i], nextId));
        if t.actions[i] == ACTION_DOWN { nextId := nextId + 1; }
      }
      var ok := SyncAndFlush();
      r := if ok then Done else Failed;
    }
  }
}
