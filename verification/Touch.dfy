/** Touch injection (daemon/input/input_injector.cpp and .h). Pressure and contact size follow arbitrary
    curves; interpolation is exact. Writes to the device may fail. */
module Touch {
  import opened Numbers
  import opened TouchProtocol

  /** A contact's position, pressure and size. */
  datatype Point = Point(x: int, y: int, pressure: int, major: int)

  datatype Info = Info(minX: int, maxX: int, minY: int, maxY: int)

  /** `map_x` and `map_y`: a screen coordinate clamped and moved to the device's range. */
  function Mapped(min: int, max: int, v: int): int {
    var low := if v < 0 then 0 else v;
    if max - min <= 0 then v else min + (if low > max then max else low)
  }

  /** Every coordinate lands in the device's range exactly when that range is not a single point or empty and
      contains 0. Otherwise the coordinate is passed on unclamped, or clamping to the maximum and then adding
      the minimum leaves the range. */
  lemma MappedInRangeIff(min: int, max: int)
    ensures (forall v :: min <= Mapped(min, max, v) <= max) <==> min < max && min <= 0 <= max
  {
    assert max <= min ==> Mapped(min, max, max + 1) == max + 1;
    assert max > min && max >= 0 ==> Mapped(min, max, max) == min + max;
    assert max > min && max < 0 ==> Mapped(min, max, 0) == min + max;
  }

  /** Mapping keeps distances on the screen and puts what is off it at its edges; without a range it changes nothing. */
  lemma MappedKeepsDistance(min: int, max: int, v: int, w: int)
    ensures max <= min ==> Mapped(min, max, v) == v
    ensures min < max && 0 <= v <= max && 0 <= w <= max ==> Mapped(min, max, w) - Mapped(min, max, v) == w - v
    ensures min < max && 0 <= max && v <= 0 ==> Mapped(min, max, v) == min
    ensures min < max && v >= max && v >= 0 ==> Mapped(min, max, v) == min + max
    ensures min < max <= 0 ==> Mapped(min, max, v) == min + max
  {}

  // ---- Event groups ---------------------------------------------------------------------------

  function Down(slot: int, p: Point, id: int): (es: seq<Event>)
    ensures |es| == if slot == 0 then 7 else 6
  {
    [Slot(slot), TrackingId(id), PositionX(p.x), PositionY(p.y), Pressure(p.pressure), TouchMajor(p.major)]
    + (if slot == 0 then [BtnTouch(1)] else [])
  }

  function Move(slot: int, p: Point): (es: seq<Event>)
    ensures |es| == 5
  {
    [Slot(slot), PositionX(p.x), PositionY(p.y), Pressure(p.pressure), TouchMajor(p.major)]
  }

  function Up(slot: int): (es: seq<Event>)
    ensures |es| == if slot == 0 then 3 else 2
  {
    [Slot(slot), TrackingId(-1)] + (if slot == 0 then [BtnTouch(0)] else [])
  }

  /** The reader after a group: only the named slot, and for slot 0 the touch button, change. */
  function AfterDown(k: Reader, slot: int, p: Point, id: int): Reader {
    Reader(slot, k.slots[slot := Contact(id, p.x, p.y, p.pressure, p.major)], if slot == 0 then 1 else k.touch)
  }

  function AfterMove(k: Reader, slot: int, p: Point): Reader {
    k.(current := slot, slots := k.slots[slot := Contact(At(k, slot).id, p.x, p.y, p.pressure, p.major)])
  }

  function AfterUp(k: Reader, slot: int): Reader {
    Reader(slot, k.slots[slot := At(k, slot).(id := -1)], if slot == 0 then 0 else k.touch)
  }

  lemma ReadOne(k: Reader, e: Event)
    ensures Read(k, [e]) == Apply(k, e)
  {
    assert [e][1..] == [];
  }

  lemma ReadCons(k: Reader, e: Event, es: seq<Event>)
    ensures Read(k, [e] + es) == Read(Apply(k, e), es)
  {
    assert ([e] + es)[1..] == es;
  }

  lemma SetTwice(k: Reader, c: Contact, d: Contact)
    ensures Set(Set(k, c), d) == Set(k, d) && At(Set(k, c), k.current) == c
  {
    assert k.slots[k.current := c][k.current := d] == k.slots[k.current := d];
  }

  lemma ReadPoint(k: Reader, p: Point)
    ensures Read(k, [PositionX(p.x), PositionY(p.y), Pressure(p.pressure), TouchMajor(p.major)])
         == Set(k, Contact(At(k, k.current).id, p.x, p.y, p.pressure, p.major))
  {
    hide Read, Set, At;
    var c := At(k, k.current);
    var c1 := c.(x := p.x);
    var c2 := c1.(y := p.y);
    var c3 := c2.(pressure := p.pressure);
    SetTwice(k, c1, c2);
    SetTwice(k, c2, c3);
    SetTwice(k, c3, c3.(major := p.major));
    SetCurrent(k, c1);
    SetCurrent(k, c2);
    SetCurrent(k, c3);
    var e1, e2, e3, e4 := PositionX(p.x), PositionY(p.y), Pressure(p.pressure), TouchMajor(p.major);
    ReadCons(k, e1, [e2, e3, e4]);
    ReadCons(Set(k, c1), e2, [e3, e4]);
    ReadCons(Set(k, c2), e3, [e4]);
    ReadOne(Set(k, c3), e4);
    assert [e1, e2, e3, e4] == [e1] + [e2, e3, e4] && [e2, e3, e4] == [e2] + [e3, e4] && [e3, e4] == [e3] + [e4];
  }

  lemma SetCurrent(k: Reader, c: Contact)
    ensures Set(k, c).current == k.current
  {}

  lemma ReadDown(k: Reader, slot: int, p: Point, id: int)
    ensures Read(k, Down(slot, p, id)) == AfterDown(k, slot, p, id) && NoReport(Down(slot, p, id))
  {
    hide Read;
    var body := [PositionX(p.x), PositionY(p.y), Pressure(p.pressure), TouchMajor(p.major)];
    var k1 := k.(current := slot);
    var k2 := Apply(k1, TrackingId(id));
    ReadCons(k, Slot(slot), [TrackingId(id)] + body);
    ReadCons(k1, TrackingId(id), body);
    ReadPoint(k2, p);
    var all := [Slot(slot)] + ([TrackingId(id)] + body);
    ReadAppend(k, all, [BtnTouch(1)]);
    ReadOne(Read(k, all), BtnTouch(1));
    assert Down(slot, p, id) == if slot == 0 then all + [BtnTouch(1)] else all;
  }

  lemma ReadMove(k: Reader, slot: int, p: Point)
    ensures Read(k, Move(slot, p)) == AfterMove(k, slot, p) && NoReport(Move(slot, p))
  {
    hide Read;
    var body := [PositionX(p.x), PositionY(p.y), Pressure(p.pressure), TouchMajor(p.major)];
    ReadCons(k, Slot(slot), body);
    ReadPoint(k.(current := slot), p);
    assert Move(slot, p) == [Slot(slot)] + body;
  }

  lemma ReadUp(k: Reader, slot: int)
    ensures Read(k, Up(slot)) == AfterUp(k, slot) && NoReport(Up(slot))
  {
    hide Read;
    var k1 := k.(current := slot);
    var k2 := Apply(k1, TrackingId(-1));
    var all := [Slot(slot)] + [TrackingId(-1)];
    ReadCons(k, Slot(slot), [TrackingId(-1)]);
    ReadOne(k1, TrackingId(-1));
    ReadAppend(k, all, [BtnTouch(0)]);
    ReadOne(k2, BtnTouch(0));
    assert Up(slot) == if slot == 0 then all + [BtnTouch(0)] else all;
  }

  // ---- One-finger gestures --------------------------------------------------------------------

  function Moves(points: seq<Point>): seq<Event> {
    if points == [] then []
    else Moves(points[..|points| - 1]) + (Move(0, points[|points| - 1]) + [SynReport])
  }

  /** Down at the first point, through the others, and up. */
  function Gesture(id: int, points: seq<Point>): seq<Event>
    requires points != []
  {
    (Down(0, points[0], id) + [SynReport]) + Moves(points[1..]) + (Up(0) + [SynReport])
  }

  /** The stream up to and including point `i - 1`. */
  function GestureTo(id: int, points: seq<Point>, i: nat): seq<Event>
    requires 1 <= i <= |points|
  {
    (Down(0, points[0], id) + [SynReport]) + Moves(points[1..i])
  }

  lemma GestureStarts(id: int, points: seq<Point>)
    requires points != []
    ensures GestureTo(id, points, 1) == Down(0, points[0], id) + [SynReport]
  {
    hide Down;
    assert points[1..1] == [];
  }

  lemma GestureMoves(id: int, points: seq<Point>, i: nat)
    requires 1 <= i < |points|
    ensures GestureTo(id, points, i + 1) == GestureTo(id, points, i) + (Move(0, points[i]) + [SynReport])
  {
    hide Down, Move;
    assert points[1..i + 1][..i - 1] == points[1..i];
  }

  lemma GestureEnds(id: int, points: seq<Point>)
    requires points != []
    ensures Gesture(id, points) == GestureTo(id, points, |points|) + (Up(0) + [SynReport])
  {
    hide Down, Up, Moves;
    assert points[1..|points|] == points[1..];
  }

  ghost predicate AllFree(k: Reader) { forall n :: At(k, n).id == -1 }

  /** Exactly one contact, in slot 0, at `p`, with the touch button down. */
  ghost predicate OneContact(k: Reader, id: int, p: Point) {
    && id >= 0 && k.touch == 1 && At(k, 0) == Contact(id, p.x, p.y, p.pressure, p.major)
    && forall n :: n != 0 ==> At(k, n).id == -1
  }

  ghost predicate Touching(k: Reader, id: int) { exists p :: OneContact(k, id, p) }

  lemma {:induction false} MovesRead(k: Reader, id: int, p: Point, points: seq<Point>)
    requires OneContact(k, id, p)
    ensures var fs := Frames(k, Moves(points));
            && |fs| == |points|
            && forall i :: 0 <= i < |points| ==> OneContact(fs[i], id, points[i])
    ensures OneContact(Read(k, Moves(points)), id, if points == [] then p else points[|points| - 1])
  {
    hide Read, Frames, Move;
    if points == [] {
      NothingRead(k);
    } else {
      var n := |points| - 1;
      MovesRead(k, id, p, points[..n]);
      var k1 := Read(k, Moves(points[..n]));
      ReadAppend(k, Moves(points[..n]), Move(0, points[n]) + [SynReport]);
      ReadMove(k1, 0, points[n]);
      Reported(k1, Move(0, points[n]));
      MoveKeeps(k1, id, if n == 0 then p else points[n - 1], points[n]);
    }
  }

  lemma NothingRead(k: Reader)
    ensures Read(k, []) == k && Frames(k, []) == []
  {}

  lemma MoveKeeps(k: Reader, id: int, p: Point, q: Point)
    requires OneContact(k, id, p)
    ensures OneContact(AfterMove(k, 0, q), id, q)
  {
    var t := AfterMove(k, 0, q);
    assert forall n :: n != 0 ==> At(t, n) == At(k, n);
  }

  /** A one-finger stream, read from all slots free, is exactly one contact that visits the points in order
      and leaves all slots free and the touch button up. */
  lemma GestureIsOneContact(k: Reader, id: int, points: seq<Point>)
    requires AllFree(k) && id >= 0 && points != []
    ensures var fs := Frames(k, Gesture(id, points));
            && |fs| == |points| + 1
            && (forall i :: 0 <= i < |points| ==> OneContact(fs[i], id, points[i]))
            && AllFree(fs[|points|]) && fs[|points|].touch == 0
    ensures var t := Read(k, Gesture(id, points)); AllFree(t) && t.touch == 0
  {
    hide Read, Frames, Moves, Down, Up;
    var down, moves, up := Down(0, points[0], id), Moves(points[1..]), Up(0);
    var k1 := AfterDown(k, 0, points[0], id);
    ReadDown(k, 0, points[0], id);
    Reported(k, down);
    DownOpens(k, id, points[0]);
    MovesRead(k1, id, points[0], points[1..]);
    var k2 := Read(k1, moves);
    ReadUp(k2, 0);
    Reported(k2, up);
    UpCloses(k2, id, points[|points| - 1]);
    ReadAppend(k, down + [SynReport], moves);
    ReadAppend(k, down + [SynReport] + moves, up + [SynReport]);
    assert Frames(k, Gesture(id, points)) == [k1] + Frames(k1, moves) + [AfterUp(k2, 0)];
  }

  lemma DownOpens(k: Reader, id: int, p: Point)
    requires AllFree(k) && id >= 0
    ensures OneContact(AfterDown(k, 0, p, id), id, p)
  {
    var t := AfterDown(k, 0, p, id);
    assert forall n :: n != 0 ==> At(t, n) == At(k, n);
  }

  lemma UpCloses(k: Reader, id: int, p: Point)
    requires OneContact(k, id, p)
    ensures AllFree(AfterUp(k, 0)) && AfterUp(k, 0).touch == 0
  {
    var t := AfterUp(k, 0);
    assert forall n :: n != 0 ==> At(t, n) == At(k, n);
  }

  // ---- Tap and swipe --------------------------------------------------------------------------

  /** Pressure and size of the contact at each frame. */
  type Feel = nat -> (int, int)

  /** At about 60 frames a second. */
  function FrameCount(duration: int, least: int): (n: nat)
    requires least >= 1
    ensures n >= least && (n > least ==> 16 * n <= duration) && duration < 16 * n + 16
  {
    if duration >= 16 * least then duration / 16 else least
  }

  function PointAt(x: int, y: int, feel: (int, int)): Point { Point(x, y, feel.0, feel.1) }

  function TapPoints(x: int, y: int, feel: Feel, n: nat): (r: seq<Point>)
    ensures |r| == n
  {
    seq(n, i requires 0 <= i < n => PointAt(x, y, feel(i)))
  }

  /** Coordinate `i` of `n` on the way from `a` to `b`. */
  function Between(a: int, b: int, i: nat, n: nat): int
    requires n > 0
  {
    a + Part(b - a, i as real / n as real)
  }

  /** The part `t` of a distance, in whole units. */
  function Part(d: int, t: real): int { Truncate(Times(d as real, t)) }

  function Times(x: real, y: real): real { x * y }

  function SwipePoints(x1: int, y1: int, x2: int, y2: int, feel: Feel, n: nat): (r: seq<Point>)
    requires n > 0
    ensures |r| == n + 1
  {
    seq(n + 1, i requires 0 <= i <= n => PointAt(Between(x1, x2, i, n), Between(y1, y2, i, n), feel(i)))
  }

  lemma QuotientMonotone(x: real, y: real, n: real)
    requires x <= y && n > 0.0
    ensures x / n <= y / n
  {}

  lemma FractionMonotone(i: nat, j: nat, n: nat)
    requires i <= j <= n && n > 0
    ensures 0.0 <= i as real / n as real <= j as real / n as real <= 1.0
  {
    QuotientMonotone(0.0, i as real, n as real);
    QuotientMonotone(i as real, j as real, n as real);
    QuotientMonotone(j as real, n as real, n as real);
  }

  lemma Ends(a: int, b: int, n: nat)
    requires n > 0
    ensures Between(a, b, 0, n) == a && Between(a, b, n, n) == b
  {
    assert 0 as real / n as real == 0.0 && n as real / n as real == 1.0;
    assert Part(b - a, 0.0) == 0 && Part(b - a, 1.0) == b - a;
  }

  /** `v` comes before `w` on the way from `a` to `b`. */
  predicate Ordered(a: int, v: int, w: int, b: int) { (a <= b ==> a <= v <= w <= b) && (a >= b ==> a >= v >= w >= b) }

  /** The coordinate moves from one end to the other without turning back. */
  lemma BetweenOrdered(a: int, b: int, i: nat, j: nat, n: nat)
    requires i <= j <= n && n > 0
    ensures Ordered(a, Between(a, b, i, n), Between(a, b, j, n), b)
  {
    hide Between;
    BetweenStep(a, b, i, j, n);
    BetweenStep(a, b, 0, i, n);
    BetweenStep(a, b, j, n, n);
    Ends(a, b, n);
  }

  lemma BetweenStep(a: int, b: int, i: nat, j: nat, n: nat)
    requires i <= j <= n && n > 0
    ensures a <= b ==> Between(a, b, i, n) <= Between(a, b, j, n)
    ensures a >= b ==> Between(a, b, i, n) >= Between(a, b, j, n)
  {
    hide Part;
    FractionMonotone(i, j, n);
    PartStep(b - a, i as real / n as real, j as real / n as real);
  }

  lemma PartStep(d: int, p: real, q: real)
    requires 0.0 <= p <= q
    ensures d >= 0 ==> Part(d, p) <= Part(d, q)
    ensures d <= 0 ==> Part(d, p) >= Part(d, q)
  {
    hide Truncate, Times;
    if d >= 0 {
      TimesUp(d as real, p, q);
      TruncateMonotone(Times(d as real, p), Times(d as real, q));
    }
    if d <= 0 {
      TimesDown(d as real, p, q);
      TruncateMonotone(Times(d as real, q), Times(d as real, p));
    }
  }

  lemma TimesUp(d: real, p: real, q: real)
    requires 0.0 <= d && 0.0 <= p <= q
    ensures Times(d, p) <= Times(d, q)
  {
    ScaleMono(d, p, q);
  }

  lemma TimesDown(d: real, p: real, q: real)
    requires d <= 0.0 && 0.0 <= p <= q
    ensures Times(d, q) <= Times(d, p)
  {
    ScaleMono(-d, p, q);
    assert (-d) * p == -(d * p) && (-d) * q == -(d * q);
  }

  /** How far `v` is, in `n`-th units, from where step `i` of `n` is on the way over the distance `d`. */
  function Off(v: int, d: int, i: int, n: int): int { n * v - i * d }

  /** `v` is, to within a unit, where step `i` of `n` is on the straight way from `a` to `b`. */
  predicate OnWay(a: int, b: int, v: int, i: int, n: int) { -n < Off(v - a, b - a, i, n) < n }

  lemma OffReal(v: int, d: int, i: int, n: int)
    ensures Off(v, d, i, n) as real == Times(n as real, v as real) - Times(d as real, i as real)
  {}

  lemma OffWithin(v: int, d: int, i: int, n: int, q: real)
    requires n > 0 && Times(n as real, q) == Times(d as real, i as real) && -1.0 < q - v as real < 1.0
    ensures -n < Off(v, d, i, n) < n
  {
    hide Off, Times;
    OffReal(v, d, i, n);
    Spread(n as real, q, v as real);
  }

  lemma BetweenOnWay(a: int, b: int, i: nat, n: nat)
    requires i <= n && n > 0
    ensures OnWay(a, b, Between(a, b, i, n), i, n)
  {
    hide Times, Off;
    var d, v, q := b - a, Between(a, b, i, n) - a, Times((b - a) as real, i as real / n as real);
    assert -1.0 < q - v as real < 1.0;
    StepsTimes(d as real, i as real, n as real);
    OffWithin(v, d, i, n, q);
  }

  lemma StepsTimes(d: real, i: real, n: real)
    requires n > 0.0
    ensures Times(n, Times(d, i / n)) == Times(d, i)
  {
    assert n * (i / n) == i;
    assert n * (d * (i / n)) == d * (n * (i / n));
  }

  lemma Spread(n: real, q: real, v: real)
    requires n > 0.0 && -1.0 < q - v < 1.0
    ensures -n < Times(n, v) - Times(n, q) < n
  {
    var e := q - v;
    var m := n * e;
    assert -n < m < n by { Within(n, e); }
    assert Times(n, v) == Times(n, q) - m;
  }

  lemma Within(n: real, e: real)
    requires n > 0.0 && -1.0 < e < 1.0
    ensures -n < n * e < n
  {
    var a, b := 1.0 - e, 1.0 + e;
    assert n * a > 0.0 && n * b > 0.0;
    assert n * a == n - n * e && n * b == n + n * e;
  }

  /** The frames of a swipe: one contact from the mapped start straight to the mapped end, never turning back. */
  ghost predicate Swiped(fs: seq<Reader>, id: int, x1: int, y1: int, x2: int, y2: int) {
    && |fs| >= 3 && AllFree(fs[|fs| - 1]) && fs[|fs| - 1].touch == 0
    && (forall i :: 0 <= i < |fs| - 1 ==> Touching(fs[i], id))
    && At(fs[0], 0).x == x1 && At(fs[0], 0).y == y1
    && At(fs[|fs| - 2], 0).x == x2 && At(fs[|fs| - 2], 0).y == y2
    && (forall i :: 0 <= i < |fs| - 1 ==> OnWay(x1, x2, At(fs[i], 0).x, i, |fs| - 2))
    && (forall i :: 0 <= i < |fs| - 1 ==> OnWay(y1, y2, At(fs[i], 0).y, i, |fs| - 2))
    && (forall i, j :: 0 <= i <= j < |fs| - 1 ==> Ordered(x1, At(fs[i], 0).x, At(fs[j], 0).x, x2))
    && (forall i, j :: 0 <= i <= j < |fs| - 1 ==> Ordered(y1, At(fs[i], 0).y, At(fs[j], 0).y, y2))
  }

  lemma SwipeFrames(k: Reader, id: int, x1: int, y1: int, x2: int, y2: int, feel: Feel, n: nat)
    requires AllFree(k) && id >= 0 && n >= 2
    ensures var fs := Frames(k, Gesture(id, SwipePoints(x1, y1, x2, y2, feel, n)));
            && |fs| == n + 2 && AllFree(fs[n + 1]) && fs[n + 1].touch == 0
            && (forall i :: 0 <= i <= n ==> Touching(fs[i], id))
            && (forall i :: 0 <= i <= n ==> At(fs[i], 0).x == Between(x1, x2, i, n))
            && (forall i :: 0 <= i <= n ==> At(fs[i], 0).y == Between(y1, y2, i, n))
  {
    hide Gesture, Frames, Between, AllFree, At;
    var points := SwipePoints(x1, y1, x2, y2, feel, n);
    var fs := Frames(k, Gesture(id, points));
    GestureIsOneContact(k, id, points);
    forall i | 0 <= i <= n
      ensures At(fs[i], 0).x == Between(x1, x2, i, n) && At(fs[i], 0).y == Between(y1, y2, i, n)
      ensures Touching(fs[i], id)
    {
      assert OneContact(fs[i], id, points[i]);
      assert points[i] == PointAt(Between(x1, x2, i, n), Between(y1, y2, i, n), feel(i));
    }
  }

  /** Whatever the pressure curve and the duration: a swipe stream is one contact, from the mapped start
      straight to the mapped end. */
  lemma SwipeIsOneContact(k: Reader, id: int, x1: int, y1: int, x2: int, y2: int, feel: Feel, n: nat)
    requires AllFree(k) && id >= 0 && n >= 2
    ensures Swiped(Frames(k, Gesture(id, SwipePoints(x1, y1, x2, y2, feel, n))), id, x1, y1, x2, y2)
  {
    hide Gesture, Frames, Between, AllFree, At, Touching, SwipePoints, Ordered, OnWay;
    var fs := Frames(k, Gesture(id, SwipePoints(x1, y1, x2, y2, feel, n)));
    SwipeFrames(k, id, x1, y1, x2, y2, feel, n);
    Ends(x1, x2, n);
    Ends(y1, y2, n);
    forall i, j | 0 <= i <= j <= n
      ensures Ordered(x1, At(fs[i], 0).x, At(fs[j], 0).x, x2) && Ordered(y1, At(fs[i], 0).y, At(fs[j], 0).y, y2)
    {
      BetweenOrdered(x1, x2, i, j, n);
      BetweenOrdered(y1, y2, i, j, n);
    }
    forall i | 0 <= i <= n ensures OnWay(x1, x2, At(fs[i], 0).x, i, n) && OnWay(y1, y2, At(fs[i], 0).y, i, n) {
      BetweenOnWay(x1, x2, i, n);
      BetweenOnWay(y1, y2, i, n);
    }
  }

  ghost predicate Tapped(fs: seq<Reader>, id: int, x: int, y: int) {
    && |fs| >= 2 && AllFree(fs[|fs| - 1]) && fs[|fs| - 1].touch == 0
    && forall i :: 0 <= i < |fs| - 1 ==> At(fs[i], 0).x == x && At(fs[i], 0).y == y && Touching(fs[i], id)
  }

  /** A tap stream is one contact that stays at the mapped point. */
  lemma TapIsOneContact(k: Reader, id: int, x: int, y: int, feel: Feel, n: nat)
    requires AllFree(k) && id >= 0 && n >= 1
    ensures Tapped(Frames(k, Gesture(id, TapPoints(x, y, feel, n))), id, x, y)
  {
    hide Gesture, Frames;
    var points := TapPoints(x, y, feel, n);
    var fs := Frames(k, Gesture(id, points));
    GestureIsOneContact(k, id, points);
    forall i | 0 <= i < n ensures At(fs[i], 0).x == x && At(fs[i], 0).y == y && Touching(fs[i], id) {
      assert OneContact(fs[i], id, points[i]);
      assert points[i] == PointAt(x, y, feel(i));
    }
  }
}
