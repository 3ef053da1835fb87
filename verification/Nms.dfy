/** Bounding boxes and non-maximum suppression (daemon/inference/bounding_box.h and .cpp), over exact
    reals. */
module Nms {
  import opened Bytes
  import opened Numbers

  datatype Box = Box(x1: real, y1: real, x2: real, y2: real, confidence: real, classId: int)

  function Max(a: real, b: real): real { if a < b then b else a }

  function Min(a: real, b: real): real { if b < a then b else a }

  function Area(b: Box): real { (b.x2 - b.x1) * (b.y2 - b.y1) }

  predicate Overlap(a: Box, b: Box) {
    Max(a.x1, b.x1) < Min(a.x2, b.x2) && Max(a.y1, b.y1) < Min(a.y2, b.y2)
  }

  function Inter(a: Box, b: Box): real {
    (Min(a.x2, b.x2) - Max(a.x1, b.x1)) * (Min(a.y2, b.y2) - Max(a.y1, b.y1))
  }

  lemma ProductMono(a: real, b: real, c: real, d: real)
    requires 0.0 < a <= c && 0.0 < b <= d
    ensures 0.0 < a * b <= c * d
  {
    assert a * b <= c * b && c * b <= c * d;
  }

  /** The intersection is no larger than either box, so the union is positive: no division by zero,
      for any two boxes. */
  lemma InterWithin(a: Box, b: Box)
    requires Overlap(a, b)
    ensures 0.0 < Inter(a, b) <= Area(a) && Inter(a, b) <= Area(b)
  {
    var w, h := Min(a.x2, b.x2) - Max(a.x1, b.x1), Min(a.y2, b.y2) - Max(a.y1, b.y1);
    ProductMono(w, h, a.x2 - a.x1, a.y2 - a.y1);
    ProductMono(w, h, b.x2 - b.x1, b.y2 - b.y1);
  }

  /** Intersection over union: within [0, 1] for all boxes. */
  function Iou(a: Box, b: Box): (r: real)
    ensures 0.0 <= r <= 1.0
  {
    if !Overlap(a, b) then 0.0
    else
      InterWithin(a, b);
      var union := Area(a) + Area(b) - Inter(a, b);
      RatioWithin(Inter(a, b), union);
      Inter(a, b) / union
  }

  lemma RatioWithin(x: real, y: real)
    requires 0.0 < x <= y
    ensures 0.0 <= x / y <= 1.0
  {}

  lemma IouSymmetric(a: Box, b: Box)
    ensures Iou(a, b) == Iou(b, a)
  {
    if Overlap(a, b) {
      InterWithin(a, b);
      assert Inter(a, b) == Inter(b, a);
    }
  }

  // ---- Clamping -------------------------------------------------------------------------------

  predicate IsValid(b: Box) {
    && 0.0 <= b.x1 <= 1.0 && 0.0 <= b.y1 <= 1.0 && 0.0 <= b.x2 <= 1.0 && 0.0 <= b.y2 <= 1.0
    && b.x1 <= b.x2 && b.y1 <= b.y2 && 0.0 <= b.confidence <= 1.0 && b.classId >= 0
  }

  /** `clamp_coordinates`: always a valid box, and valid boxes are left alone. */
  function Clamp(b: Box): (r: Box)
    ensures IsValid(r)
    ensures IsValid(b) ==> r == b
  {
    var x1, y1, x2, y2 := Unit(b.x1), Unit(b.y1), Unit(b.x2), Unit(b.y2);
    Box(Min(x1, x2), Min(y1, y2), Max(x1, x2), Max(y1, y2), Unit(b.confidence), if b.classId < 0 then 0 else b.classId)
  }

  function Abs(x: real): real { if x < 0.0 then -x else x }

  /** No number `u` of the unit interval is closer to `x` than `v`. */
  predicate NoCloser(u: real, v: real, x: real) { 0.0 <= u <= 1.0 ==> Abs(v - x) <= Abs(u - x) }

  /** The clamped box has, in order, the closest corners the unit square has to those of the box. */
  lemma ClampIsClosest(b: Box, u: real)
    ensures var r := Clamp(b);
            && NoCloser(u, r.x1, Min(b.x1, b.x2)) && NoCloser(u, r.x2, Max(b.x1, b.x2))
            && NoCloser(u, r.y1, Min(b.y1, b.y2)) && NoCloser(u, r.y2, Max(b.y1, b.y2))
            && NoCloser(u, r.confidence, b.confidence) && r.classId == if b.classId < 0 then 0 else b.classId
  {}

  // ---- The greedy specification ---------------------------------------------------------------

  predicate Suppresses(a: Box, b: Box, t: real) { a.classId == b.classId && Iou(a, b) > t }

  function Survivors(a: Box, s: seq<Box>, t: real): (r: seq<Box>)
    ensures |r| <= |s|
  {
    if s == [] then []
    else if Suppresses(a, s[0], t) then Survivors(a, s[1..], t)
    else [s[0]] + Survivors(a, s[1..], t)
  }

  /** Keep the first box, drop what it suppresses, go on with the rest. */
  function Greedy(s: seq<Box>, t: real): seq<Box>
    decreases |s|
  {
    if s == [] then [] else [s[0]] + Greedy(Survivors(s[0], s[1..], t), t)
  }

  ghost predicate Descending(s: seq<Box>) {
    forall i, j :: 0 <= i < j < |s| ==> s[i].confidence >= s[j].confidence
  }

  /** What `std::sort` may leave behind: ties in any order. */
  ghost predicate IsSort(s: seq<Box>, r: seq<Box>) { multiset(r) == multiset(s) && Descending(r) }

  /** No box of the collection suppresses another, nor a second copy of itself. */
  ghost predicate Independent(m: multiset<Box>, t: real) {
    && (forall a, b :: a in m && b in m && a != b ==> !Suppresses(a, b, t))
    && (forall a :: a in m && m[a] >= 2 ==> !Suppresses(a, a, t))
  }

  lemma HeadTail(s: seq<Box>)
    requires s != []
    ensures s == [s[0]] + s[1..] && multiset(s) == multiset{s[0]} + multiset(s[1..])
  {
    assert s == [s[0]] + s[1..];
  }

  lemma {:induction false} SurvivorsCount(a: Box, s: seq<Box>, t: real, b: Box)
    ensures multiset(Survivors(a, s, t))[b] == if Suppresses(a, b, t) then 0 else multiset(s)[b]
  {
    hide Suppresses;
    if s != [] {
      HeadTail(s);
      SurvivorsCount(a, s[1..], t, b);
    }
  }

  lemma {:induction false} SurvivorsOrdered(a: Box, s: seq<Box>, t: real)
    ensures IsSubsequence(Survivors(a, s, t), s)
  {
    hide Suppresses;
    if s != [] {
      SurvivorsOrdered(a, s[1..], t);
      var r := Survivors(a, s[1..], t);
      assert ([s[0]] + r)[1..] == r;
    }
  }

  lemma {:induction false} SubsequenceTrans(a: seq<Box>, b: seq<Box>, c: seq<Box>)
    requires IsSubsequence(a, b) && IsSubsequence(b, c)
    ensures IsSubsequence(a, c)
    decreases |b| + |c|
  {
    if a != [] {
      if b[0] == c[0] && IsSubsequence(b[1..], c[1..]) {
        if a[0] == b[0] && IsSubsequence(a[1..], b[1..]) {
          SubsequenceTrans(a[1..], b[1..], c[1..]);
        } else {
          SubsequenceTrans(a, b[1..], c[1..]);
        }
      } else {
        SubsequenceTrans(a, b, c[1..]);
      }
    }
  }

  lemma {:induction false} DescendingPart(a: seq<Box>, b: seq<Box>)
    requires IsSubsequence(a, b) && Descending(b)
    ensures Descending(a) && (forall x :: x in a ==> x in b)
    decreases |b|
  {
    if a != [] {
      assert Descending(b[1..]);
      assert forall x :: x in b[1..] ==> x in b;
      if a[0] == b[0] && IsSubsequence(a[1..], b[1..]) {
        DescendingPart(a[1..], b[1..]);
        assert forall x :: x in b ==> b[0].confidence >= x.confidence by { HeadIsTop(b); }
        assert a == [a[0]] + a[1..];
      } else {
        DescendingPart(a, b[1..]);
      }
    }
  }

  lemma HeadIsTop(b: seq<Box>)
    requires b != [] && Descending(b)
    ensures forall x :: x in b ==> b[0].confidence >= x.confidence
  {}

  /** The kept boxes appear in the order of the sorted input. */
  lemma {:induction false} GreedyOrdered(s: seq<Box>, t: real)
    ensures IsSubsequence(Greedy(s, t), s)
    decreases |s|
  {
    if s != [] {
      var rest := Survivors(s[0], s[1..], t);
      GreedyOrdered(rest, t);
      SurvivorsOrdered(s[0], s[1..], t);
      hide Survivors;
      SubsequenceTrans(Greedy(rest, t), rest, s[1..]);
      assert ([s[0]] + Greedy(rest, t))[1..] == Greedy(rest, t);
    }
  }

  lemma {:induction false} GreedyWithin(s: seq<Box>, t: real, b: Box)
    ensures multiset(Greedy(s, t))[b] <= multiset(s)[b]
    decreases |s|
  {
    if s != [] {
      HeadTail(s);
      var rest := Survivors(s[0], s[1..], t);
      SurvivorsCount(s[0], s[1..], t, b);
      GreedyWithin(rest, t, b);
      hide Survivors, Suppresses;
      HeadTail([s[0]] + Greedy(rest, t));
      assert ([s[0]] + Greedy(rest, t))[1..] == Greedy(rest, t);
    }
  }

  lemma IndependentWith(h: Box, m: multiset<Box>, t: real)
    requires Independent(m, t)
    requires forall b :: b in m ==> !Suppresses(h, b, t) && !Suppresses(b, h, t)
    ensures Independent(multiset{h} + m, t)
  {
    hide Suppresses;
  }

  lemma SurvivorsClear(h: Box, s: seq<Box>, t: real, b: Box)
    requires b in Greedy(Survivors(h, s, t), t)
    ensures !Suppresses(h, b, t) && !Suppresses(b, h, t)
  {
    GreedyWithin(Survivors(h, s, t), t, b);
    SurvivorsCount(h, s, t, b);
    IouSymmetric(h, b);
    hide Greedy, Survivors, Iou;
  }

  /** No two kept boxes of one class overlap above the threshold. */
  lemma {:induction false} GreedyIndependent(s: seq<Box>, t: real)
    ensures Independent(multiset(Greedy(s, t)), t)
    decreases |s|
  {
    hide Suppresses, Survivors, Independent;
    if s != [] {
      var h, rest := s[0], Survivors(s[0], s[1..], t);
      var g := Greedy(rest, t);
      GreedyIndependent(rest, t);
      forall b | b in multiset(g) ensures !Suppresses(h, b, t) && !Suppresses(b, h, t) {
        SurvivorsClear(h, s[1..], t, b);
      }
      IndependentWith(h, multiset(g), t);
      assert multiset([h] + g) == multiset{h} + multiset(g);
    } else {
      EmptyIndependent(t);
    }
  }

  lemma EmptyIndependent(t: real)
    ensures Independent(multiset([]), t)
  {}

  /** Every copy of a box that is dropped has a kept box of its class, at least as confident, that
      overlaps it above the threshold. */
  lemma {:induction false} DroppedAreCovered(s: seq<Box>, t: real, b: Box)
    requires Descending(s) && multiset(s)[b] > multiset(Greedy(s, t))[b]
    ensures exists k :: k in Greedy(s, t) && Suppresses(k, b, t) && k.confidence >= b.confidence
    decreases |s|
  {
    var h, rest := s[0], Survivors(s[0], s[1..], t);
    var g := Greedy(rest, t);
    HeadTail(s);
    assert multiset(Greedy(s, t)) == multiset{h} + multiset(g);
    SurvivorsCount(h, s[1..], t, b);
    hide Suppresses, Iou;
    if multiset(rest)[b] > multiset(g)[b] {
      SurvivorsOrdered(h, s[1..], t);
      assert Descending(s[1..]);
      DescendingPart(rest, s[1..]);
      hide Survivors, IsSubsequence;
      DroppedAreCovered(rest, t, b);
      var k :| k in g && Suppresses(k, b, t) && k.confidence >= b.confidence;
      assert k in Greedy(s, t);
    } else {
      GreedyWithin(rest, t, b);
      HeadIsTop(s);
      assert b in s;
      assert h in Greedy(s, t);
    }
  }

  /** What is kept and what is dropped, in terms of overlap: two boxes kept of one class overlap by at most the
      threshold, and every copy of a box that is dropped overlaps a kept one of its class by more. */
  lemma KeptAndDropped(s: seq<Box>, t: real, b: Box)
    requires Descending(s)
    ensures var g := Greedy(s, t);
            && (forall i, j :: 0 <= i < j < |g| && g[i].classId == g[j].classId ==> Iou(g[i], g[j]) <= t)
            && (multiset(s)[b] > multiset(g)[b] ==>
                  exists k :: k in g && k.classId == b.classId && Iou(k, b) > t && k.confidence >= b.confidence)
  {
    hide Greedy, Iou;
    var g := Greedy(s, t);
    GreedyIndependent(s, t);
    forall i, j | 0 <= i < j < |g| && g[i].classId == g[j].classId ensures Iou(g[i], g[j]) <= t {
      if g[i] == g[j] { TwiceIn(g, i, j); }
      assert g[i] in multiset(g) && g[j] in multiset(g);
      assert !Suppresses(g[i], g[j], t);
    }
    if multiset(s)[b] > multiset(g)[b] { DroppedAreCovered(s, t, b); }
  }

  lemma TwiceIn(g: seq<Box>, i: nat, j: nat)
    requires i < j < |g| && g[i] == g[j]
    ensures multiset(g)[g[i]] >= 2
  {
    var a, b := g[..j], g[j..];
    assert g == a + b && a[i] == g[i] && b[0] == g[j];
    assert g[i] in multiset(a) && g[i] in multiset(b);
    assert multiset(g) == multiset(a) + multiset(b);
  }

  lemma {:induction false} SurvivorsAll(a: Box, s: seq<Box>, t: real)
    requires forall b :: b in s ==> !Suppresses(a, b, t)
    ensures Survivors(a, s, t) == s
  {
    hide Suppresses;
    if s != [] {
      assert forall b :: b in s[1..] ==> b in s;
      SurvivorsAll(a, s[1..], t);
    }
  }

  lemma TailIndependent(s: seq<Box>, t: real)
    requires s != [] && Independent(multiset(s), t)
    ensures Independent(multiset(s[1..]), t)
    ensures forall b :: b in s[1..] ==> !Suppresses(s[0], b, t)
  {
    hide Suppresses;
    HeadTail(s);
    forall b | b in s[1..] ensures !Suppresses(s[0], b, t) {
      assert b in s;
      if b == s[0] { assert multiset(s)[b] >= 2; }
    }
    assert forall b :: b in s[1..] ==> b in s && multiset(s[1..])[b] <= multiset(s)[b];
  }

  /** An independent list is kept whole, in any order. */
  lemma {:induction false} GreedyKeepsIndependent(s: seq<Box>, t: real)
    requires Independent(multiset(s), t)
    ensures Greedy(s, t) == s
    decreases |s|
  {
    hide Suppresses, Independent;
    if s != [] {
      TailIndependent(s, t);
      SurvivorsAll(s[0], s[1..], t);
      GreedyKeepsIndependent(s[1..], t);
    }
  }

  /** Running suppression again, whatever order the second sort leaves ties in, drops nothing. */
  lemma SecondRunKeepsAll(s: seq<Box>, again: seq<Box>, t: real)
    requires IsSort(Greedy(s, t), again)
    ensures Greedy(again, t) == again && multiset(Greedy(again, t)) == multiset(Greedy(s, t))
  {
    GreedyIndependent(s, t);
    hide Greedy, Independent;
    GreedyKeepsIndependent(again, t);
  }

  // ---- The suppression array ------------------------------------------------------------------

  /** The boxes from position `i` on that are not marked. */
  function Live(boxes: seq<Box>, marked: seq<bool>, i: nat): seq<Box>
    requires |marked| == |boxes| && i <= |boxes|
    decreases |boxes| - i
  {
    if i == |boxes| then []
    else if marked[i] then Live(boxes, marked, i + 1)
    else [boxes[i]] + Live(boxes, marked, i + 1)
  }

  lemma {:induction false} LiveMarked(a: Box, boxes: seq<Box>, m: seq<bool>, m': seq<bool>, i: nat, t: real)
    requires |m| == |m'| == |boxes| && i <= |boxes|
    requires forall j :: i <= j < |boxes| ==> m'[j] == (m[j] || Suppresses(a, boxes[j], t))
    ensures Live(boxes, m', i) == Survivors(a, Live(boxes, m, i), t)
    decreases |boxes| - i
  {
    hide Suppresses;
    if i < |boxes| {
      LiveMarked(a, boxes, m, m', i + 1, t);
      var rest := Live(boxes, m, i + 1);
      assert ([boxes[i]] + rest)[1..] == rest;
    }
  }

  lemma {:induction false} LiveAll(boxes: seq<Box>, m: seq<bool>, i: nat)
    requires |m| == |boxes| && i <= |boxes| && forall j :: 0 <= j < |m| ==> !m[j]
    ensures Live(boxes, m, i) == boxes[i..]
    decreases |boxes| - i
  {
    if i < |boxes| { LiveAll(boxes, m, i + 1); }
  }

  /** The inner loop: mark every later box of the class that overlaps too much. */
  method MarkOverlapping(boxes: array<Box>, suppressed: array<bool>, i: nat, t: real)
    requires suppressed.Length == boxes.Length && i < boxes.Length
    modifies suppressed
    ensures forall j :: 0 <= j <= i ==> suppressed[j] == old(suppressed[j])
    ensures forall j :: i < j < boxes.Length ==>
              suppressed[j] == (old(suppressed[j]) || Suppresses(boxes[i], boxes[j], t))
  {
    hide Iou;
    for j := i + 1 to boxes.Length
      invariant forall k :: 0 <= k <= i || j <= k < boxes.Length ==> suppressed[k] == old(suppressed[k])
      invariant forall k :: i < k < j ==> suppressed[k] == (old(suppressed[k]) || Suppresses(boxes[i], boxes[k], t))
    {
      if !suppressed[j] && boxes[i].classId == boxes[j].classId && Iou(boxes[i], boxes[j]) > t {
        suppressed[j] := true;
      }
    }
  }

  /** `apply_nms`: `sorted` is what the library sort leaves in the array. */
  method ApplyNms(boxes: array<Box>, sorted: seq<Box>, t: real) returns (result: seq<Box>)
    requires IsSort(boxes[..], sorted)
    modifies boxes
    ensures boxes[..] == sorted
    ensures result == Greedy(sorted, t)
  {
    hide IsSort, Suppresses, Live, Greedy;
    SameLength(boxes[..], sorted);
    forall i | 0 <= i < boxes.Length { boxes[i] := sorted[i]; }
    var suppressed := new bool[boxes.Length](_ => false);
    result := [];
    LiveAll(sorted, suppressed[..], 0);
    assert sorted[0..] == sorted;
    for i := 0 to boxes.Length
      invariant boxes[..] == sorted
      invariant result + Greedy(Live(sorted, suppressed[..], i), t) == Greedy(sorted, t)
    {
      ghost var before := suppressed[..];
      LiveHead(sorted, before, i);
      if !suppressed[i] {
        MarkOverlapping(boxes, suppressed, i, t);
        LiveKept(sorted, before, suppressed[..], i, t, result);
        result := result + [boxes[i]];
      }
    }
    LiveEnd(sorted, suppressed[..], t);
  }

  lemma LiveEnd(boxes: seq<Box>, m: seq<bool>, t: real)
    requires |m| == |boxes|
    ensures Greedy(Live(boxes, m, |boxes|), t) == []
  {}

  lemma LiveHead(boxes: seq<Box>, m: seq<bool>, i: nat)
    requires |m| == |boxes| && i < |boxes|
    ensures Live(boxes, m, i) == if m[i] then Live(boxes, m, i + 1) else [boxes[i]] + Live(boxes, m, i + 1)
  {}

  lemma LiveKept(boxes: seq<Box>, m: seq<bool>, m': seq<bool>, i: nat, t: real, done: seq<Box>)
    requires |m| == |m'| == |boxes| && i < |boxes| && !m[i]
    requires forall j :: i < j < |boxes| ==> m'[j] == (m[j] || Suppresses(boxes[i], boxes[j], t))
    ensures done + Greedy(Live(boxes, m, i), t) == done + [boxes[i]] + Greedy(Live(boxes, m', i + 1), t)
  {
    hide Suppresses, Live, Survivors;
    LiveHead(boxes, m, i);
    LiveMarked(boxes[i], boxes, m, m', i + 1, t);
    var rest := Live(boxes, m, i + 1);
    assert ([boxes[i]] + rest)[1..] == rest;
  }

  lemma SameLength(s: seq<Box>, r: seq<Box>)
    requires IsSort(s, r)
    ensures |r| == |s|
  {
    assert |multiset(r)| == |r| && |multiset(s)| == |s|;
  }
}
