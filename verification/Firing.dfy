/** When the hot-path router fires, and where its actions land (daemon/hotpath/hotpath_router.cpp): the answers of
    an evaluation in terms of what was detected or recognized, the screen, and the firings before it. */
module Firing {
  import opened Bytes
  import opened Numbers
  import opened Rules
  import opened Router
  import RuleParser

  // ---- Where an action lands ------------------------------------------------------------------

  /** The pixel that a fraction of a side of `size` pixels falls on. */
  predicate IsPixel(n: int, u: real, size: int) { n as real <= u * size as real < n as real + 1.0 }

  lemma PixelScaled(u: real, n: int)
    requires 0.0 <= u <= 1.0 && n >= 0
    ensures IsPixel(Scaled(u, n), u, n)
  {
    ScaleBound(u, n as real);
  }

  /** The start of an action: a point, moved by the rule's offsets and limited to the screen. */
  predicate StartsAt(a: Action, r: Rule, x: real, y: real, w: int, h: int) {
    IsPixel(a.x1, Unit(x + r.offsetX), w) && IsPixel(a.y1, Unit(y + r.offsetY), h)
  }

  /** The end and the duration that each kind of action has. */
  predicate EndsFor(a: Action, r: Rule, h: int) {
    && a.kind == r.action
    && (r.action == TAP ==> a.x2 == a.x1 && a.y2 == a.y1 && a.duration == 50)
    && (r.action == SWIPE ==> a.duration == r.swipeDuration)
    && (r.action == SWIPE && (r.swipeX2 != 0 || r.swipeY2 != 0) ==> a.x2 == r.swipeX2 && a.y2 == r.swipeY2)
    && (r.action == SWIPE && r.swipeX2 == 0 && r.swipeY2 == 0 ==>
          a.x2 == a.x1 && 5 * (a.y2 - a.y1) <= h < 5 * (a.y2 - a.y1) + 5)
    && (r.action == WAIT ==> a.x2 == 0 && a.y2 == 0 && a.duration == r.waitDuration)
    && (r.action == COMPLETE ==> a.x2 == 0 && a.y2 == 0 && a.duration == 0)
  }

  lemma BuiltAt(r: Rule, x: real, y: real, w: int, h: int, classId: int, confidence: real, text: string)
    requires w >= 0 && h >= 0
    ensures var a := Build(r, Place(r, x, y, w, h), h, classId, confidence, text);
            && StartsAt(a, r, x, y, w, h) && EndsFor(a, r, h)
            && a.classId == classId && a.confidence == confidence && a.text == text
  {
    hide IsPixel, Scaled, Unit;
    PixelScaled(Unit(x + r.offsetX), w);
    PixelScaled(Unit(y + r.offsetY), h);
  }

  lemma BestIsOne(ds: seq<Detection>, r: Rule, i: nat)
    requires IsBest(ds, r, i)
    ensures Best(ds, r) == Some(i)
  {
    hide Best;
    assert Best(ds, r).Some?;
  }

  /** On a frame, an action starts at the centre of the rule's best detection. */
  lemma FrameAction(r: Rule, ds: seq<Detection>, i: nat, w: int, h: int)
    requires IsBest(ds, r, i) && w >= 0 && h >= 0
    ensures Matches(r, Frame(ds))
    ensures var a, d := ActionFor(r, Frame(ds), w, h), ds[i];
            && StartsAt(a, r, (d.x1 + d.x2) / 2.0, (d.y1 + d.y2) / 2.0, w, h) && EndsFor(a, r, h)
            && a.classId == d.classId && a.confidence == d.confidence && a.text == ""
  {
    hide Best, Build, Place, StartsAt, EndsFor;
    BestIsOne(ds, r, i);
    var d := ds[i];
    BuiltAt(r, (d.x1 + d.x2) / 2.0, (d.y1 + d.y2) / 2.0, w, h, d.classId, d.confidence, "");
  }

  /** Without offsets, a detection on the screen is hit: the start lies between the pixels of its edges. */
  lemma HitsDetection(r: Rule, ds: seq<Detection>, i: nat, w: int, h: int)
    requires IsBest(ds, r, i) && w >= 0 && h >= 0 && r.offsetX == 0.0 && r.offsetY == 0.0
    requires var d := ds[i]; 0.0 <= d.x1 <= d.x2 <= 1.0 && 0.0 <= d.y1 <= d.y2 <= 1.0
    ensures Matches(r, Frame(ds))
    ensures var a, d := ActionFor(r, Frame(ds), w, h), ds[i];
            && (d.x1 * w as real).Floor <= a.x1 && a.x1 as real <= d.x2 * w as real
            && (d.y1 * h as real).Floor <= a.y1 && a.y1 as real <= d.y2 * h as real
  {
    hide ActionFor, Matches;
    FrameAction(r, ds, i, w, h);
    var a, d := ActionFor(r, Frame(ds), w, h), ds[i];
    Between(a.x1, d.x1, d.x2, w);
    Between(a.y1, d.y1, d.y2, h);
  }

  lemma Between(n: int, x1: real, x2: real, size: int)
    requires x1 <= x2 && size >= 0 && IsPixel(n, (x1 + x2) / 2.0, size)
    ensures (x1 * size as real).Floor <= n && n as real <= x2 * size as real
  {
    var s := size as real;
    Wider(x1, (x1 + x2) / 2.0, s);
    Wider((x1 + x2) / 2.0, x2, s);
  }

  lemma Wider(x: real, y: real, s: real)
    requires x <= y && s >= 0.0
    ensures x * s <= y * s
  {
    assert (y - x) * s >= 0.0;
  }

  /** On a recognized text, an action starts at the rule's tap point, or at the centre of its region. */
  lemma OcrAction(r: Rule, reading: Reading, w: int, h: int)
    requires Matches(r, Recognized(reading)) && w >= 0 && h >= 0
    ensures var a := ActionFor(r, Recognized(reading), w, h);
            && (r.tapX >= 0.0 && r.tapY >= 0.0 ==> StartsAt(a, r, r.tapX, r.tapY, w, h))
            && (r.tapX < 0.0 || r.tapY < 0.0 ==>
                  StartsAt(a, r, r.roi.x + r.roi.width / 2.0, r.roi.y + r.roi.height / 2.0, w, h))
            && EndsFor(a, r, h) && a.classId == -1 && a.confidence == reading.confidence && a.text == reading.text
  {
    hide Build, Place, StartsAt, EndsFor, Matches;
    BuiltAt(r, r.tapX, r.tapY, w, h, -1, reading.confidence, reading.text);
    BuiltAt(r, r.roi.x + r.roi.width / 2.0, r.roi.y + r.roi.height / 2.0, w, h, -1, reading.confidence, reading.text);
  }

  // ---- When a text matches --------------------------------------------------------------------

  /** The same letter in either case. */
  predicate SameLetter(a: char, b: char) {
    || a == b
    || ('A' <= a <= 'Z' && b as int == a as int + 32) || ('A' <= b <= 'Z' && a as int == b as int + 32)
  }

  predicate Same(s: string, t: string, caseSensitive: bool) {
    if caseSensitive then s == t
    else |s| == |t| && forall i :: 0 <= i < |s| ==> SameLetter(s[i], t[i])
  }

  lemma SameLowered(s: string, t: string)
    ensures LowerAll(s) == LowerAll(t) <==> Same(s, t, false)
  {
    forall i | 0 <= i < |s| && i < |t| ensures Lower(s[i]) == Lower(t[i]) <==> SameLetter(s[i], t[i]) {}
    hide Lower, SameLetter;
    if LowerAll(s) == LowerAll(t) {
      assert |LowerAll(s)| == |LowerAll(t)|;
      forall i | 0 <= i < |s| ensures SameLetter(s[i], t[i]) { assert LowerAll(s)[i] == LowerAll(t)[i]; }
    }
  }

  lemma LoweredPart(s: string, i: nat, j: nat)
    requires i <= j <= |s|
    ensures LowerAll(s)[i..j] == LowerAll(s[i..j])
  {}

  /** The text matches at a position, or as a whole. */
  ghost predicate Holds(r: Rule, text: string, before: string, found: string, after: string) {
    && text == before + found + after && Same(found, r.target, r.caseSensitive)
    && (r.exactMatch ==> before == "" && after == "")
  }

  /** What a target matches: a text that is it, or holds it if the match need not be exact, letters compared
      without their case if case does not count. An empty target matches nothing. */
  lemma TextMatchIff(r: Rule, text: string)
    ensures MatchesText(r, text)
       <==> r.target != "" && exists before, found, after :: Holds(r, text, before, found, after)
  {
    hide LowerAll, Same;
    var n := |r.target|;
    if MatchesText(r, text) {
      var i: nat := 0;
      if !r.exactMatch { i := Position(r, text); } else { LowerSizes(r.target, text); }
      Cut(text, i, n);
      SameAt(r, text, i);
      assert r.exactMatch ==> text[i..i + n] == text;
      assert Holds(r, text, text[..i], text[i..i + n], text[i + n..]);
    }
    if r.target != "" && exists before, found, after :: Holds(r, text, before, found, after) {
      var before, found, after :| Holds(r, text, before, found, after);
      SameSize(found, r.target, r.caseSensitive);
      var i := |before|;
      assert text[i..i + n] == found;
      SameAt(r, text, i);
      if r.exactMatch { WholeAt(r, text); }
    }
  }

  lemma Cut(text: string, i: nat, n: nat)
    requires i + n <= |text|
    ensures text == text[..i] + text[i..i + n] + text[i + n..]
  {}

  lemma SameSize(s: string, t: string, caseSensitive: bool)
    requires Same(s, t, caseSensitive)
    ensures |s| == |t|
  {}

  lemma LowerSizes(s: string, t: string)
    ensures |LowerAll(s)| == |s| && |LowerAll(t)| == |t|
  {}

  lemma WholeAt(r: Rule, text: string)
    requires |text| == |r.target|
    ensures var t := if r.caseSensitive then text else LowerAll(text);
            var target := if r.caseSensitive then r.target else LowerAll(r.target);
            At(t, target, 0) <==> t == target
  {
    hide LowerAll;
    LowerSizes(r.target, text);
    var t := if r.caseSensitive then text else LowerAll(text);
    assert t[0..|t|] == t;
  }

  lemma Position(r: Rule, text: string) returns (i: nat)
    requires MatchesText(r, text) && !r.exactMatch
    ensures i + |r.target| <= |text|
    ensures At(if r.caseSensitive then text else LowerAll(text),
               if r.caseSensitive then r.target else LowerAll(r.target), i)
  {
    var t := if r.caseSensitive then text else LowerAll(text);
    var target := if r.caseSensitive then r.target else LowerAll(r.target);
    i :| i <= |t| && At(t, target, i);
    LowerSizes(r.target, text);
  }

  /** A match at a position, read off the texts as they are. */
  lemma SameAt(r: Rule, text: string, i: nat)
    requires i + |r.target| <= |text|
    ensures At(if r.caseSensitive then text else LowerAll(text),
               if r.caseSensitive then r.target else LowerAll(r.target), i)
       <==> Same(text[i..i + |r.target|], r.target, r.caseSensitive)
  {
    hide LowerAll;
    LowerSizes(r.target, text);
    LoweredPart(text, i, i + |r.target|);
    SameLowered(text[i..i + |r.target|], r.target);
  }

  /** A recognized text is for a rule exactly when it is an OCR rule, its region is that of the text up to a hundredth,
      and its target matches. */
  lemma ReadingMatchIff(r: Rule, x: Reading)
    ensures Matches(r, Recognized(x))
       <==> && r.kind == OCR
            && -0.01 < r.roi.x - x.roi.x < 0.01 && -0.01 < r.roi.y - x.roi.y < 0.01
            && -0.01 < r.roi.width - x.roi.width < 0.01 && -0.01 < r.roi.height - x.roi.height < 0.01
            && r.target != "" && exists before, found, after :: Holds(r, x.text, before, found, after)
  {
    hide MatchesText;
    TextMatchIff(r, x.text);
  }

  // ---- When a rule fires ----------------------------------------------------------------------

  /** The event clears what the router remembers of firings. */
  ghost predicate Begins(e: Event) {
    e.Cleared? || e.WasReset? || (e.Loaded? && (e.json == "" || RuleParser.ParseRules(e.json) != []))
  }

  /** What a firing is remembered under: the class of the rule on a frame, its hash on a text. */
  function KeyFor(hash: Hash, r: Rule, input: Input): int {
    match input
    case Frame(_) => r.classId
    case Recognized(_) => hash(r)
  }

  ghost predicate FiredUnder(hash: Hash, s: State, e: Event, key: int) {
    Fired(hash, s, e) && KeyFor(hash, FiredRule(hash, s, e), e.input) == key
  }

  ghost predicate FiredComplete(hash: Hash, s: State, e: Event) {
    Fired(hash, s, e) && FiredRule(hash, s, e).action == COMPLETE
  }

  /** A run that begins afresh at `i` and from there on only evaluates, up to `j`. */
  ghost predicate Evaluates(hash: Hash, states: seq<State>, es: seq<Event>, i: nat, j: nat) {
    IsRun(hash, states, es) && i < j <= |es| && Begins(es[i]) && OnlyEvaluated(es, i + 1, j)
  }

  /** At `j` the router remembers just the last firing under a key. */
  ghost predicate Remembers(hash: Hash, states: seq<State>, es: seq<Event>, i: nat, j: nat, key: int)
    requires |states| == |es| + 1 && i < j <= |es|
  {
    && (key !in states[j].last ==> forall k :: i < k < j ==> !FiredUnder(hash, states[k], es[k], key))
    && (key in states[j].last ==>
          exists k :: i < k < j && FiredUnder(hash, states[k], es[k], key) && states[j].last[key] == es[k].record
                      && forall m :: k < m < j ==> !FiredUnder(hash, states[m], es[m], key))
  }

  lemma FiringStep(hash: Hash, s: State, e: Event, key: int)
    requires e.Evaluated?
    ensures var t := Next(hash, s, e);
            && (FiredUnder(hash, s, e, key) ==> key in t.last && t.last[key] == e.record)
            && (!FiredUnder(hash, s, e, key) ==> (key in t.last <==> key in s.last))
            && (!FiredUnder(hash, s, e, key) && key in s.last ==> t.last[key] == s.last[key])
            && (t.complete <==> s.complete || FiredComplete(hash, s, e)) && t.rules == s.rules
  {
    hide FirstFrom, Fires;
  }

  lemma RememberMore(hash: Hash, states: seq<State>, es: seq<Event>, i: nat, j: nat, key: int)
    requires |states| == |es| + 1 && i + 1 < j <= |es| && OnlyEvaluated(es, i + 1, j)
    requires Remembers(hash, states, es, i, j - 1, key)
    requires var s, e, t := states[j - 1], es[j - 1], states[j];
             && (FiredUnder(hash, s, e, key) ==> key in t.last && t.last[key] == e.record)
             && (!FiredUnder(hash, s, e, key) ==> (key in t.last <==> key in s.last))
             && (!FiredUnder(hash, s, e, key) && key in s.last ==> t.last[key] == s.last[key])
    ensures Remembers(hash, states, es, i, j, key)
  {
    hide FiredUnder;
    if key in states[j].last && !FiredUnder(hash, states[j - 1], es[j - 1], key) {
      var k :| i < k < j - 1 && FiredUnder(hash, states[k], es[k], key) && states[j - 1].last[key] == es[k].record
            && forall m :: k < m < j - 1 ==> !FiredUnder(hash, states[m], es[m], key);
      assert forall m :: k < m < j ==> !FiredUnder(hash, states[m], es[m], key);
    }
  }

  lemma {:induction false} RunRemembers(hash: Hash, states: seq<State>, es: seq<Event>, i: nat, j: nat, key: int)
    requires Evaluates(hash, states, es, i, j)
    ensures Remembers(hash, states, es, i, j, key)
    ensures states[j].complete <==> exists k :: i < k < j && FiredComplete(hash, states[k], es[k])
    decreases j
  {
    hide FiredUnder, FiredComplete;
    var s, e := states[j - 1], es[j - 1];
    assert states[j] == Next(hash, s, e);
    if j > i + 1 {
      RunRemembers(hash, states, es, i, j - 1, key);
      assert es[j - 1].Evaluated?;
      FiringStep(hash, s, e, key);
      hide Next, Evaluates, Begins;
      RememberMore(hash, states, es, i, j, key);
    }
  }

  /** At `j`, the rule matches, and no firing under its key was recorded less than its interval ago. */
  ghost predicate IsDue(hash: Hash, states: seq<State>, es: seq<Event>, i: nat, j: nat, n: nat)
    requires |states| == |es| + 1 && i < j < |es| && es[j].Evaluated? && n < |states[j].rules|
  {
    var r := states[j].rules[n];
    && Matches(r, es[j].input)
    && forall k :: i < k < j && FiredUnder(hash, states[k], es[k], KeyFor(hash, r, es[j].input)) ==>
        es[j].now(n) - es[k].record >= r.minInterval
  }

  lemma DueFires(hash: Hash, states: seq<State>, es: seq<Event>, i: nat, j: nat, n: nat)
    requires Evaluates(hash, states, es, i, j) && j < |es| && es[j].Evaluated? && n < |states[j].rules|
    ensures IsDue(hash, states, es, i, j, n) <==> Fires(hash, states[j], es[j].input, es[j].now, n)
  {
    hide FiredUnder, Matches, Next;
    var r := states[j].rules[n];
    var key := KeyFor(hash, r, es[j].input);
    RunRemembers(hash, states, es, i, j, key);
    if key in states[j].last {
      var k :| i < k < j && FiredUnder(hash, states[k], es[k], key) && states[j].last[key] == es[k].record
            && forall m :: k < m < j ==> !FiredUnder(hash, states[m], es[m], key);
      forall m | i < m < j && FiredUnder(hash, states[m], es[m], key) ensures es[m].record <= es[k].record {
        RecordsGrow(hash, states, es, i, j, m, k);
      }
    }
  }

  lemma RecordsGrow(hash: Hash, states: seq<State>, es: seq<Event>, i: nat, j: nat, m: nat, k: nat)
    requires Evaluates(hash, states, es, i, j) && i < m <= k < j
    ensures es[m].Evaluated? && es[k].Evaluated? && es[m].record <= es[k].record
  {
    assert es[m].Evaluated? && es[k].Evaluated?;
    if m < k { assert es[m].record <= es[k].now(0) <= es[k].record; }
  }

  /** In every run, since the last load, clear or reset: rule `n` fires exactly when no Complete rule has fired, it
      matches, no firing under its key was recorded less than its interval ago, and none of this holds of a rule
      before it. */
  lemma FiresExactly(hash: Hash, states: seq<State>, es: seq<Event>, i: nat, j: nat, n: nat)
    requires Evaluates(hash, states, es, i, j) && j < |es| && es[j].Evaluated? && n < |states[j].rules|
    ensures Choice(hash, states[j], es[j].input, es[j].now) == Some(n)
       <==> && (forall k :: i < k < j ==> !FiredComplete(hash, states[k], es[k]))
            && IsDue(hash, states, es, i, j, n) && forall m :: 0 <= m < n ==> !IsDue(hash, states, es, i, j, m)
  {
    hide IsDue, Fires, FiredComplete, Choice;
    RunRemembers(hash, states, es, i, j, 0);
    forall m | 0 <= m < |states[j].rules|
      ensures IsDue(hash, states, es, i, j, m) <==> Fires(hash, states[j], es[j].input, es[j].now, m)
    {
      DueFires(hash, states, es, i, j, m);
    }
    ChoiceIsFirst(hash, states[j], es[j].input, es[j].now);
    hide Evaluates;
  }

  /** The rules in force are those of the last load, or none after a clear; a load that parses to nothing changes
      nothing. */
  lemma {:induction false} RulesInForce(hash: Hash, states: seq<State>, es: seq<Event>, i: nat, j: nat)
    requires IsRun(hash, states, es) && i < j <= |es| && Begins(es[i]) && !es[i].WasReset?
    requires forall k :: i < k < j ==> !Begins(es[k]) || es[k].WasReset?
    ensures states[j].rules == if es[i].Loaded? then RuleParser.ParseRules(es[i].json) else []
    decreases j
  {
    hide RuleParser.ParseRules, FirstFrom, Key, Fires;
    assert states[j] == Next(hash, states[j - 1], es[j - 1]);
    if j > i + 1 { RulesInForce(hash, states, es, i, j - 1); }
  }
}
