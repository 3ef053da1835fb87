/** The hot-path router: prioritised rules, debounced, until one completes the automation
    (daemon/hotpath/hotpath_router.cpp). Numbers are exact reals. An evaluation reads the clock
    for each rule it checks, in rule order, and again to record a firing; the hash of an OCR rule's key is an
    input. */
module Router {
  import opened Bytes
  import opened Numbers
  import opened Rules
  import RuleParser

  datatype Detection = Detection(x1: real, y1: real, x2: real, y2: real, confidence: real, classId: int)

  datatype Reading = Reading(text: string, confidence: real, roi: Roi)

  datatype Input = Frame(detections: seq<Detection>) | Recognized(reading: Reading)

  datatype Action = Action(
    kind: int, x1: int, y1: int, x2: int, y2: int, duration: int, classId: int, confidence: real, text: string)

  datatype State = State(rules: seq<Rule>, last: map<int, int>, complete: bool)

  type Hash = Rule -> int

  /** The clock as it is read for each rule. */
  type Clock = nat -> int

  // ---- Matching -------------------------------------------------------------------------------

  predicate Candidate(d: Detection, r: Rule) { d.classId == r.classId && d.confidence > r.minConfidence }

  /** The first detection of the rule's class with the highest confidence, strictly above the minimum. */
  ghost predicate IsBest(ds: seq<Detection>, r: Rule, i: nat) {
    && i < |ds| && Candidate(ds[i], r)
    && (forall k :: 0 <= k < |ds| && Candidate(ds[k], r) ==> ds[k].confidence <= ds[i].confidence)
    && (forall k :: 0 <= k < i && Candidate(ds[k], r) ==> ds[k].confidence < ds[i].confidence)
  }

  function Best(ds: seq<Detection>, r: Rule): (b: Option<nat>)
    ensures b.Some? ==> IsBest(ds, r, b.value)
    ensures b.None? ==> forall k :: 0 <= k < |ds| ==> !Candidate(ds[k], r)
  {
    if ds == [] then None
    else
      var n := |ds| - 1;
      var b := Best(ds[..n], r);
      assert forall k :: 0 <= k < n ==> ds[..n][k] == ds[k];
      if Candidate(ds[n], r) && (b.None? || ds[n].confidence > ds[b.value].confidence) then Some(n) else b
  }

  function Lower(c: char): char { if 'A' <= c <= 'Z' then (c as int + 32) as char else c }

  function LowerAll(s: string): string { seq(|s|, i requires 0 <= i < |s| => Lower(s[i])) }

  predicate At(s: string, t: string, i: nat) { i + |t| <= |s| && s[i..i + |t|] == t }

  predicate Contains(s: string, t: string) { exists i: nat | i <= |s| :: At(s, t, i) }

  predicate MatchesText(r: Rule, text: string) {
    var target := if r.caseSensitive then r.target else LowerAll(r.target);
    var recognized := if r.caseSensitive then text else LowerAll(text);
    r.target != "" && if r.exactMatch then recognized == target else Contains(recognized, target)
  }

  predicate Near(a: real, b: real) { -0.01 < a - b < 0.01 }

  predicate NearRoi(a: Roi, b: Roi) {
    Near(a.x, b.x) && Near(a.y, b.y) && Near(a.width, b.width) && Near(a.height, b.height)
  }

  predicate Matches(r: Rule, input: Input) {
    match input
    case Frame(ds) => Best(ds, r).Some?
    case Recognized(reading) => r.kind == OCR && NearRoi(r.roi, reading.roi) && MatchesText(r, reading.text)
  }

  /** The debounce key: the class id, or the hash of an OCR rule. Both share one table. */
  function Key(h: Hash, r: Rule, input: Input): int { if input.Frame? then r.classId else h(r) }

  predicate Ready(last: map<int, int>, key: int, interval: int, now: int) {
    key !in last || now - last[key] >= interval
  }

  predicate Fires(h: Hash, s: State, input: Input, now: Clock, i: nat)
    requires i < |s.rules|
  {
    Matches(s.rules[i], input) && Ready(s.last, Key(h, s.rules[i], input), s.rules[i].minInterval, now(i))
  }

  /** The first rule at or after `i` that matches and is not debounced. */
  function FirstFrom(h: Hash, s: State, input: Input, now: Clock, i: nat): (r: Option<nat>)
    requires i <= |s.rules|
    ensures r.Some? ==> i <= r.value < |s.rules|
    decreases |s.rules| - i
  {
    if i == |s.rules| then None
    else if Fires(h, s, input, now, i) then Some(i)
    else FirstFrom(h, s, input, now, i + 1)
  }

  lemma {:induction false} FirstFromIsFirst(h: Hash, s: State, input: Input, now: Clock, i: nat)
    requires i <= |s.rules|
    ensures var r := FirstFrom(h, s, input, now, i);
            && (r.Some? ==> Fires(h, s, input, now, r.value))
            && (r.Some? ==> forall k :: i <= k < r.value ==> !Fires(h, s, input, now, k))
            && (r.None? ==> forall k :: i <= k < |s.rules| ==> !Fires(h, s, input, now, k))
    decreases |s.rules| - i
  {
    hide Fires;
    if i < |s.rules| && !Fires(h, s, input, now, i) { FirstFromIsFirst(h, s, input, now, i + 1); }
  }

  // ---- Actions --------------------------------------------------------------------------------

  function Divide5(n: int): int { if n >= 0 then n / 5 else -((-n) / 5) }

  /** A normalized coordinate on a side of `n` pixels. */
  function Scaled(u: real, n: int): int { Truncate(u * n as real) }

  /** Where the action of a match lands, on a screen of `w` by `h`. */
  function Place(r: Rule, x: real, y: real, w: int, h: int): (int, int) {
    (Scaled(Unit(x + r.offsetX), w), Scaled(Unit(y + r.offsetY), h))
  }

  function Build(r: Rule, at: (int, int), h: int, classId: int, confidence: real, text: string): Action {
    var (x, y) := at;
    if r.action == TAP then Action(TAP, x, y, x, y, 50, classId, confidence, text)
    else if r.action == SWIPE then
      var (x2, y2) := if r.swipeX2 != 0 || r.swipeY2 != 0 then (r.swipeX2, r.swipeY2) else (x, y + Divide5(h));
      Action(SWIPE, x, y, x2, y2, r.swipeDuration, classId, confidence, text)
    else if r.action == WAIT then Action(WAIT, x, y, 0, 0, r.waitDuration, classId, confidence, text)
    else Action(r.action, x, y, 0, 0, 0, classId, confidence, text)
  }

  function ActionFor(r: Rule, input: Input, w: int, h: int): Action
    requires Matches(r, input)
  {
    match input
    case Frame(ds) =>
      var d := ds[Best(ds, r).value];
      Build(r, Place(r, (d.x1 + d.x2) / 2.0, (d.y1 + d.y2) / 2.0, w, h), h, d.classId, d.confidence, "")
    case Recognized(reading) =>
      var (x, y) := if r.tapX >= 0.0 && r.tapY >= 0.0 then (r.tapX, r.tapY)
                    else (r.roi.x + r.roi.width / 2.0, r.roi.y + r.roi.height / 2.0);
      Build(r, Place(r, x, y, w, h), h, -1, reading.confidence, reading.text)
  }

  lemma ScaleWithin(u: real, n: int)
    requires 0.0 <= u <= 1.0 && n >= 0
    ensures 0 <= Scaled(u, n) <= n
  {
    ScaleBound(u, n as real);
  }

  lemma ScaleBound(u: real, n: real)
    requires 0.0 <= u <= 1.0 && 0.0 <= n
    ensures 0.0 <= u * n <= n
  {
    ScaleMono(n, u, 1.0);
  }

  /** Every action starts on the screen. */
  lemma ActionOnScreen(r: Rule, input: Input, w: int, h: int)
    requires Matches(r, input) && w >= 0 && h >= 0
    ensures var a := ActionFor(r, input, w, h); 0 <= a.x1 <= w && 0 <= a.y1 <= h
  {
    hide Best, MatchesText, Place;
    match input
    case Frame(ds) =>
      var d := ds[Best(ds, r).value];
      PlaceOnScreen(r, (d.x1 + d.x2) / 2.0, (d.y1 + d.y2) / 2.0, w, h);
    case Recognized(_) =>
      PlaceOnScreen(r, r.tapX, r.tapY, w, h);
      PlaceOnScreen(r, r.roi.x + r.roi.width / 2.0, r.roi.y + r.roi.height / 2.0, w, h);
  }

  lemma PlaceOnScreen(r: Rule, x: real, y: real, w: int, h: int)
    requires w >= 0 && h >= 0
    ensures var p := Place(r, x, y, w, h); 0 <= p.0 <= w && 0 <= p.1 <= h
  {
    hide Scaled, Unit;
    ScaleWithin(Unit(x + r.offsetX), w);
    ScaleWithin(Unit(y + r.offsetY), h);
  }

  // ---- One evaluation -------------------------------------------------------------------------

  /** The rule that fires, if any. */
  function Choice(h: Hash, s: State, input: Input, now: Clock): (r: Option<nat>)
    ensures r.Some? ==> r.value < |s.rules| && Fires(h, s, input, now, r.value)
  {
    FirstFromIsFirst(h, s, input, now, 0);
    if s.complete then None else FirstFrom(h, s, input, now, 0)
  }

  function After(h: Hash, s: State, input: Input, now: Clock, record: int): State {
    var c := Choice(h, s, input, now);
    if c.None? then s
    else
      var r := s.rules[c.value];
      s.(last := s.last[Key(h, r, input) := record], complete := r.action == COMPLETE)
  }

  /** An action comes from the lowest-index rule that is both matched and not debounced, and on a frame from
      the first detection of its class with the highest confidence strictly above the rule's minimum. */
  lemma ChoiceIsFirst(h: Hash, s: State, input: Input, now: Clock)
    ensures var c := Choice(h, s, input, now);
            && (c.Some? ==> !s.complete && Fires(h, s, input, now, c.value)
                            && forall k :: 0 <= k < c.value ==> !Fires(h, s, input, now, k))
            && (c.None? ==> s.complete || forall k :: 0 <= k < |s.rules| ==> !Fires(h, s, input, now, k))
            && (c.Some? && input.Frame? ==>
                  exists i: nat :: IsBest(input.detections, s.rules[c.value], i)
                      && Best(input.detections, s.rules[c.value]) == Some(i))
  {
    hide IsBest, Ready, Key, MatchesText, NearRoi, FirstFrom;
    FirstFromIsFirst(h, s, input, now, 0);
    var c := Choice(h, s, input, now);
    if c.Some? && input.Frame? {
      assert IsBest(input.detections, s.rules[c.value], Best(input.detections, s.rules[c.value]).value);
    }
  }

  // ---- Runs -----------------------------------------------------------------------------------

  datatype Event =
    | Evaluated(input: Input, w: int, h: int, now: Clock, record: int)
    | Loaded(json: string)
    | Cleared
    | WasReset

  function LoadRules(s: State, json: string): State {
    var rules := RuleParser.ParseRules(json);
    if rules == [] && json != "" then s else State(rules, map[], false)
  }

  function Next(h: Hash, s: State, e: Event): State {
    match e
    case Evaluated(input, _, _, now, record) => After(h, s, input, now, record)
    case Loaded(json) => LoadRules(s, json)
    case Cleared => State([], map[], false)
    case WasReset => State(s.rules, map[], false)
  }

  /** Readings never go back, and the last is the one recorded. */
  ghost predicate Ticks(now: Clock, record: int) {
    (forall k: nat :: now(k) <= record) && (forall k: nat, l: nat :: k <= l ==> now(k) <= now(l))
  }

  /** The states of a router from any start, with a clock that never goes back. */
  ghost predicate IsRun(h: Hash, states: seq<State>, es: seq<Event>) {
    && |states| == |es| + 1
    && (forall i :: 0 <= i < |es| ==> states[i + 1] == Next(h, states[i], es[i]))
    && (forall i :: 0 <= i < |es| && es[i].Evaluated? ==> Ticks(es[i].now, es[i].record))
    && (forall i, j :: 0 <= i < j < |es| && es[i].Evaluated? && es[j].Evaluated? ==> es[i].record <= es[j].now(0))
  }

  ghost predicate Fired(h: Hash, s: State, e: Event) { e.Evaluated? && Choice(h, s, e.input, e.now).Some? }

  function FiredRule(h: Hash, s: State, e: Event): Rule
    requires Fired(h, s, e)
  {
    s.rules[Choice(h, s, e.input, e.now).value]
  }

  function FiredKey(h: Hash, s: State, e: Event): int
    requires Fired(h, s, e)
  {
    Key(h, FiredRule(h, s, e), e.input)
  }

  /** Only evaluations from `i` up to `j`. */
  ghost predicate OnlyEvaluated(es: seq<Event>, i: nat, j: nat)
    requires i <= j <= |es|
  {
    forall k :: i <= k < j ==> es[k].Evaluated?
  }

  ghost predicate RecordedSince(s: State, key: int, time: int) { key in s.last && s.last[key] >= time }

  lemma {:induction false} FiringRemembered(h: Hash, states: seq<State>, es: seq<Event>, i: nat, j: nat)
    requires IsRun(h, states, es) && i < j <= |es| && OnlyEvaluated(es, i, j) && Fired(h, states[i], es[i])
    ensures RecordedSince(states[j], FiredKey(h, states[i], es[i]), es[i].record)
    decreases j
  {
    hide Choice, Key;
    if j > i + 1 {
      FiringRemembered(h, states, es, i, j - 1);
      assert es[i].record <= es[j - 1].now(0) <= es[j - 1].record;
    }
    assert states[j] == Next(h, states[j - 1], es[j - 1]);
  }

  /** In every run without load, clear or reset: two firings recorded under one debounce key are at least the
      later rule's interval apart. */
  lemma FiringsApart(h: Hash, states: seq<State>, es: seq<Event>, i: nat, j: nat)
    requires IsRun(h, states, es) && i < j < |es| && OnlyEvaluated(es, i, j)
    requires Fired(h, states[i], es[i]) && Fired(h, states[j], es[j])
    requires FiredKey(h, states[i], es[i]) == FiredKey(h, states[j], es[j])
    ensures es[j].record - es[i].record >= FiredRule(h, states[j], es[j]).minInterval
  {
    hide Key, Matches, FirstFrom;
    FiringRemembered(h, states, es, i, j);
    ChoiceIsFirst(h, states[j], es[j].input, es[j].now);
    assert Ticks(es[j].now, es[j].record);
  }

  lemma {:induction false} CompleteStays(h: Hash, states: seq<State>, es: seq<Event>, i: nat, j: nat)
    requires IsRun(h, states, es) && i < j <= |es| && OnlyEvaluated(es, i, j)
    requires Fired(h, states[i], es[i]) && FiredRule(h, states[i], es[i]).action == COMPLETE
    ensures states[j].complete
    decreases j
  {
    hide FirstFrom, Key;
    assert states[j] == Next(h, states[j - 1], es[j - 1]);
    if j > i + 1 { CompleteStays(h, states, es, i, j - 1); }
  }

  /** In every run without load, clear or reset: nothing fires after a Complete rule has. */
  lemma NothingAfterComplete(h: Hash, states: seq<State>, es: seq<Event>, i: nat, j: nat)
    requires IsRun(h, states, es) && i < j < |es| && OnlyEvaluated(es, i, j)
    requires Fired(h, states[i], es[i]) && FiredRule(h, states[i], es[i]).action == COMPLETE
    ensures !Fired(h, states[j], es[j])
  {
    CompleteStays(h, states, es, i, j);
  }

  // ---- The code -------------------------------------------------------------------------------

  method FindBestMatch(ds: seq<Detection>, r: Rule) returns (best: Option<nat>)
    ensures best == Best(ds, r)
  {
    best := None;
    var confidence := r.minConfidence;
    for i := 0 to |ds|
      invariant best == Best(ds[..i], r)
      invariant confidence == if best.Some? then ds[best.value].confidence else r.minConfidence
    {
      assert ds[..i + 1][..i] == ds[..i];
      if ds[i].classId == r.classId && ds[i].confidence >= r.minConfidence {
        if ds[i].confidence > confidence { best, confidence := Some(i), ds[i].confidence; }
      }
    }
    assert ds[..|ds|] == ds;
  }

  class HotPathRouter {
    const hash: Hash
    var rules: seq<Rule>
    var last: map<int, int>
    var complete: bool

    ghost function View(): State
      reads this
    {
      State(rules, last, complete)
    }

    constructor (hash: Hash)
      ensures this.hash == hash && View() == State([], map[], false)
    {
      this.hash := hash;
      rules, last, complete := [], map[], false;
    }

    method Load(json: string) returns (ok: bool)
      modifies this
      ensures View() == LoadRules(old(View()), json)
      ensures ok == (json == "" || RuleParser.ParseRules(json) != [])
    {
      hide RuleParser.ParseRules;
      var parsed := RuleParser.ParseJson(json);
      if parsed == [] && json != "" { return false; }
      rules, last, complete := parsed, map[], false;
      ok := true;
    }

    /** Record a firing. */
    method Record(r: Rule, key: int, record: int)
      modifies this`last, this`complete
      ensures last == old(last)[key := record]
      ensures complete == (old(complete) || r.action == COMPLETE)
    {
      last := last[key := record];
      if r.action == COMPLETE { complete := true; }
    }

    method Evaluate(ds: seq<Detection>, w: int, h: int, now: Clock, record: int) returns (a: Option<Action>)
      modifies this
      ensures View() == After(hash, old(View()), Frame(ds), now, record)
      ensures var c := Choice(hash, old(View()), Frame(ds), now);
              a == if c.None? then None else Some(ActionFor(old(rules)[c.value], Frame(ds), w, h))
    {
      hide Best, Build, Place;
      if rules == [] { return None; }
      if complete { return None; }
      for i := 0 to |rules|
        invariant View() == old(View())
        invariant FirstFrom(hash, View(), Frame(ds), now, i) == FirstFrom(hash, View(), Frame(ds), now, 0)
      {
        var r := rules[i];
        var best := FindBestMatch(ds, r);
        if best.None? { continue; }
        if !Ready(last, r.classId, r.minInterval, now(i)) { continue; }
        a := Some(ActionFor(r, Frame(ds), w, h));
        Record(r, r.classId, record);
        return;
      }
      a := None;
    }

    method EvaluateOcr(reading: Reading, w: int, h: int, now: Clock, record: int) returns (a: Option<Action>)
      modifies this
      ensures View() == After(hash, old(View()), Recognized(reading), now, record)
      ensures var c := Choice(hash, old(View()), Recognized(reading), now);
              a == if c.None? then None else Some(ActionFor(old(rules)[c.value], Recognized(reading), w, h))
    {
      hide NearRoi, MatchesText, Build, Place;
      if rules == [] || complete { return None; }
      for i := 0 to |rules|
        invariant View() == old(View())
        invariant FirstFrom(hash, View(), Recognized(reading), now, i)
            == FirstFrom(hash, View(), Recognized(reading), now, 0)
      {
        var r := rules[i];
        if r.kind != OCR { continue; }
        if !NearRoi(r.roi, reading.roi) { continue; }
        if !MatchesText(r, reading.text) { continue; }
        var key := hash(r);
        if !Ready(last, key, r.minInterval, now(i)) { continue; }
        a := Some(ActionFor(r, Recognized(reading), w, h));
        Record(r, key, record);
        return;
      }
      a := None;
    }
  }
}
