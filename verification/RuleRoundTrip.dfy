/** Writing rules and reading them back, for every list of rules: exactly which come back unchanged, whatever
    characters their targets hold (daemon/hotpath/rule_parser.cpp).

    Once the parser is inside a target that it has entered, it stays inside targets or fails. So it never reads a
    target as long as the longest one that was written. */
module RuleRoundTrip {
  import opened Bytes
  import opened Rules
  import opened Text
  import opened Tokenizer
  import opened RuleParser
  import opened Writer = RuleText

  // ---- Inside a target ------------------------------------------------------------------------

  /** What follows the text of the target of an OCR rule, from its closing quote. */
  function AfterTarget(p: Printer, r: Rule, tail: string): string {
    "\"" + Member(false, "exact_match", FlagText(r.exactMatch),
           Member(false, "case_sensitive", FlagText(r.caseSensitive), TapText(p, r, tail)))
  }

  /** The end of a target: its closing quote and the flag after it. */
  ghost predicate Closing(end: string) {
    exists b, more :: end == "\"" + Member(false, "exact_match", FlagText(b), more)
  }

  /** The text is the last fewer than `m` characters of a target, and what follows it. */
  predicate Inside(end: string, m: nat, t: string) { |end| <= |t| < |end| + m && t[|t| - |end|..] == end }

  /** No member list goes on from here, nor a key. */
  ghost predicate Dead(t: string) { !Expect(t, ':').ok && forall r :: !FieldLoop(t, false, r).ok }

  /** The part of the text that is in the target. */
  function Left(end: string, t: string): (u: string)
    requires |end| <= |t| && t[|t| - |end|..] == end
    ensures t == u + end
  {
    t[..|t| - |end|]
  }

  lemma InsideOf(end: string, m: nat, u: string)
    requires |u| < m
    ensures Inside(end, m, u + end)
  {}

  lemma ClosingStarts(end: string)
    requires Closing(end)
    ensures |end| > 3 && end[0] == '"' && end[1] == ',' && end[2] == '"' && end[3] == 'e' && Delimited(end)
  {
    hide FlagText, Member;
    var b, more :| end == "\"" + Member(false, "exact_match", FlagText(b), more);
    MemberStarts("exact_match", FlagText(b), more);
  }

  lemma MemberStarts(key: string, value: string, tail: string)
    requires key != ""
    ensures var t := Member(false, key, value, tail); |t| > 2 && t[0] == ',' && t[1] == '"' && t[2] == key[0]
  {}

  /** Past the closing quote there is no way on. */
  lemma ClosingIsDead(end: string)
    requires Closing(end)
    ensures |end| > 3 && Dead(end[1..]) && Dead(end[3..])
  {
    hide FieldLoop, FlagText, Member;
    ClosingStarts(end);
    var b, more :| end == "\"" + Member(false, "exact_match", FlagText(b), more);
    assert end[1..] == Member(false, "exact_match", FlagText(b), more);
    NoColon(end[1..]);
    NoColon(end[3..]);
    forall r ensures !FieldLoop(end[1..], false, r).ok { FlagFails(b, more, r); }
    forall r ensures !FieldLoop(end[3..], false, r).ok { LetterStops(end[3..], r); }
  }

  lemma NoColon(t: string)
    requires t != "" && !IsSpace(t[0]) && t[0] != ':'
    ensures !Expect(t, ':').ok
  {}

  /** A member list does not go on with a letter, a bracket or nothing. */
  lemma LetterStops(t: string, r: Rule)
    requires t == "" || (!IsSpace(t[0]) && t[0] != ',' && t[0] != '}')
    ensures !FieldLoop(t, false, r).ok
  {
    hide ReadField, FieldOf;
    assert Skip(t) == t;
  }

  // ---- Tokens inside a target -----------------------------------------------------------------

  lemma SkipInside(end: string, m: nat, t: string)
    requires Closing(end) && Inside(end, m, t)
    ensures Inside(end, m, Skip(t)) && |Skip(t)| <= |t|
    ensures Skip(t) == end || Skip(t)[0] == Left(end, Skip(t))[0]
  {
    hide Closing, Skip;
    ClosingStarts(end);
    SkipBefore(Left(end, t), end);
    InsideOf(end, m, Skip(Left(end, t)));
  }

  lemma ExpectInside(end: string, m: nat, t: string, c: char)
    requires Closing(end) && Inside(end, m, t) && c != '"'
    ensures Inside(end, m, Expect(t, c).rest)
  {
    hide Closing, Skip;
    ClosingStarts(end);
    SkipInside(end, m, t);
  }

  lemma NumberInside(end: string, m: nat, t: string)
    requires Closing(end) && Inside(end, m, t)
    ensures Inside(end, m, ScanNumber(t).rest)
  {
    hide Closing, ScanNumber;
    ClosingStarts(end);
    var u := Left(end, t);
    NumberBefore(u, end);
    InsideOf(end, m, ScanNumber(u).rest);
  }

  /** The characters of a string end at a quote of the target, at its closing quote, or, if that is escaped, at the
      next one. */
  lemma {:induction false} BodyInside(end: string, u: string)
    requires Closing(end)
    ensures var b := Body(u + end);
            || (|end| > 3 && b.rest == end[2..])
            || (b.rest != "" && b.rest[0] == '"' && Inside(end, |u| + 1, b.rest)
                && |b.value| + |b.rest| <= |u| + |end|)
    decreases |u|
  {
    hide Closing, Body;
    ClosingStarts(end);
    var t := u + end;
    if u == "" || u[0] == '"' {
      assert u == "" ==> t == end;
      assert t[0] == '"';
      BodyStops(t);
    } else {
      BodyAdvances(t);
      if u == "\\" {
        assert t[2..] == end[1..];
        CommaBody(end);
      } else {
        var n := if u[0] == '\\' then 2 else 1;
        assert t[n..] == u[n..] + end;
        BodyInside(end, u[n..]);
      }
    }
  }

  lemma BodyStops(t: string)
    requires t != "" && t[0] == '"'
    ensures Body(t) == Scan(true, "", t)
  {}

  lemma BodyAdvances(t: string)
    requires t != "" && t[0] != '"'
    ensures var r := Body(t[if t[0] == '\\' && |t| > 1 then 2 else 1..]);
            Body(t).rest == r.rest && |Body(t).value| == 1 + |r.value|
  {}

  lemma CommaBody(end: string)
    requires |end| > 3 && end[1] == ',' && end[2] == '"'
    ensures Body(end[1..]).rest == end[2..]
  {
    assert end[1..][1..] == end[2..];
  }

  /** A string that starts inside a target ends there, shorter than what was left of it, or leads nowhere. */
  lemma StringInside(end: string, m: nat, t: string)
    requires Closing(end) && Inside(end, m, t)
    ensures var s := ScanString(t);
            if !s.ok then Inside(end, m, s.rest) else Dead(s.rest) || (Inside(end, m, s.rest) && |s.value| < m)
  {
    hide Closing, Skip, Dead, Inside, Body;
    SkipInside(end, m, t);
    if Peek(Skip(t)) == '"' { QuoteInside(end, m, Skip(t)); }
  }

  lemma QuoteInside(end: string, m: nat, u: string)
    requires Closing(end) && Inside(end, m, u) && Peek(u) == '"'
    ensures var b := Body(u[1..]);
            && Peek(b.rest) == '"'
            && (Dead(b.rest[1..]) || (Inside(end, m, b.rest[1..]) && |b.value| < m))
  {
    hide Closing, Body, Dead;
    ClosingStarts(end);
    ClosingIsDead(end);
    assert end[2..][1..] == end[3..];
    if u == end {
      CommaBody(end);
    } else {
      var v := Left(end, u)[1..];
      assert u[1..] == v + end;
      BodyInside(end, v);
    }
  }

  // ---- Nested values --------------------------------------------------------------------------

  predicate IsBracket(c: char) { c == '{' || c == '[' || c == '}' || c == ']' }

  predicate Flat(s: string) { forall i :: 0 <= i < |s| ==> !IsBracket(s[i]) }

  lemma {:induction false} SkipFlat(s: string, t: string, depth: nat)
    requires Flat(s) && depth >= 1
    ensures SkipNested(s + t, depth) == SkipNested(t, depth)
    decreases |s|
  {
    if s == "" {
      assert s + t == t;
    } else {
      assert (s + t)[1..] == s[1..] + t && !IsBracket(s[0]);
      SkipFlat(s[1..], t, depth);
    }
  }

  lemma SkipMember(first: bool, key: string, value: string, tail: string, depth: nat)
    requires Flat(key) && Flat(value) && depth >= 1
    ensures SkipNested(Member(first, key, value, tail), depth) == SkipNested(tail, depth)
  {
    hide SkipNested;
    var s := (if first then "" else ",") + Quoted(key) + ":" + value;
    FlatMember(first, key, value);
    assert Member(first, key, value, tail) == s + tail;
    SkipFlat(s, tail, depth);
  }

  lemma FlatMember(first: bool, key: string, value: string)
    requires Flat(key) && Flat(value)
    ensures Flat((if first then "" else ",") + Quoted(key) + ":" + value)
  {}

  lemma FlatDigits(t: string)
    requires Flat(Digits(t).rest)
    ensures Flat(t)
  {
    var d := Digits(t);
    DigitsAre(t);
    assert forall i :: 0 <= i < |t| ==> t[i] == (if i < |d.value| then d.value[i] else d.rest[i - |d.value|]);
  }

  lemma DigitsAre(t: string)
    ensures t == Digits(t).value + Digits(t).rest
  {}

  /** A numeral has no brackets in it. */
  lemma NumeralFlat(s: string)
    requires Numeral(s)
    ensures Flat(s)
  {
    hide Digits, Decimal;
    assert Skip(s) == s;
    var body := if Peek(s) == '-' then s[1..] else s;
    var a := Digits(body).rest;
    var b := Fraction(a).rest;
    assert Exponent(b).rest == "";
    if Peek(b) == 'e' || Peek(b) == 'E' {
      var u := b[1..];
      FlatDigits(if Peek(u) == '+' || Peek(u) == '-' then u[1..] else u);
    }
    assert Flat(b);
    if Peek(a) == '.' { FlatDigits(a[1..]); }
    assert Flat(a);
    FlatDigits(body);
  }

  lemma IntFlat(n: int)
    ensures Flat(PrintInt(n))
  {
    hide Numeral, PrintInt, Flat;
    IntIsNumeral(n);
    NumeralFlat(PrintInt(n));
  }

  lemma WordsFlat(b: bool, a: int, k: Kind)
    ensures Flat(FlagText(b)) && Flat(Quoted(ActionName(a))) && Flat(Quoted(KindName(k)))
  {
    hide Quoted, Flat, ActionName, KindName, FlagText;
    NamesFlat(b, a, k);
    QuotedFlat(ActionName(a));
    QuotedFlat(KindName(k));
  }

  lemma NamesFlat(b: bool, a: int, k: Kind)
    ensures Flat(FlagText(b)) && Flat(ActionName(a)) && Flat(KindName(k))
  {}

  lemma QuotedFlat(s: string)
    requires Flat(s)
    ensures Flat(Quoted(s))
  {}

  lemma CommonFlat()
    ensures Flat("action") && Flat("tap_offset_x") && Flat("tap_offset_y") && Flat("min_interval_ms")
  {}

  lemma DetectionFlat()
    ensures Flat("type") && Flat("class_id") && Flat("min_confidence")
  {}

  lemma OcrFlat()
    ensures Flat("exact_match") && Flat("case_sensitive") && Flat("tap_x") && Flat("tap_y")
    ensures Flat(",\"roi\":") && Flat(",\"target\":\"")
  {}

  lemma RoiFlat()
    ensures Flat("x") && Flat("y") && Flat("width") && Flat("height")
  {}

  lemma SkipOpen(t: string, depth: nat)
    requires depth >= 1
    ensures SkipNested("{" + t, depth) == SkipNested(t, depth + 1)
    ensures SkipNested("}" + t, depth) == SkipNested(t, depth - 1)
  {
    assert ("{" + t)[1..] == t && ("}" + t)[1..] == t;
  }

  lemma CommonSkips(p: Printer, r: Rule, tail: string, depth: nat)
    requires Printable(p, r) && depth >= 1
    ensures SkipNested(CommonText(p, r, tail), depth) == SkipNested(tail, depth - 1)
  {
    hide SkipNested, Member, Flat, Numeral, PrintInt, Quoted, ActionName;
    CommonFlat();
    WordsFlat(true, r.action, r.kind);
    NumeralFlat(p(r.offsetX));
    NumeralFlat(p(r.offsetY));
    IntFlat(r.minInterval);
    var t1 := Member(false, "min_interval_ms", PrintInt(r.minInterval), "}" + tail);
    var t2 := Member(false, "tap_offset_y", p(r.offsetY), t1);
    var t3 := Member(false, "tap_offset_x", p(r.offsetX), t2);
    SkipOpen(tail, depth);
    SkipMember(false, "min_interval_ms", PrintInt(r.minInterval), "}" + tail, depth);
    SkipMember(false, "tap_offset_y", p(r.offsetY), t1, depth);
    SkipMember(false, "tap_offset_x", p(r.offsetX), t2, depth);
    SkipMember(false, "action", Quoted(ActionName(r.action)), t3, depth);
  }

  /** From the end of a target, skipping passes the rest of its rule. */
  lemma EndSkips(p: Printer, r: Rule, tail: string, depth: nat)
    requires Printable(p, r) && depth >= 1
    ensures SkipNested(AfterTarget(p, r, tail), depth) == SkipNested(tail, depth - 1)
  {
    hide SkipNested, Member, Flat, Numeral, CommonText, FlagText;
    OcrFlat();
    WordsFlat(r.exactMatch, r.action, r.kind);
    WordsFlat(r.caseSensitive, r.action, r.kind);
    NumeralFlat(p(r.tapX));
    NumeralFlat(p(r.tapY));
    var c := CommonText(p, r, tail);
    var t := TapText(p, r, tail);
    CommonSkips(p, r, tail, depth);
    SkipMember(false, "tap_y", p(r.tapY), c, depth);
    SkipMember(false, "tap_x", p(r.tapX), c, depth);
    SkipMember(false, "tap_x", p(r.tapX), Member(false, "tap_y", p(r.tapY), c), depth);
    var t1 := Member(false, "case_sensitive", FlagText(r.caseSensitive), t);
    SkipMember(false, "case_sensitive", FlagText(r.caseSensitive), t, depth);
    SkipMember(false, "exact_match", FlagText(r.exactMatch), t1, depth);
    assert Flat("\"") by { QuoteFlat(); }
    SkipFlat("\"", Member(false, "exact_match", FlagText(r.exactMatch), t1), depth);
  }

  lemma QuoteFlat()
    ensures Flat("\"") && Flat(",")
  {}

  lemma RoiSkips(p: Printer, r: Roi, tail: string, depth: nat)
    requires RoiPrintable(p, r) && depth >= 1
    ensures SkipNested(RoiText(p, r) + tail, depth) == SkipNested(tail, depth)
  {
    hide SkipNested, Member, Flat, Numeral, RoiText;
    RoiFlat();
    NumeralFlat(p(r.x));
    NumeralFlat(p(r.y));
    NumeralFlat(p(r.width));
    NumeralFlat(p(r.height));
    RoiTextIs(p, r, tail);
    var t1 := Member(false, "height", p(r.height), "}" + tail);
    var t2 := Member(false, "width", p(r.width), t1);
    var t3 := Member(false, "y", p(r.y), t2);
    SkipOpen(tail, depth + 1);
    SkipMember(false, "height", p(r.height), "}" + tail, depth + 1);
    SkipMember(false, "width", p(r.width), t1, depth + 1);
    SkipMember(false, "y", p(r.y), t2, depth + 1);
    SkipMember(true, "x", p(r.x), t3, depth + 1);
    SkipOpen(Member(true, "x", p(r.x), t3), depth);
  }

  /** Skipping passes a whole Detection rule, and comes into the target of an OCR rule. */
  lemma RuleSkips(p: Printer, r: Rule, tail: string, depth: nat)
    requires Printable(p, r) && depth >= 1
    ensures SkipNested("," + RuleText(p, r, tail), depth)
         == if r.kind == Detection then SkipNested(tail, depth)
            else SkipNested(r.target + AfterTarget(p, r, tail), depth + 1)
  {
    hide SkipNested, Member, Flat, Numeral, Quoted, KindName, DetectionText, OcrText, AfterTarget;
    var body := if r.kind == Detection then DetectionText(p, r, tail) else OcrText(p, r, tail);
    var t := Member(true, "type", Quoted(KindName(r.kind)), body);
    QuoteFlat();
    SkipFlat(",", "{" + t, depth);
    SkipOpen(t, depth);
    DetectionFlat();
    WordsFlat(true, r.action, r.kind);
    SkipMember(true, "type", Quoted(KindName(r.kind)), body, depth + 1);
    if r.kind == Detection { DetectionSkips(p, r, tail, depth + 1); } else { OcrSkips(p, r, tail, depth + 1); }
  }

  lemma DetectionSkips(p: Printer, r: Rule, tail: string, depth: nat)
    requires Printable(p, r) && depth >= 1
    ensures SkipNested(DetectionText(p, r, tail), depth) == SkipNested(tail, depth - 1)
  {
    hide SkipNested, Member, Flat, Numeral, CommonText, PrintInt;
    DetectionFlat();
    NumeralFlat(p(r.minConfidence));
    IntFlat(r.classId);
    var c := CommonText(p, r, tail);
    CommonSkips(p, r, tail, depth);
    SkipMember(false, "min_confidence", p(r.minConfidence), c, depth);
    SkipMember(false, "class_id", PrintInt(r.classId), Member(false, "min_confidence", p(r.minConfidence), c), depth);
  }

  lemma OcrSkips(p: Printer, r: Rule, tail: string, depth: nat)
    requires Printable(p, r) && depth >= 1
    ensures SkipNested(OcrText(p, r, tail), depth) == SkipNested(r.target + AfterTarget(p, r, tail), depth)
  {
    hide SkipNested, Flat, Numeral, RoiText;
    OcrFlat();
    var inside := r.target + AfterTarget(p, r, tail);
    OcrTextIs(p, r, tail);
    SkipFlat(",\"target\":\"", inside, depth);
    RoiSkips(p, r.roi, ",\"target\":\"" + inside, depth);
    SkipFlat(",\"roi\":", RoiText(p, r.roi) + (",\"target\":\"" + inside), depth);
  }

  lemma OcrTextIs(p: Printer, r: Rule, tail: string)
    ensures OcrText(p, r, tail)
         == ",\"roi\":" + (RoiText(p, r.roi) + (",\"target\":\"" + (r.target + AfterTarget(p, r, tail))))
  {
    hide RoiText, TapText, FlagText;
    var t1 := Member(false, "exact_match", FlagText(r.exactMatch),
              Member(false, "case_sensitive", FlagText(r.caseSensitive), TapText(p, r, tail)));
    TargetMember(r.target, t1);
    RoiMember(RoiText(p, r.roi), Member(false, "target", Quoted(r.target), t1));
  }

  lemma TargetMember(target: string, t: string)
    ensures Member(false, "target", Quoted(target), t) == ",\"target\":\"" + (target + ("\"" + t))
  {
    assert "," + Quoted("target") + ":" == ",\"target\":";
  }

  lemma RoiMember(roi: string, t: string)
    ensures Member(false, "roi", roi, t) == ",\"roi\":" + (roi + t)
  {
    assert "," + Quoted("roi") + ":" == ",\"roi\":";
  }

  // ---- Where skipping ends --------------------------------------------------------------------

  function End(p: Printer, rules: seq<Rule>, k: nat): string
    requires k < |rules|
  {
    AfterTarget(p, rules[k], RulesText(p, rules[k + 1..], false))
  }

  ghost predicate InTarget(p: Printer, rules: seq<Rule>, m: nat, t: string) {
    exists k :: 0 <= k < |rules| && rules[k].kind == OCR && Inside(End(p, rules, k), m, t)
  }

  /** The numbers print as numbers and no target is longer than `m`. */
  ghost predicate Bounded(p: Printer, rules: seq<Rule>, m: nat) {
    && m >= 1
    && forall k :: 0 <= k < |rules| ==>
        Printable(p, rules[k]) && (rules[k].kind == OCR ==> |rules[k].target| <= m)
  }

  lemma EndCloses(p: Printer, rules: seq<Rule>, k: nat)
    requires k < |rules|
    ensures Closing(End(p, rules, k))
  {
    hide Member, FlagText, TapText;
  }

  lemma TargetOf(p: Printer, rules: seq<Rule>, m: nat, t: string) returns (k: nat)
    requires InTarget(p, rules, m, t)
    ensures k < |rules| && rules[k].kind == OCR && Inside(End(p, rules, k), m, t) && Closing(End(p, rules, k))
  {
    hide End, Inside, Closing;
    k :| 0 <= k < |rules| && rules[k].kind == OCR && Inside(End(p, rules, k), m, t);
    EndCloses(p, rules, k);
  }

  lemma InTargetOf(p: Printer, rules: seq<Rule>, m: nat, k: nat, t: string)
    requires k < |rules| && rules[k].kind == OCR && Inside(End(p, rules, k), m, t)
    ensures InTarget(p, rules, m, t)
  {
    hide End, Inside;
  }

  /** Rules do not go on a member list. */
  lemma RulesAreDead(p: Printer, rules: seq<Rule>)
    ensures Dead(RulesText(p, rules, false)) && Dead("")
  {
    hide RulesText, FieldLoop;
    var t := RulesText(p, rules, false);
    RulesStart(p, rules);
    NoColon(t);
    forall r ensures !FieldLoop(t, false, r).ok && !FieldLoop("", false, r).ok {
      if t[0] == ',' { BraceStops(t, r); } else { LetterStops(t, r); }
      LetterStops("", r);
    }
  }

  lemma RulesStart(p: Printer, rules: seq<Rule>)
    ensures var t := RulesText(p, rules, false); t != "" && (t[0] == ']' || (|t| > 1 && t[0] == ',' && t[1] == '{'))
  {
    hide RuleText;
    if rules != [] { RuleTextStarts(p, rules[0], RulesText(p, rules[1..], false)); }
  }

  lemma BraceStops(t: string, r: Rule)
    requires |t| > 1 && t[0] == ',' && t[1] == '{'
    ensures !FieldLoop(t, false, r).ok
  {
    hide ReadField, FieldOf, Body;
    assert Skip(t) == t;
    assert Expect(t, ',').rest == t[1..];
    assert Skip(t[1..]) == t[1..];
  }

  /** Skipping a nested value from inside a target ends inside a target, or where nothing goes on. */
  lemma {:induction false} NestedFromTarget(
      p: Printer, rules: seq<Rule>, m: nat, k: nat, u: string, depth: nat)
    requires Bounded(p, rules, m) && k < |rules| && rules[k].kind == OCR && |u| <= m && depth >= 1
    ensures var t := SkipNested(u + End(p, rules, k), depth); InTarget(p, rules, m, t) || Dead(t)
    decreases |rules| - k, 1, |u|
  {
    hide *;
    var end := End(p, rules, k);
    if u == "" {
      assert u + end == end;
      BoundedAt(p, rules, m, k);
      EndIs(p, rules, k);
      EndSkips(p, rules[k], RulesText(p, rules[k + 1..], false), depth);
      NestedFromRules(p, rules, m, k + 1, depth - 1);
    } else {
      var t := u[1..] + end;
      var next := SkipStep(u, end, depth);
      if next == 0 {
        InsideOf(end, m, u[1..]);
        InTargetOf(p, rules, m, k, t);
      } else {
        NestedFromTarget(p, rules, m, k, u[1..], next);
      }
    }
  }

  lemma EndIs(p: Printer, rules: seq<Rule>, k: nat)
    requires k < |rules|
    ensures End(p, rules, k) == AfterTarget(p, rules[k], RulesText(p, rules[k + 1..], false))
  {
    hide AfterTarget, RulesText;
  }

  lemma SkipStep(u: string, end: string, depth: nat) returns (next: nat)
    requires u != "" && depth >= 1
    ensures SkipNested(u + end, depth) == SkipNested(u[1..] + end, next)
    ensures next == 0 ==> SkipNested(u[1..] + end, next) == u[1..] + end
  {
    assert (u + end)[1..] == u[1..] + end && (u + end)[0] == u[0];
    next := if u[0] == '{' || u[0] == '[' then depth + 1
            else if u[0] == '}' || u[0] == ']' then depth - 1 else depth;
  }

  lemma BoundedAt(p: Printer, rules: seq<Rule>, m: nat, k: nat)
    requires Bounded(p, rules, m) && k < |rules|
    ensures Printable(p, rules[k]) && (rules[k].kind == OCR ==> |rules[k].target| <= m)
  {
    hide Printable;
  }

  lemma {:induction false} NestedFromRules(p: Printer, rules: seq<Rule>, m: nat, k: nat, depth: nat)
    requires Bounded(p, rules, m) && k <= |rules|
    ensures var t := SkipNested(RulesText(p, rules[k..], false), depth); InTarget(p, rules, m, t) || Dead(t)
    decreases |rules| - k, 2
  {
    hide Bounded, Dead, InTarget, RuleText, AfterTarget, Printable;
    var t := RulesText(p, rules[k..], false);
    RulesAreDead(p, rules[k..]);
    if depth == 0 {
      assert SkipNested(t, depth) == t;
    } else if k == |rules| {
      assert t == "]" && t[1..] == "";
      assert SkipNested("", depth - 1) == "";
    } else {
      var r, tail := rules[k], RulesText(p, rules[k + 1..], false);
      BoundedAt(p, rules, m, k);
      assert rules[k..][0] == r && rules[k..][1..] == rules[k + 1..];
      assert t == "," + RuleText(p, r, tail);
      hide RulesText, SkipNested;
      RuleSkips(p, r, tail, depth);
      if r.kind == Detection {
        NestedFromRules(p, rules, m, k + 1, depth);
      } else {
        NestedFromTarget(p, rules, m, k, r.target, depth + 1);
      }
    }
  }

  // ---- Members inside a target ----------------------------------------------------------------

  lemma MemberInside(end: string, m: nat, t: string, first: bool)
    requires Closing(end) && Inside(end, m, t)
    ensures var n := NextMember(t, first); n.ok ==> Inside(end, m, n.rest)
  {
    hide Closing, Skip, Expect, ScanString;
    ClosingStarts(end);
    SkipInside(end, m, t);
    var u := Skip(t);
    if Peek(u) != '}' {
      ExpectInside(end, m, u, ',');
      var c := if first then u else Expect(u, ',').rest;
      StringInside(end, m, c);
      var k := ScanString(c);
      if k.ok && !Dead(k.rest) { ExpectInside(end, m, k.rest, ':'); }
    }
  }

  lemma {:induction false} RoiInside(end: string, m: nat, t: string, first: bool, roi: Roi)
    requires Closing(end) && Inside(end, m, t)
    ensures var r := RoiLoop(t, first, roi); r.ok ==> Inside(end, m, r.rest)
    decreases |t|
  {
    hide Closing, Inside, NextMember, ScanNumber, SetRoi;
    MemberInside(end, m, t, first);
    var n := NextMember(t, first);
    if n.ok && n.value.Some? {
      NumberInside(end, m, n.rest);
      var v := ScanNumber(n.rest);
      RoiInside(end, m, v.rest, false, if v.ok then SetRoi(n.value.value, v.value, roi) else roi);
    }
  }

  lemma RoiValueInside(end: string, m: nat, t: string, roi: Roi)
    requires Closing(end) && Inside(end, m, t)
    ensures var r := ScanRoi(t, roi); r.ok ==> Inside(end, m, r.rest)
  {
    hide Closing, Inside, RoiLoop, Expect;
    ExpectInside(end, m, t, '{');
    RoiInside(end, m, Expect(t, '{').rest, true, roi);
  }

  ghost predicate GoesOn(p: Printer, rules: seq<Rule>, m: nat, t: string) { InTarget(p, rules, m, t) || Dead(t) }

  lemma OtherInside(p: Printer, rules: seq<Rule>, m: nat, k: nat, t: string)
    requires Bounded(p, rules, m) && k < |rules| && rules[k].kind == OCR && Inside(End(p, rules, k), m, t)
    ensures GoesOn(p, rules, m, SkipValue(t))
  {
    hide End, Closing, Skip, ScanString, ScanNumber, Bounded, Dead, SkipNested, InTarget, Inside;
    var end := End(p, rules, k);
    EndCloses(p, rules, k);
    SkipInside(end, m, t);
    var u := Skip(t);
    StringInside(end, m, u);
    NumberInside(end, m, u);
    if Peek(u) == '{' || Peek(u) == '[' {
      var v := NestedStarts(end, m, u);
      NestedFromTarget(p, rules, m, k, v, 1);
    } else if InsideRest(end, m, u) {
      InTargetOf(p, rules, m, k, if Peek(u) == '"' then ScanString(u).rest else ScanNumber(u).rest);
    }
  }

  ghost predicate InsideRest(end: string, m: nat, u: string) {
    Inside(end, m, if Peek(u) == '"' then ScanString(u).rest else ScanNumber(u).rest)
  }

  lemma NestedStarts(end: string, m: nat, t: string) returns (v: string)
    requires Closing(end) && Inside(end, m, t) && t != "" && IsBracket(t[0])
    ensures t[1..] == v + end && |v| < m
  {
    hide Closing;
    ClosingStarts(end);
    v := Left(end, t)[1..];
  }

  /** A field read inside a target leaves the parser in one, or nowhere, with a target shorter than `m`. */
  lemma FieldInside(p: Printer, rules: seq<Rule>, m: nat, f: Field, t: string, r: Rule)
    requires Bounded(p, rules, m) && InTarget(p, rules, m, t) && |r.target| < m
    ensures var s := ReadField(f, t, r); s.ok ==> GoesOn(p, rules, m, s.rest) && (|s.value.target| < m || Dead(s.rest))
  {
    hide End, Closing, ScanString, ScanNumber, Bounded, Dead, Inside, SkipValue, ScanRoi, KindOf, ActionOf, InTarget;
    var k := TargetOf(p, rules, m, t);
    var end := End(p, rules, k);
    StringInside(end, m, t);
    NumberInside(end, m, t);
    if !ScanString(t).ok { NumberInside(end, m, ScanString(t).rest); }
    RoiValueInside(end, m, t, r.roi);
    OtherInside(p, rules, m, k, t);
    var rest := ReadField(f, t, r).rest;
    if Inside(end, m, rest) { InTargetOf(p, rules, m, k, rest); }
  }

  /** So does a whole rule, and then the parser is inside a target. */
  lemma {:induction false} FieldsInside(p: Printer, rules: seq<Rule>, m: nat, t: string, first: bool, r: Rule)
    requires Bounded(p, rules, m) && InTarget(p, rules, m, t) && |r.target| < m
    ensures var s := FieldLoop(t, first, r); s.ok ==> InTarget(p, rules, m, s.rest) && |s.value.target| < m
    decreases |t|
  {
    hide End, Closing, Bounded, NextMember, ReadField, RuleParser.FieldOf, Inside, InTarget;
    var k := TargetOf(p, rules, m, t);
    MemberInside(End(p, rules, k), m, t, first);
    var n := NextMember(t, first);
    if n.ok {
      InTargetOf(p, rules, m, k, n.rest);
      if n.value.Some? {
        var f := FieldOf(n.value.value);
        FieldInside(p, rules, m, f, n.rest, r);
        var s := ReadField(f, n.rest, r);
        if s.ok && !Dead(s.rest) { FieldsInside(p, rules, m, s.rest, false, s.value); }
      }
    }
  }

  ghost predicate Shorter(rules: seq<Rule>, m: nat) { forall r :: r in rules ==> |r.target| < m }

  /** The rules that are read from inside a target. */
  lemma {:induction false} RulesInside(
      p: Printer, rules: seq<Rule>, m: nat, t: string, first: bool, acc: seq<Rule>)
    requires Bounded(p, rules, m) && InTarget(p, rules, m, t) && Shorter(acc, m)
    ensures var r := RuleLoop(t, first, acc); r.Some? ==> Shorter(r.value, m)
    decreases |t|
  {
    hide End, Closing, Printable, Skip, FieldLoop, ValidRule, Inside, InTarget, Expect, NextRule;
    var k := TargetOf(p, rules, m, t);
    var end := End(p, rules, k);
    NextInside(end, m, t, first);
    var n := NextRule(t, first);
    if n.ok && n.value {
      ExpectInside(end, m, n.rest, '{');
      InTargetOf(p, rules, m, k, Expect(n.rest, '{').rest);
      FieldsInside(p, rules, m, Expect(n.rest, '{').rest, true, DEFAULT);
      var r := ScanRule(n.rest);
      if r.ok { RulesInside(p, rules, m, r.rest, false, if ValidRule(r.value) then acc + [r.value] else acc); }
    }
  }

  lemma NextInside(end: string, m: nat, t: string, first: bool)
    requires Closing(end) && Inside(end, m, t)
    ensures var n := NextRule(t, first); n.ok && n.value ==> Inside(end, m, n.rest)
  {
    hide Closing, Skip, Inside, Expect;
    SkipInside(end, m, t);
    ExpectInside(end, m, Skip(t), ',');
  }

  // ---- The first OCR rule ---------------------------------------------------------------------

  /** Its target is read up to a quote in it, or the parser fails. */
  lemma TargetReads(end: string, target: string, r: Rule)
    requires Closing(end)
    ensures var s := ReadField(TargetField, "\"" + (target + end), r);
            s.ok ==> Dead(s.rest) || (Inside(end, |target|, s.rest) && |s.value.target| < |target|)
  {
    hide Closing, Body, Dead;
    ClosingStarts(end);
    ClosingIsDead(end);
    var t := "\"" + (target + end);
    assert Skip(t) == t && t[1..] == target + end;
    BodyInside(end, target);
  }

  lemma OcrInside(p: Printer, rules: seq<Rule>, m: nat, k: nat)
    requires Bounded(p, rules, m) && k < |rules| && rules[k].kind == OCR
    ensures var s := ScanRule(RuleText(p, rules[k], RulesText(p, rules[k + 1..], false)));
            s.ok ==> InTarget(p, rules, m, s.rest) && |s.value.target| < m
  {
    hide FieldLoop, Member, FieldOf, RoiText, ScanRoi, ScanString, Unescaped, KindOf, KindName, Quoted, RoiPrintable,
      RereadRoi, RulesText, InTarget, Inside, End, AfterTarget, Closing, Numeral, Dead, TapText, FlagText;
    var r, tail, end := rules[k], RulesText(p, rules[k + 1..], false), End(p, rules, k);
    BoundedAt(p, rules, m, k);
    EndIs(p, rules, k);
    EndCloses(p, rules, k);
    var body := OcrText(p, r, tail);
    var t := OcrMembers(p, r, tail, end);
    var s1 := DEFAULT.(kind := OCR);
    var s2 := s1.(roi := RereadRoi(p, r.roi));
    DetectionKeys();
    OcrKeys();
    NamesBack(r.action, r.kind);
    QuotedReads(KindName(r.kind), body);
    FieldTurn(true, "type", KindField, Quoted(KindName(r.kind)), body, DEFAULT, s1);
    RoiReads(p, r.roi, t);
    FieldTurn(false, "roi", RoiField, RoiText(p, r.roi), t, s1, s2);
    var start := Member(true, "type", Quoted(KindName(r.kind)), body);
    assert "{" + start == ['{'] + start;
    ExpectReads('{', start);
    var v := "\"" + (r.target + end);
    TargetReads(end, r.target, s2);
    TargetTurn(t, v, s2);
    var s := ReadField(TargetField, v, s2);
    if s.ok && Dead(s.rest) {
      DeadStops(s.rest, s.value);
    } else if s.ok {
      InsideMore(end, |r.target|, m, s.rest);
      InTargetOf(p, rules, m, k, s.rest);
      FieldsInside(p, rules, m, s.rest, false, s.value);
    }
  }

  lemma DeadStops(t: string, r: Rule)
    requires Dead(t)
    ensures !FieldLoop(t, false, r).ok
  {
    hide FieldLoop;
  }

  lemma InsideMore(end: string, m: nat, n: nat, t: string)
    requires Inside(end, m, t) && m <= n
    ensures Inside(end, n, t)
  {}

  lemma OcrMembers(p: Printer, r: Rule, tail: string, end: string) returns (t: string)
    requires end == AfterTarget(p, r, tail)
    ensures OcrText(p, r, tail) == Member(false, "roi", RoiText(p, r.roi), t)
    ensures NextMember(t, false) == Scan(true, Some("target"), "\"" + (r.target + end))
  {
    hide Member, RoiText, NextMember, FlagText, TapText, Unescaped;
    var t1 := Member(false, "exact_match", FlagText(r.exactMatch),
              Member(false, "case_sensitive", FlagText(r.caseSensitive), TapText(p, r, tail)));
    t := Member(false, "target", Quoted(r.target), t1);
    OcrKeys();
    MemberReads(false, "target", Quoted(r.target), t1);
    assert Quoted(r.target) + t1 == "\"" + (r.target + ("\"" + t1));
  }

  lemma TargetTurn(t: string, v: string, r: Rule)
    requires NextMember(t, false) == Scan(true, Some("target"), v)
    ensures var s := ReadField(TargetField, v, r);
            FieldLoop(t, false, r) == if s.ok then FieldLoop(s.rest, false, s.value) else Scan(false, r, s.rest)
  {
    hide NextMember, ReadField, FieldOf;
    OcrKeys();
  }

  /** No target that is read is as long as the longest that was written. */
  lemma {:induction false} RulesShorter(
      p: Printer, rules: seq<Rule>, m: nat, k: nat, first: bool, acc: seq<Rule>)
    requires Bounded(p, rules, m) && k <= |rules| && Shorter(acc, m)
    ensures var r := RuleLoop(RulesText(p, rules[k..], first), first, acc); r.Some? ==> Shorter(r.value, m)
    decreases |rules| - k
  {
    hide Printable, NextRule, ScanRule, RuleText, ValidRule, InTarget;
    if k == |rules| {
      EndReads(first);
    } else {
      var r, tail := rules[k], RulesText(p, rules[k + 1..], false);
      assert rules[k..][0] == r && rules[k..][1..] == rules[k + 1..];
      BoundedAt(p, rules, m, k);
      var t := RuleText(p, r, tail);
      RuleTextStarts(p, r, tail);
      NextRuleReads(first, t);
      RuleReads(p, r, tail);
      var s := ScanRule(t);
      if s.ok {
        var next := if ValidRule(s.value) then acc + [s.value] else acc;
        if r.kind == Detection {
          RulesShorter(p, rules, m, k + 1, false, next);
        } else {
          OcrInside(p, rules, m, k);
          RulesInside(p, rules, m, s.rest, false, next);
        }
      }
    }
  }

  lemma Longest(rules: seq<Rule>) returns (k: nat)
    requires !AllDetection(rules)
    ensures k < |rules| && rules[k].kind == OCR
    ensures forall i :: 0 <= i < |rules| && rules[i].kind == OCR ==> |rules[i].target| <= |rules[k].target|
  {
    var r :| r in rules && r.kind == OCR;
    k :| k < |rules| && rules[k] == r;
    for i := 0 to |rules|
      invariant k < |rules| && rules[k].kind == OCR
      invariant forall j :: 0 <= j < i && rules[j].kind == OCR ==> |rules[j].target| <= |rules[k].target|
    {
      if rules[i].kind == OCR && |rules[i].target| > |rules[k].target| { k := i; }
    }
  }

  /** A list with an OCR rule never comes back. */
  lemma OcrNeverReturns(p: Printer, rules: seq<Rule>)
    requires !AllDetection(rules) && forall r :: r in rules ==> Printable(p, r)
    ensures ParseRules(Serialize(p, rules)) != rules
  {
    hide RulesText, RuleLoop, Printable;
    var k := Longest(rules);
    var m := |rules[k].target|;
    assert rules[k] in rules;
    ParsedAreValid(Serialize(p, rules));
    if m >= 1 {
      assert forall i :: 0 <= i < |rules| ==> rules[i] in rules;
      var t := RulesText(p, rules, true);
      assert Serialize(p, rules) == ['['] + t;
      assert Skip(['['] + t) == ['['] + t;
      ExpectReads('[', t);
      assert rules[0..] == rules;
      RulesShorter(p, rules, m, 0, true, []);
    }
  }

  // ---- Exactly which lists come back ----------------------------------------------------------

  /** A Detection rule whose reals read back exactly and whose unwritten fields have their defaults. */
  predicate Kept(p: Printer, r: Rule) {
    && r.kind == Detection && ValidRule(r)
    && Read(p(r.minConfidence)) == r.minConfidence && Read(p(r.offsetX)) == r.offsetX && Read(p(r.offsetY)) == r.offsetY
    && r.action == PlainAction(r.action)
    && r == DEFAULT.(classId := r.classId, minConfidence := r.minConfidence, action := r.action, offsetX := r.offsetX,
                     offsetY := r.offsetY, minInterval := r.minInterval)
  }

  lemma KeptIff(p: Printer, r: Rule)
    ensures Kept(p, r) <==> ValidRule(r) && Reread(p, r) == r
  {
    hide Read;
  }

  lemma {:induction false} AllKeptIff(p: Printer, rules: seq<Rule>)
    requires AllDetection(rules)
    ensures |ValidOnes(RereadAll(p, rules))| <= |rules|
    ensures ValidOnes(RereadAll(p, rules)) == rules <==> forall r :: r in rules ==> Kept(p, r)
  {
    hide Kept, ValidRule, Reread;
    if rules != [] {
      var r, rest := rules[0], rules[1..];
      assert rules == [r] + rest && forall x :: x in rest ==> x in rules;
      AllKeptIff(p, rest);
      KeptIff(p, r);
      var out := ValidOnes(RereadAll(p, rest));
      assert ([Reread(p, r)] + RereadAll(p, rest))[1..] == RereadAll(p, rest);
      assert forall x :: x in rules <==> x == r || x in rest;
    }
  }

  /** Rules survive writing and parsing exactly when all are valid Detection rules whose reals read back exactly and
      whose unwritten fields have their defaults. */
  lemma RoundTripIff(p: Printer, rules: seq<Rule>)
    requires forall r :: r in rules ==> Printable(p, r)
    ensures ParseRules(Serialize(p, rules)) == rules <==> forall r :: r in rules ==> Kept(p, r)
  {
    hide ParseRules, Serialize, Printable, ValidOnes, RereadAll, ValidRule;
    if AllDetection(rules) {
      SerializedParses(p, rules);
      AllKeptIff(p, rules);
    } else {
      OcrNeverReturns(p, rules);
    }
  }
}
