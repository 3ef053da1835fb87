/** Parsing hot-path rules from JSON (daemon/hotpath/rule_parser.cpp). A number too large for its integer
    type, which C++ leaves undefined, keeps its mathematical value here. */
module RuleParser {
  import opened Bytes
  import opened Numbers
  import opened Rules
  import opened Tokenizer

  function KindOf(s: string): Kind { if s == "ocr" then OCR else Detection }

  function ActionOf(s: string): int {
    if s == "swipe" then SWIPE else if s == "wait" then WAIT else if s == "complete" then COMPLETE else TAP
  }

  // ---- Object members -------------------------------------------------------------------------

  /** The next key of an object, past its colon, or none at the closing brace. */
  function NextMember(t: string, first: bool): (r: Scan<Option<string>>)
    ensures |r.rest| <= |t| && (r.ok ==> |r.rest| < |t|)
  {
    var u := Skip(t);
    if Peek(u) == '}' then Scan(true, None, u[1..])
    else
      var c := if first then Scan(true, (), u) else Expect(u, ',');
      if !c.ok then Scan(false, None, c.rest)
      else
        var k := ScanString(c.rest);
        if !k.ok then Scan(false, None, k.rest)
        else
          var d := Expect(k.rest, ':');
          if !d.ok then Scan(false, None, d.rest) else Scan(true, Some(k.value), d.rest)
  }

  function ScanInt(t: string): (r: Scan<int>)
    ensures |r.rest| <= |t|
  {
    var n := ScanNumber(t);
    Scan(n.ok, Truncate(n.value), n.rest)
  }

  /** A flag as a string or as a number. Other values are not consumed and leave the flag as it is. */
  function ScanFlag(t: string, flag: bool): (r: Scan<bool>)
    ensures |r.rest| <= |t|
  {
    if Peek(t) == '"' then
      var x := ScanString(t);
      Scan(true, x.value == "true" || x.value == "1", x.rest)
    else
      var n := ScanInt(t);
      Scan(true, if n.ok then n.value != 0 else flag, n.rest)
  }

  function SetRoi(key: string, v: real, roi: Roi): Roi {
    if key == "x" then roi.(x := v)
    else if key == "y" then roi.(y := v)
    else if key == "width" || key == "w" then roi.(width := v)
    else if key == "height" || key == "h" then roi.(height := v)
    else roi
  }

  function RoiLoop(t: string, first: bool, roi: Roi): (r: Scan<Roi>)
    ensures |r.rest| <= |t|
    decreases |t|
  {
    var m := NextMember(t, first);
    if !m.ok then Scan(false, roi, m.rest)
    else if m.value.None? then Scan(true, roi, m.rest)
    else
      var n := ScanNumber(m.rest);
      RoiLoop(n.rest, false, if n.ok then SetRoi(m.value.value, n.value, roi) else roi)
  }

  function ScanRoi(t: string, roi: Roi): (r: Scan<Roi>)
    ensures |r.rest| <= |t|
  {
    var b := Expect(t, '{');
    if !b.ok then Scan(false, roi, b.rest) else RoiLoop(b.rest, true, roi)
  }

  /** Skip to the end of a nested object or array, or of the text. */
  function SkipNested(t: string, depth: nat): (r: string)
    ensures |r| <= |t|
  {
    if depth == 0 || t == "" then t
    else if t[0] == '{' || t[0] == '[' then SkipNested(t[1..], depth + 1)
    else if t[0] == '}' || t[0] == ']' then SkipNested(t[1..], depth - 1)
    else SkipNested(t[1..], depth)
  }

  function SkipValue(t: string): (r: string)
    ensures |r| <= |t|
  {
    var u := Skip(t);
    if Peek(u) == '"' then ScanString(u).rest
    else if Peek(u) == '{' || Peek(u) == '[' then SkipNested(u[1..], 1)
    else ScanNumber(u).rest
  }

  // ---- Rules ----------------------------------------------------------------------------------

  /** An action by name, or by number for old files. */
  function ScanAction(t: string): (r: Scan<int>)
    ensures |r.rest| <= |t|
  {
    var x := ScanString(t);
    if x.ok then Scan(true, ActionOf(x.value), x.rest) else ScanInt(x.rest)
  }

  datatype Field = KindField | ActionField | ClassField | IntervalField | TargetField | ExactField
    | CaseField | RoiField
    | RealField(name: string) | PriorityField | OtherField

  /** The field a key stands for. */
  function FieldOf(key: string): Field {
    if key == "type" || key == "rule_type" then KindField
    else if key == "class_id" then ClassField
    else if key == "min_confidence" then RealField("min_confidence")
    else if key == "action" || key == "action_type" then ActionField
    else if key == "tap_offset_x" || key == "offset_x" then RealField("tap_offset_x")
    else if key == "tap_offset_y" || key == "offset_y" then RealField("tap_offset_y")
    else if key == "min_interval_ms" || key == "interval" then IntervalField
    else if key == "target" || key == "target_text" then TargetField
    else if key == "exact_match" then ExactField
    else if key == "case_sensitive" then CaseField
    else if key == "tap_x" then RealField("tap_x")
    else if key == "tap_y" then RealField("tap_y")
    else if key == "roi" || key == "ocr_roi" then RoiField
    else if key == "priority" then PriorityField
    else OtherField
  }

  function SetReal(name: string, v: real, r: Rule): Rule {
    if name == "min_confidence" then r.(minConfidence := v)
    else if name == "tap_offset_x" then r.(offsetX := v)
    else if name == "tap_offset_y" then r.(offsetY := v)
    else if name == "tap_x" then r.(tapX := v)
    else r.(tapY := v)
  }

  function ReadField(f: Field, t: string, r: Rule): (s: Scan<Rule>)
    ensures |s.rest| <= |t|
  {
    match f
    case KindField => var x := ScanString(t); Scan(x.ok, if x.ok then r.(kind := KindOf(x.value)) else r, x.rest)
    case ActionField => var x := ScanAction(t); Scan(x.ok, if x.ok then r.(action := x.value) else r, x.rest)
    case ClassField => var x := ScanInt(t); Scan(x.ok, if x.ok then r.(classId := x.value) else r, x.rest)
    case IntervalField => var x := ScanInt(t); Scan(x.ok, if x.ok then r.(minInterval := x.value) else r, x.rest)
    case TargetField => var x := ScanString(t); Scan(x.ok, if x.ok then r.(target := x.value) else r, x.rest)
    case ExactField => var x := ScanFlag(t, r.exactMatch); Scan(true, r.(exactMatch := x.value), x.rest)
    case CaseField => var x := ScanFlag(t, r.caseSensitive); Scan(true, r.(caseSensitive := x.value), x.rest)
    case RoiField => var x := ScanRoi(t, r.roi); Scan(x.ok, if x.ok then r.(roi := x.value) else r, x.rest)
    case RealField(name) => var x := ScanNumber(t); Scan(x.ok, if x.ok then SetReal(name, x.value, r) else r, x.rest)
    case PriorityField => Scan(true, r, ScanInt(t).rest)
    case OtherField => Scan(true, r, SkipValue(t))
  }

  function FieldLoop(t: string, first: bool, r: Rule): (s: Scan<Rule>)
    ensures |s.rest| <= |t|
    decreases |t|
  {
    var m := NextMember(t, first);
    if !m.ok then Scan(false, r, m.rest)
    else if m.value.None? then Scan(true, r, m.rest)
    else
      var f := ReadField(FieldOf(m.value.value), m.rest, r);
      if !f.ok then Scan(false, r, f.rest) else FieldLoop(f.rest, false, f.value)
  }

  /** `parse_single_rule`. */
  function ScanRule(t: string): (s: Scan<Rule>)
    ensures |s.rest| <= |t| && (s.ok ==> |s.rest| < |t|)
  {
    var b := Expect(t, '{');
    if !b.ok then Scan(false, DEFAULT, b.rest) else FieldLoop(b.rest, true, DEFAULT)
  }

  /** The text before the next rule, or nothing left to read at the end or at a missing comma. */
  function NextRule(t: string, first: bool): (s: Scan<bool>)
    ensures |s.rest| <= |t|
  {
    var u := Skip(t);
    if Peek(u) == ']' then Scan(true, false, u[1..])
    else
      var c := if first then Scan(true, (), u) else Expect(u, ',');
      Scan(c.ok, true, c.rest)
  }

  function RuleLoop(t: string, first: bool, rules: seq<Rule>): Option<seq<Rule>>
    decreases |t|
  {
    var n := NextRule(t, first);
    if !n.ok then None
    else if !n.value then Some(rules)
    else
      var r := ScanRule(n.rest);
      if !r.ok then None else RuleLoop(r.rest, false, if ValidRule(r.value) then rules + [r.value] else rules)
  }

  /** `parse_json`. */
  function ParseRules(json: string): seq<Rule> {
    var b := Expect(Skip(json), '[');
    var r := if b.ok then RuleLoop(b.rest, true, []) else None;
    if json == "" || r.None? then [] else r.value
  }

  // ---- Valid rules, in text order -------------------------------------------------------------

  /** The rules of the text in order, valid or not, up to the first one that does not parse. */
  function RulesIn(t: string, first: bool): seq<Rule>
    decreases |t|
  {
    var n := NextRule(t, first);
    if !n.ok || !n.value then []
    else
      var r := ScanRule(n.rest);
      if !r.ok then [] else [r.value] + RulesIn(r.rest, false)
  }

  function ValidOnes(rules: seq<Rule>): (r: seq<Rule>)
    ensures forall x :: x in r ==> ValidRule(x) && x in rules
  {
    if rules == [] then []
    else if ValidRule(rules[0]) then [rules[0]] + ValidOnes(rules[1..]) else ValidOnes(rules[1..])
  }

  lemma {:induction false} LoopKeepsValid(t: string, first: bool, rules: seq<Rule>)
    ensures RuleLoop(t, first, rules).Some? ==> RuleLoop(t, first, rules).value == rules + ValidOnes(RulesIn(t, first))
    decreases |t|
  {
    hide NextRule, ScanRule, ValidRule;
    var n := NextRule(t, first);
    if n.ok && n.value {
      var r := ScanRule(n.rest);
      if r.ok {
        LoopKeepsValid(r.rest, false, if ValidRule(r.value) then rules + [r.value] else rules);
        var more := RulesIn(r.rest, false);
        assert ([r.value] + more)[1..] == more;
      }
    }
  }

  /** The parser returns the valid rules among those of the text, in text order; or nothing. */
  lemma ParsedAreValid(json: string)
    ensures ParseRules(json) == [] || ParseRules(json) == ValidOnes(RulesIn(Expect(Skip(json), '[').rest, true))
    ensures forall r :: r in ParseRules(json) ==> ValidRule(r)
  {
    hide RuleLoop, RulesIn, ValidOnes, ValidRule;
    LoopKeepsValid(Expect(Skip(json), '[').rest, true, []);
  }

  // ---- The code -------------------------------------------------------------------------------

  method ParseMember(tok: JsonTokenizer, first: bool) returns (ok: bool, key: Option<string>)
    requires tok.Valid()
    modifies tok
    ensures tok.Valid() && old(tok.pos) <= tok.pos && Scan(ok, key, tok.Rest()) == NextMember(old(tok.Rest()), first)
  {
    hide Skip, Expect, ScanString;
    key := None;
    tok.SkipWhitespace();
    if tok.PeekChar() == '}' {
      tok.Consume();
      return true, None;
    }
    if !first {
      ok := tok.ExpectChar(',');
      if !ok { return; }
    }
    var name;
    ok, name := tok.ParseString();
    if !ok { return; }
    ok := tok.ExpectChar(':');
    if ok { key := Some(name); }
  }

  method ParseInt(tok: JsonTokenizer) returns (ok: bool, n: int)
    requires tok.Valid()
    modifies tok
    ensures tok.Valid() && old(tok.pos) <= tok.pos && Scan(ok, n, tok.Rest()) == ScanInt(old(tok.Rest()))
  {
    hide ScanNumber, Truncate;
    var v;
    ok, v := tok.ParseNumber();
    n := Truncate(v);
  }

  method ParseFlag(tok: JsonTokenizer, flag: bool) returns (value: bool)
    requires tok.Valid()
    modifies tok
    ensures tok.Valid() && old(tok.pos) <= tok.pos && Scan(true, value, tok.Rest()) == ScanFlag(old(tok.Rest()), flag)
  {
    hide ScanInt, ScanString;
    if tok.PeekChar() == '"' {
      var _, s := tok.ParseString();
      return s == "true" || s == "1";
    }
    var ok, n := ParseInt(tok);
    value := if ok then n != 0 else flag;
  }

  method ParseRoi(tok: JsonTokenizer, roi: Roi) returns (ok: bool, r: Roi)
    requires tok.Valid()
    modifies tok
    ensures tok.Valid() && old(tok.pos) <= tok.pos && Scan(ok, r, tok.Rest()) == ScanRoi(old(tok.Rest()), roi)
  {
    hide NextMember, ScanNumber, Expect, SetRoi;
    r := roi;
    ok := tok.ExpectChar('{');
    if !ok { return; }
    ghost var t := tok.Rest();
    var first := true;
    while true
      invariant tok.Valid() && old(tok.pos) <= tok.pos
      invariant RoiLoop(tok.Rest(), first, r) == RoiLoop(t, true, roi)
      decreases |tok.Rest()|
    {
      var key;
      ok, key := ParseMember(tok, first);
      first := false;
      if !ok || key.None? { return; }
      var good, v := tok.ParseNumber();
      if good { r := SetRoi(key.value, v, r); }
    }
  }

  method ParseNested(tok: JsonTokenizer)
    requires tok.Valid()
    modifies tok
    ensures tok.Valid() && old(tok.pos) <= tok.pos && tok.Rest() == SkipNested(old(tok.Rest()), 1)
  {
    var depth := 1;
    while depth > 0 && tok.pos < |tok.json|
      invariant tok.Valid() && old(tok.pos) <= tok.pos
      invariant SkipNested(tok.Rest(), depth) == SkipNested(old(tok.Rest()), 1)
      decreases |tok.json| - tok.pos
    {
      var c := tok.PeekChar();
      tok.Consume();
      if c == '{' || c == '[' { depth := depth + 1; } else if c == '}' || c == ']' { depth := depth - 1; }
    }
  }

  method ParseOther(tok: JsonTokenizer)
    requires tok.Valid()
    modifies tok
    ensures tok.Valid() && old(tok.pos) <= tok.pos && tok.Rest() == SkipValue(old(tok.Rest()))
  {
    hide Skip, ScanString, ScanNumber, SkipNested;
    tok.SkipWhitespace();
    if tok.PeekChar() == '"' {
      var _, _ := tok.ParseString();
    } else if tok.PeekChar() == '{' || tok.PeekChar() == '[' {
      tok.Consume();
      ParseNested(tok);
    } else {
      var _, _ := tok.ParseNumber();
    }
  }

  method ParseField(tok: JsonTokenizer, f: Field, rule: Rule) returns (ok: bool, r: Rule)
    requires tok.Valid()
    modifies tok
    ensures tok.Valid() && old(tok.pos) <= tok.pos && Scan(ok, r, tok.Rest()) == ReadField(f, old(tok.Rest()), rule)
  {
    hide ScanString, ScanNumber, ScanInt, ScanFlag, ScanRoi, SkipValue, SetReal, KindOf, ActionOf;
    ok, r := true, rule;
    match f {
      case KindField => {
        var s;
        ok, s := tok.ParseString();
        if ok { r := r.(kind := KindOf(s)); }
      }
      case ActionField => {
        var s, n;
        ok, s := tok.ParseString();
        if ok {
          r := r.(action := ActionOf(s));
        } else {
          ok, n := ParseInt(tok);
          if ok { r := r.(action := n); }
        }
      }
      case ClassField => {
        var n;
        ok, n := ParseInt(tok);
        if ok { r := r.(classId := n); }
      }
      case IntervalField => {
        var n;
        ok, n := ParseInt(tok);
        if ok { r := r.(minInterval := n); }
      }
      case TargetField => {
        var s;
        ok, s := tok.ParseString();
        if ok { r := r.(target := s); }
      }
      case ExactField => {
        var b := ParseFlag(tok, r.exactMatch);
        r := r.(exactMatch := b);
      }
      case CaseField => {
        var b := ParseFlag(tok, r.caseSensitive);
        r := r.(caseSensitive := b);
      }
      case RoiField => {
        var roi;
        ok, roi := ParseRoi(tok, r.roi);
        if ok { r := r.(roi := roi); }
      }
      case RealField(name) => {
        var v;
        ok, v := tok.ParseNumber();
        if ok { r := SetReal(name, v, r); }
      }
      case PriorityField => {
        var _, _ := ParseInt(tok);
      }
      case OtherField => {
        ParseOther(tok);
      }
    }
  }

  method ParseSingleRule(tok: JsonTokenizer) returns (ok: bool, r: Rule)
    requires tok.Valid()
    modifies tok
    ensures tok.Valid() && old(tok.pos) <= tok.pos && Scan(ok, r, tok.Rest()) == ScanRule(old(tok.Rest()))
  {
    hide NextMember, ReadField, Expect, FieldOf;
    r := DEFAULT;
    ok := tok.ExpectChar('{');
    if !ok { return; }
    ghost var t := tok.Rest();
    var first := true;
    while true
      invariant tok.Valid() && old(tok.pos) <= tok.pos
      invariant FieldLoop(tok.Rest(), first, r) == FieldLoop(t, true, DEFAULT)
      decreases |tok.Rest()|
    {
      var key, next;
      ok, key := ParseMember(tok, first);
      first := false;
      if !ok || key.None? { return; }
      ok, next := ParseField(tok, FieldOf(key.value), r);
      if !ok { return; }
      r := next;
    }
  }

  method ParseJson(json: string) returns (rules: seq<Rule>)
    ensures rules == ParseRules(json)
    ensures forall r :: r in rules ==> ValidRule(r)
  {
    hide Skip, Expect, ScanRule, ValidRule;
    ParsedAreValid(json);
    if json == "" { return []; }
    var tok := new JsonTokenizer(json);
    tok.SkipWhitespace();
    var ok := tok.ExpectChar('[');
    if !ok { return []; }
    ghost var t := tok.Rest();
    rules := [];
    var first := true;
    while true
      invariant tok.Valid() && fresh(tok)
      invariant RuleLoop(tok.Rest(), first, rules) == RuleLoop(t, true, [])
      decreases |tok.Rest()|
    {
      tok.SkipWhitespace();
      if tok.PeekChar() == ']' { return; }
      if !first {
        ok := tok.ExpectChar(',');
        if !ok { return []; }
      }
      first := false;
      var rule;
      ok, rule := ParseSingleRule(tok);
      if !ok { return []; }
      if ValidRule(rule) { rules := rules + [rule]; }
    }
  }
}
