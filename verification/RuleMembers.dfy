/** What a rule file means to the parser (daemon/hotpath/rule_parser.cpp): the members of a rule in any order and under
    either of their names, with escaped strings, numbers, blanks and members to be ignored. */
module RuleMembers {
  import opened Bytes
  import opened Numbers
  import opened Rules
  import opened Text
  import opened Tokenizer
  import opened RuleParser
  import opened Writer = RuleText
  import RoundTrip = RuleRoundTrip

  // ---- Members and what they set --------------------------------------------------------------

  datatype Side = SideX | SideY | SideWidth | SideHeight

  datatype Part = Part(side: Side, number: string)

  datatype Ignorable = Remark(text: string) | Count(number: string) | Nested(inner: string)

  /** A member of a rule. Numbers are given by their text. */
  datatype Item =
    | TypeIs(name: string) | ClassIs(number: string) | ConfidenceIs(number: string)
    | ActionIs(name: string) | ActionNumber(number: string)
    | OffsetX(number: string) | OffsetY(number: string) | TapX(number: string) | TapY(number: string)
    | IntervalIs(number: string) | TargetIs(target: string)
    | ExactIs(word: string) | ExactNumber(number: string) | CaseIs(word: string) | CaseNumber(number: string)
    | RoiIs(parts: seq<Part>, short: bool)
    | Priority(number: string) | Unknown(key: string, value: Ignorable)

  function Whole(number: string): int { Truncate(Read(number)) }

  function SetSide(part: Part, roi: Roi): Roi {
    match part.side
    case SideX => roi.(x := Read(part.number))
    case SideY => roi.(y := Read(part.number))
    case SideWidth => roi.(width := Read(part.number))
    case SideHeight => roi.(height := Read(part.number))
  }

  function SetSides(parts: seq<Part>, roi: Roi): Roi
    decreases |parts|
  {
    if parts == [] then roi else SetSides(parts[1..], SetSide(parts[0], roi))
  }

  /** An action that has no name is a tap. */
  function NamedAction(name: string): int {
    match name
    case "swipe" => SWIPE
    case "wait" => WAIT
    case "complete" => COMPLETE
    case _ => TAP
  }

  /** What a member makes of a rule. */
  function Set(item: Item, r: Rule): Rule {
    match item
    case TypeIs(name) => r.(kind := if name == "ocr" then OCR else Detection)
    case ClassIs(number) => r.(classId := Whole(number))
    case ConfidenceIs(number) => r.(minConfidence := Read(number))
    case ActionIs(name) => r.(action := NamedAction(name))
    case ActionNumber(number) => r.(action := Whole(number))
    case OffsetX(number) => r.(offsetX := Read(number))
    case OffsetY(number) => r.(offsetY := Read(number))
    case TapX(number) => r.(tapX := Read(number))
    case TapY(number) => r.(tapY := Read(number))
    case IntervalIs(number) => r.(minInterval := Whole(number))
    case TargetIs(target) => r.(target := target)
    case ExactIs(word) => r.(exactMatch := word in {"true", "1"})
    case ExactNumber(number) => r.(exactMatch := Whole(number) != 0)
    case CaseIs(word) => r.(caseSensitive := word in {"true", "1"})
    case CaseNumber(number) => r.(caseSensitive := Whole(number) != 0)
    case RoiIs(parts, _) => r.(roi := SetSides(parts, r.roi))
    case Priority(_) => r
    case Unknown(_, _) => r
  }

  // ---- How they are written -------------------------------------------------------------------

  predicate Blank(s: string) { forall i :: 0 <= i < |s| ==> IsSpace(s[i]) }

  function Escape(c: char): string {
    if c == '"' then "\\\"" else if c == '\\' then "\\\\" else if c == '\n' then "\\n" else if c == '\t' then "\\t"
    else if c == '\r' then "\\r" else [c]
  }

  function Escaped(s: string): string { if s == "" then "" else Escape(s[0]) + Escaped(s[1..]) }

  function StringText(s: string): string { "\"" + Escaped(s) + "\"" }

  function SideName(side: Side, short: bool): string {
    match side
    case SideX => "x"
    case SideY => "y"
    case SideWidth => if short then "w" else "width"
    case SideHeight => if short then "h" else "height"
  }

  /** The names of the members, the second one where there are two. */
  function KeyName(item: Item, second: bool): string {
    match item
    case TypeIs(_) => if second then "rule_type" else "type"
    case ClassIs(_) => "class_id"
    case ConfidenceIs(_) => "min_confidence"
    case ActionIs(_) => if second then "action_type" else "action"
    case ActionNumber(_) => if second then "action_type" else "action"
    case OffsetX(_) => if second then "offset_x" else "tap_offset_x"
    case OffsetY(_) => if second then "offset_y" else "tap_offset_y"
    case TapX(_) => "tap_x"
    case TapY(_) => "tap_y"
    case IntervalIs(_) => if second then "interval" else "min_interval_ms"
    case TargetIs(_) => if second then "target_text" else "target"
    case ExactIs(_) => "exact_match"
    case ExactNumber(_) => "exact_match"
    case CaseIs(_) => "case_sensitive"
    case CaseNumber(_) => "case_sensitive"
    case RoiIs(_, _) => if second then "ocr_roi" else "roi"
    case Priority(_) => "priority"
    case Unknown(key, _) => key
  }

  const KNOWN: set<string> := {
    "type", "rule_type", "class_id", "min_confidence", "action", "action_type", "tap_offset_x", "offset_x",
    "tap_offset_y", "offset_y", "min_interval_ms", "interval", "target", "target_text", "exact_match",
    "case_sensitive", "tap_x", "tap_y", "roi", "ocr_roi", "priority"
  }

  /** A member, with blanks `s` before each of its parts but its value, and followed by `tail`. */
  function KeyText(s: string, first: bool, key: string, value: string, tail: string): string {
    s + ((if first then "" else ",") + (s + (StringText(key) + (s + (":" + (value + tail))))))
  }

  function PartsText(s: string, parts: seq<Part>, short: bool, first: bool, tail: string): string
    decreases |parts|
  {
    if parts == [] then s + ("}" + tail)
    else
      var rest := PartsText(s, parts[1..], short, false, tail);
      KeyText(s, first, SideName(parts[0].side, short), s + parts[0].number, rest)
  }

  /** A value, with blanks before it; a flag as a word has to follow its colon at once. */
  function ValueText(s: string, item: Item, tail: string): string {
    match item
    case TypeIs(name) => s + (StringText(name) + tail)
    case ActionIs(name) => s + (StringText(name) + tail)
    case TargetIs(target) => s + (StringText(target) + tail)
    case ExactIs(word) => StringText(word) + tail
    case CaseIs(word) => StringText(word) + tail
    case RoiIs(parts, short) => s + ("{" + PartsText(s, parts, short, true, tail))
    case Unknown(_, Remark(text)) => s + (StringText(text) + tail)
    case Unknown(_, Nested(inner)) => s + ("{" + (inner + ("}" + tail)))
    case Unknown(_, Count(number)) => s + (number + tail)
    case _ => s + (item.number + tail)
  }

  /** Numbers are numbers, and what is unknown is so and has no brackets inside. */
  predicate Proper(item: Item) {
    match item
    case TypeIs(_) => true
    case ActionIs(_) => true
    case TargetIs(_) => true
    case ExactIs(_) => true
    case CaseIs(_) => true
    case RoiIs(parts, _) => forall i :: 0 <= i < |parts| ==> Numeral(parts[i].number)
    case Unknown(key, value) =>
      key !in KNOWN && (value.Count? ==> Numeral(value.number)) && (value.Nested? ==> RoundTrip.Flat(value.inner))
    case _ => Numeral(item.number)
  }

  // ---- Tokens ---------------------------------------------------------------------------------

  lemma {:induction false} SkipBlank(s: string, t: string)
    requires Blank(s) && t != "" && !IsSpace(t[0])
    ensures Skip(s + t) == t
  {
    if s == "" {
      assert s + t == t;
      NoSpaces(t);
    } else {
      assert (s + t)[1..] == s[1..] + t && IsSpace(s[0]);
      SkipBlank(s[1..], t);
    }
  }

  lemma ExpectBlank(s: string, c: char, t: string)
    requires Blank(s) && !IsSpace(c)
    ensures Expect(s + ([c] + t), c) == Scan(true, (), t)
  {
    SkipBlank(s, [c] + t);
    assert ([c] + t)[1..] == t;
  }

  lemma {:induction false} EscapedReads(s: string, tail: string)
    ensures Body(Escaped(s) + ("\"" + tail)) == Scan(true, s, "\"" + tail)
  {
    hide Body, Escape;
    if s == "" {
      assert Escaped(s) + ("\"" + tail) == "\"" + tail;
      RoundTrip.BodyStops("\"" + tail);
    } else {
      var rest := Escaped(s[1..]) + ("\"" + tail);
      assert Escaped(s) + ("\"" + tail) == Escape(s[0]) + rest;
      EscapedReads(s[1..], tail);
      EscapeReads(s[0], rest);
      assert [s[0]] + s[1..] == s;
    }
  }

  lemma EscapeReads(c: char, rest: string)
    ensures Body(Escape(c) + rest) == Scan(true, [c] + Body(rest).value, Body(rest).rest)
  {
    hide Body;
    var e := Escape(c);
    if |e| == 2 {
      assert e == ['\\', e[1]] && Unescape(e[1]) == c;
      BodyEscape(e[1], rest);
    } else {
      BodyPlain(c, rest);
    }
  }

  lemma BodyEscape(d: char, rest: string)
    ensures Body(['\\', d] + rest) == Scan(true, [Unescape(d)] + Body(rest).value, Body(rest).rest)
  {
    assert (['\\', d] + rest)[2..] == rest;
  }

  lemma BodyPlain(c: char, rest: string)
    requires c != '"' && c != '\\'
    ensures Body([c] + rest) == Scan(true, [c] + Body(rest).value, Body(rest).rest)
  {
    assert ([c] + rest)[1..] == rest;
  }

  lemma StringReads(s: string, text: string, tail: string)
    requires Blank(s)
    ensures ScanString(s + (StringText(text) + tail)) == Scan(true, text, tail)
  {
    hide Body, Escaped;
    var t := StringText(text) + tail;
    SkipBlank(s, t);
    EscapedReads(text, tail);
    assert t[1..] == Escaped(text) + ("\"" + tail);
    assert ("\"" + tail)[1..] == tail;
  }

  lemma NumberReads(s: string, number: string, tail: string)
    requires Blank(s) && Numeral(number) && EndsNumber(tail)
    ensures ScanNumber(s + (number + tail)) == Scan(true, Read(number), tail)
  {
    hide Digits, Fraction, Exponent, Decimal, Read;
    var t := number + tail;
    SkipBlank(s, t);
    NumeralReads(number, tail);
    NoSpaces(t);
    SkippedNumber(s + t, t);
  }

  lemma SkippedNumber(t: string, u: string)
    requires Skip(t) == u && Skip(u) == u
    ensures ScanNumber(t) == ScanNumber(u)
  {
    hide Skip, Digits, Fraction, Exponent, Decimal;
  }

  /** A key, whatever blanks are around it. */
  lemma KeyReads(s: string, first: bool, key: string, value: string, tail: string)
    requires Blank(s)
    ensures NextMember(KeyText(s, first, key, value, tail), first) == Scan(true, Some(key), value + tail)
    ensures KeyText(s, first, key, value, tail) != ""
    ensures first || EndsNumber(KeyText(s, first, key, value, tail))
  {
    hide Expect, ScanString, Escaped;
    var end := value + tail;
    var colon := s + (":" + end);
    var quoted := StringText(key) + colon;
    ExpectBlank(s, ':', end);
    assert ":" + end == [':'] + end;
    StringReads(s, key, colon);
    StringReads("", key, colon);
    assert "" + quoted == quoted && "" + (s + quoted) == s + quoted;
    var t := KeyText(s, first, key, value, tail);
    if first {
      BlankTwice(s);
      assert t == (s + s) + quoted;
      SkipBlank(s + s, quoted);
    } else {
      var comma := "," + (s + quoted);
      SkipBlank(s, comma);
      ExpectBlank("", ',', s + quoted);
      assert comma == "" + ([','] + (s + quoted));
      BlankEnds(s, comma);
    }
  }

  lemma BlankTwice(s: string)
    requires Blank(s)
    ensures Blank(s + s)
  {}

  lemma BlankEnds(s: string, t: string)
    requires Blank(s) && EndsNumber(t)
    ensures EndsNumber(s + t)
  {
    if s == "" { assert s + t == t; } else { assert IsSpace(s[0]); }
  }

  // ---- Members --------------------------------------------------------------------------------

  lemma SideNames(side: Side, short: bool, v: real, roi: Roi)
    ensures SetRoi(SideName(side, short), v, roi)
         == match side
            case SideX => roi.(x := v)
            case SideY => roi.(y := v)
            case SideWidth => roi.(width := v)
            case SideHeight => roi.(height := v)
  {}

  lemma {:induction false} PartsRead(s: string, parts: seq<Part>, short: bool, first: bool, tail: string, roi: Roi)
    requires Blank(s) && forall i :: 0 <= i < |parts| ==> Numeral(parts[i].number)
    ensures RoiLoop(PartsText(s, parts, short, first, tail), first, roi) == Scan(true, SetSides(parts, roi), tail)
    ensures first || EndsNumber(PartsText(s, parts, short, first, tail))
    decreases |parts|
  {
    hide NextMember, ScanNumber, KeyText, SetRoi, SideName, Numeral, Read;
    if parts == [] {
      CloseReads(s, tail, first);
    } else {
      var part, rest := parts[0], PartsText(s, parts[1..], short, false, tail);
      assert Numeral(part.number);
      PartsRead(s, parts[1..], short, false, tail, SetSide(part, roi));
      KeyReads(s, first, SideName(part.side, short), s + part.number, rest);
      assert s + part.number + rest == s + (part.number + rest);
      NumberReads(s, part.number, rest);
      SideNames(part.side, short, Read(part.number), roi);
    }
  }

  lemma CloseReads(s: string, tail: string, first: bool)
    requires Blank(s)
    ensures NextMember(s + ("}" + tail), first) == Scan(true, None, tail)
    ensures EndsNumber(s + ("}" + tail))
  {
    SkipBlank(s, "}" + tail);
    assert ("}" + tail)[1..] == tail;
    BlankEnds(s, "}" + tail);
  }

  /** The field of each member. */
  function FieldFor(item: Item): Field {
    match item
    case TypeIs(_) => KindField
    case ClassIs(_) => ClassField
    case ConfidenceIs(_) => RealField("min_confidence")
    case ActionIs(_) => ActionField
    case ActionNumber(_) => ActionField
    case OffsetX(_) => RealField("tap_offset_x")
    case OffsetY(_) => RealField("tap_offset_y")
    case TapX(_) => RealField("tap_x")
    case TapY(_) => RealField("tap_y")
    case IntervalIs(_) => IntervalField
    case TargetIs(_) => TargetField
    case ExactIs(_) => ExactField
    case ExactNumber(_) => ExactField
    case CaseIs(_) => CaseField
    case CaseNumber(_) => CaseField
    case RoiIs(_, _) => RoiField
    case Priority(_) => PriorityField
    case Unknown(_, _) => OtherField
  }

  lemma SecondNames()
    ensures FieldOf("rule_type") == KindField && FieldOf("action_type") == ActionField
    ensures FieldOf("interval") == IntervalField
  {}

  lemma SecondOffsets()
    ensures FieldOf("offset_x") == RealField("tap_offset_x") && FieldOf("offset_y") == RealField("tap_offset_y")
  {}

  lemma SecondTargets()
    ensures FieldOf("target_text") == TargetField && FieldOf("ocr_roi") == RoiField
  {}

  lemma TapNames()
    ensures FieldOf("tap_x") == RealField("tap_x") && FieldOf("tap_y") == RealField("tap_y")
  {}

  lemma LastNames()
    ensures FieldOf("case_sensitive") == CaseField && FieldOf("priority") == PriorityField
  {}

  lemma UnknownName(key: string)
    requires key !in KNOWN
    ensures FieldOf(key) == OtherField
  {}

  lemma CommonFields(item: Item, second: bool)
    requires item.TypeIs? || item.ClassIs? || item.ConfidenceIs? || item.IntervalIs?
          || item.ActionIs? || item.ActionNumber?
    ensures FieldOf(KeyName(item, second)) == FieldFor(item)
  {
    hide FieldOf, Unescaped;
    DetectionKeys();
    CommonKeys();
    SecondNames();
  }

  lemma PlaceFields(item: Item, second: bool)
    requires item.OffsetX? || item.OffsetY? || item.TapX? || item.TapY?
    ensures FieldOf(KeyName(item, second)) == FieldFor(item)
  {
    hide FieldOf, Unescaped;
    OffsetKeys();
    SecondOffsets();
    TapNames();
  }

  lemma OcrFields(item: Item, second: bool)
    requires item.TargetIs? || item.ExactIs? || item.ExactNumber? || item.RoiIs?
    ensures FieldOf(KeyName(item, second)) == FieldFor(item)
  {
    hide FieldOf, Unescaped;
    OcrKeys();
    SecondTargets();
  }

  lemma OtherFields(item: Item, second: bool)
    requires item.CaseIs? || item.CaseNumber? || item.Priority?
    ensures FieldOf(KeyName(item, second)) == FieldFor(item)
  {
    hide FieldOf;
    LastNames();
  }

  predicate PlainNumber(item: Item) {
    || item.ClassIs? || item.ConfidenceIs? || item.OffsetX? || item.OffsetY? || item.TapX? || item.TapY?
    || item.IntervalIs? || item.Priority?
  }

  lemma PlainReads(s: string, item: Item, tail: string, r: Rule)
    requires Blank(s) && PlainNumber(item) && Numeral(item.number) && EndsNumber(tail)
    ensures ReadField(FieldFor(item), ValueText(s, item, tail), r) == Scan(true, Set(item, r), tail)
  {
    hide ScanNumber, Numeral, Read, Blank, EndsNumber, Truncate;
    NumberReads(s, item.number, tail);
  }

  lemma TextReads(s: string, item: Item, tail: string, r: Rule)
    requires Blank(s) && (item.TypeIs? || item.TargetIs? || item.ExactIs? || item.CaseIs?)
    ensures ReadField(FieldFor(item), ValueText(s, item, tail), r) == Scan(true, Set(item, r), tail)
  {
    hide ScanFlag, ScanRoi, ScanNumber, ScanString, StringText, Blank, SkipValue, ScanAction;
    match item
    case TypeIs(name) => StringReads(s, name, tail);
    case TargetIs(target) => StringReads(s, target, tail);
    case ExactIs(word) => FlagReads(word, tail, r.exactMatch);
    case CaseIs(word) => FlagReads(word, tail, r.caseSensitive);
  }

  lemma NumberedReads(s: string, item: Item, tail: string, r: Rule)
    requires Blank(s) && (item.ExactNumber? || item.CaseNumber? || item.ActionNumber?)
    requires Numeral(item.number) && EndsNumber(tail)
    ensures ReadField(FieldFor(item), ValueText(s, item, tail), r) == Scan(true, Set(item, r), tail)
  {
    hide ScanFlag, ScanRoi, ScanNumber, ScanString, StringText, Numeral, Read, Blank, EndsNumber, SkipValue, ScanAction;
    match item
    case ExactNumber(number) => FlagNumberReads(s, number, tail, r.exactMatch);
    case CaseNumber(number) => FlagNumberReads(s, number, tail, r.caseSensitive);
    case ActionNumber(number) => ActionNumberReads(s, number, tail, r);
  }

  lemma NestedReads(s: string, item: Item, tail: string, r: Rule)
    requires Blank(s) && Proper(item) && EndsNumber(tail) && (item.ActionIs? || item.RoiIs? || item.Unknown?)
    ensures ReadField(FieldFor(item), ValueText(s, item, tail), r) == Scan(true, Set(item, r), tail)
  {
    hide ScanFlag, ScanRoi, ScanNumber, ScanString, StringText, PartsText, Numeral, Read, Blank, EndsNumber, SkipValue;
    hide RoundTrip.Flat, SetSides, ScanAction;
    match item
    case ActionIs(name) => ActionReads(s, name, tail, r);
    case RoiIs(parts, short) => RoiReadsParts(s, parts, short, tail, r.roi);
    case Unknown(_, value) => UnknownReads(s, value, tail);
  }

  /** The value of a member is read as what the member sets, and nothing past it. */
  lemma ItemReads(s: string, item: Item, tail: string, r: Rule)
    requires Blank(s) && Proper(item) && EndsNumber(tail)
    ensures ReadField(FieldFor(item), ValueText(s, item, tail), r) == Scan(true, Set(item, r), tail)
  {
    hide ReadField, ValueText, Set, FieldFor, Blank, Numeral, EndsNumber;
    match item
    case TypeIs(_) => TextReads(s, item, tail, r);
    case TargetIs(_) => TextReads(s, item, tail, r);
    case ExactIs(_) => TextReads(s, item, tail, r);
    case CaseIs(_) => TextReads(s, item, tail, r);
    case ExactNumber(_) => NumberedReads(s, item, tail, r);
    case CaseNumber(_) => NumberedReads(s, item, tail, r);
    case ActionNumber(_) => NumberedReads(s, item, tail, r);
    case ActionIs(_) => NestedReads(s, item, tail, r);
    case RoiIs(_, _) => NestedReads(s, item, tail, r);
    case Unknown(_, _) => NestedReads(s, item, tail, r);
    case _ => PlainReads(s, item, tail, r);
  }

  lemma ActionReads(s: string, name: string, tail: string, r: Rule)
    requires Blank(s)
    ensures ReadField(ActionField, ValueText(s, ActionIs(name), tail), r)
         == Scan(true, r.(action := NamedAction(name)), tail)
  {
    hide ScanNumber, ScanString, StringText, Blank;
    StringReads(s, name, tail);
  }

  lemma FlagReads(word: string, tail: string, flag: bool)
    ensures ScanFlag(StringText(word) + tail, flag) == Scan(true, word in {"true", "1"}, tail)
  {
    hide ScanString, Escaped;
    StringReads("", word, tail);
    assert "" + (StringText(word) + tail) == StringText(word) + tail;
  }

  lemma NotQuoted(s: string, number: string, tail: string)
    requires Blank(s) && Numeral(number)
    ensures Skip(s + (number + tail)) == number + tail && Peek(number + tail) != '"' && Peek(number + tail) != '{'
    ensures Peek(number + tail) != '[' && Peek(s + (number + tail)) != '"'
  {
    hide Fraction, Exponent, Decimal;
    SkipBlank(s, number + tail);
    assert Skip(number) == number;
    if s == "" { assert s + (number + tail) == number + tail; } else { assert IsSpace(s[0]); }
  }

  lemma FlagNumberReads(s: string, number: string, tail: string, flag: bool)
    requires Blank(s) && Numeral(number) && EndsNumber(tail)
    ensures ScanFlag(s + (number + tail), flag) == Scan(true, Whole(number) != 0, tail)
  {
    hide ScanNumber, ScanString, Numeral, Blank, Skip;
    NotQuoted(s, number, tail);
    NumberReads(s, number, tail);
  }

  lemma ActionNumberReads(s: string, number: string, tail: string, r: Rule)
    requires Blank(s) && Numeral(number) && EndsNumber(tail)
    ensures ReadField(ActionField, s + (number + tail), r) == Scan(true, r.(action := Whole(number)), tail)
  {
    hide ScanNumber, Numeral, Skip, Body;
    NotQuoted(s, number, tail);
    NumberReads("", number, tail);
    assert "" + (number + tail) == number + tail;
  }

  lemma RoiReadsParts(s: string, parts: seq<Part>, short: bool, tail: string, roi: Roi)
    requires Blank(s) && forall i :: 0 <= i < |parts| ==> Numeral(parts[i].number)
    ensures ScanRoi(s + ("{" + PartsText(s, parts, short, true, tail)), roi) == Scan(true, SetSides(parts, roi), tail)
  {
    hide PartsText, RoiLoop, Numeral, Expect;
    var t := PartsText(s, parts, short, true, tail);
    ExpectBlank(s, '{', t);
    assert "{" + t == ['{'] + t;
    PartsRead(s, parts, short, true, tail, roi);
  }

  lemma UnknownReads(s: string, value: Ignorable, tail: string)
    requires Blank(s) && EndsNumber(tail)
    requires value.Count? ==> Numeral(value.number)
    requires value.Nested? ==> RoundTrip.Flat(value.inner)
    ensures SkipValue(ValueText(s, Unknown("", value), tail)) == tail
  {
    hide ScanNumber, ScanString, Escaped, Numeral, Skip, SkipNested, RoundTrip.Flat;
    match value
    case Remark(text) =>
      var t := StringText(text) + tail;
      SkipBlank(s, t);
      StringReads("", text, tail);
      assert "" + t == t && t[0] == '"';
    case Count(number) =>
      NotQuoted(s, number, tail);
      NumberReads("", number, tail);
      assert "" + (number + tail) == number + tail;
    case Nested(inner) =>
      var t := inner + ("}" + tail);
      SkipBlank(s, "{" + t);
      assert ("{" + t)[1..] == t;
      RoundTrip.SkipFlat(inner, "}" + tail, 1);
      RoundTrip.SkipOpen(tail, 1);
      NoNesting(tail);
  }

  lemma NoNesting(t: string)
    ensures SkipNested(t, 0) == t
  {}

  /** A flag as a word that does not follow its colon at once is left unread, and the rule fails. */
  lemma BlankBeforeFlagFails(s: string, first: bool, word: string, tail: string, r: Rule)
    requires Blank(s) && s != ""
    ensures !FieldLoop(KeyText(s, first, "exact_match", s + StringText(word), tail), first, r).ok
  {
    hide NextMember, KeyText, FieldOf, Escaped, Unescaped, ScanFlag, ScanString, ScanNumber, SkipValue, ScanRoi;
    var quoted := StringText(word) + tail;
    KeyReads(s, first, "exact_match", s + StringText(word), tail);
    assert s + StringText(word) + tail == s + quoted;
    OcrKeys();
    UnreadFlag(s, quoted, r.exactMatch);
    QuoteStops(quoted, r);
  }

  lemma UnreadFlag(s: string, t: string, flag: bool)
    requires Blank(s) && s != "" && t != "" && t[0] == '"'
    ensures ScanFlag(s + t, flag) == Scan(true, flag, t)
  {
    hide Fraction, Exponent, Decimal;
    SkipBlank(s, t);
    assert IsSpace(s[0]) && (s + t)[0] == s[0];
    assert LeadingDigits(t) == "" && t[0..] == t;
  }

  lemma QuoteStops(t: string, r: Rule)
    requires t != "" && t[0] == '"'
    ensures !FieldLoop(t, false, r).ok
  {
    hide ReadField, FieldOf;
    assert Skip(t) == t;
  }

  // ---- Rules ----------------------------------------------------------------------------------

  /** A member and which of its names it goes under. */
  datatype Entry = Entry(item: Item, second: bool)

  function EntriesText(s: string, entries: seq<Entry>, first: bool, tail: string): string
    decreases |entries|
  {
    if entries == [] then s + ("}" + tail)
    else
      var e, rest := entries[0], EntriesText(s, entries[1..], false, tail);
      KeyText(s, first, KeyName(e.item, e.second), "", ValueText(s, e.item, rest))
  }

  function SetAll(entries: seq<Entry>, r: Rule): Rule
    decreases |entries|
  {
    if entries == [] then r else SetAll(entries[1..], Set(entries[0].item, r))
  }

  predicate AllProper(entries: seq<Entry>) { forall e :: e in entries ==> Proper(e.item) }

  /** The members of a rule are read in turn, in whatever order and under whichever names they come, and what is
      unknown is passed over. */
  lemma {:induction false} EntriesRead(s: string, entries: seq<Entry>, first: bool, tail: string, r: Rule)
    requires Blank(s) && AllProper(entries)
    ensures FieldLoop(EntriesText(s, entries, first, tail), first, r) == Scan(true, SetAll(entries, r), tail)
    ensures first || EndsNumber(EntriesText(s, entries, first, tail))
    decreases |entries|
  {
    hide NextMember, ReadField, KeyText, KeyName, FieldOf, ValueText, Set, Proper, EndsNumber, Blank, FieldFor;
    if entries == [] {
      CloseReads(s, tail, first);
    } else {
      var e, rest := entries[0], EntriesText(s, entries[1..], false, tail);
      assert e in entries && forall x :: x in entries[1..] ==> x in entries;
      EntriesRead(s, entries[1..], false, tail, Set(e.item, r));
      var value := ValueText(s, e.item, rest);
      KeyReads(s, first, KeyName(e.item, e.second), "", value);
      assert "" + value == value;
      ProperKey(e.item, e.second);
      ItemReads(s, e.item, rest, r);
    }
  }

  lemma ProperKey(item: Item, second: bool)
    requires Proper(item)
    ensures FieldOf(KeyName(item, second)) == FieldFor(item)
  {
    hide FieldOf, KeyName, FieldFor, Proper;
    match item
    case OffsetX(_) => PlaceFields(item, second);
    case OffsetY(_) => PlaceFields(item, second);
    case TapX(_) => PlaceFields(item, second);
    case TapY(_) => PlaceFields(item, second);
    case TargetIs(_) => OcrFields(item, second);
    case ExactIs(_) => OcrFields(item, second);
    case ExactNumber(_) => OcrFields(item, second);
    case RoiIs(_, _) => OcrFields(item, second);
    case CaseIs(_) => OtherFields(item, second);
    case CaseNumber(_) => OtherFields(item, second);
    case Priority(_) => OtherFields(item, second);
    case Unknown(_, _) => UnknownField(item, second);
    case _ => CommonFields(item, second);
  }

  lemma UnknownField(item: Item, second: bool)
    requires item.Unknown? && Proper(item)
    ensures FieldOf(KeyName(item, second)) == FieldFor(item)
  {
    hide FieldOf, Numeral;
    UnknownName(item.key);
  }

  /** A rule without members: what each field is when it is not given. */
  lemma EmptyRule(s: string, tail: string)
    requires Blank(s)
    ensures ScanRule(s + ("{" + EntriesText(s, [], true, tail)))
         == Scan(true, Rule(Detection, -1, 0.5, 0.0, 0.0, Roi(0.0, 0.0, 0.0, 0.0), "", true, false,
                            0, 500, 0, 0, 300, 100, -1.0, -1.0), tail)
  {
    hide FieldLoop;
    var t := EntriesText(s, [], true, tail);
    ExpectBlank(s, '{', t);
    assert "{" + t == ['{'] + t;
    EntriesRead(s, [], true, tail, DEFAULT);
  }

  /** A rule is valid if its interval is not negative and it has what its kind needs: a class and a confidence of at
      most one, or a target and a region that is not empty and lies on the screen. */
  lemma ValidIff(r: Rule)
    ensures ValidRule(r)
       <==> && 0 <= r.minInterval
            && (r.kind.Detection? ==> 0 <= r.classId && 0.0 <= r.minConfidence <= 1.0)
            && (r.kind.OCR? ==> r.target != "" && 0.0 <= r.roi.x < r.roi.x + r.roi.width <= 1.0
                                && 0.0 <= r.roi.y < r.roi.y + r.roi.height <= 1.0)
  {}

  function ListText(s: string, rules: seq<seq<Entry>>, first: bool, tail: string): string
    decreases |rules|
  {
    if rules == [] then s + ("]" + tail)
    else
      var rest := ListText(s, rules[1..], false, tail);
      s + ((if first then "" else ",") + (s + ("{" + EntriesText(s, rules[0], true, rest))))
  }

  function SetRules(rules: seq<seq<Entry>>): seq<Rule> {
    if rules == [] then [] else [SetAll(rules[0], DEFAULT)] + SetRules(rules[1..])
  }

  lemma NextReads(s: string, first: bool, t: string)
    requires Blank(s)
    ensures var u := s + ((if first then "" else ",") + (s + ("{" + t)));
            var n := NextRule(u, first);
            n.ok && n.value && Expect(n.rest, '{') == Scan(true, (), t)
  {
    hide Expect;
    var brace := "{" + t;
    assert brace == ['{'] + t;
    ExpectBlank(s, '{', t);
    ExpectBlank("", '{', t);
    assert "" + brace == brace && "" + (s + brace) == s + brace;
    if first {
      BlankTwice(s);
      assert s + ("" + (s + brace)) == (s + s) + brace;
      SkipBlank(s + s, brace);
    } else {
      var comma := "," + (s + brace);
      SkipBlank(s, comma);
      ExpectBlank("", ',', s + brace);
      assert comma == "" + ([','] + (s + brace));
    }
  }

  lemma {:induction false} ListReads(s: string, rules: seq<seq<Entry>>, first: bool, tail: string, acc: seq<Rule>)
    requires Blank(s) && forall i :: 0 <= i < |rules| ==> AllProper(rules[i])
    ensures RuleLoop(ListText(s, rules, first, tail), first, acc) == Some(acc + ValidOnes(SetRules(rules)))
    decreases |rules|
  {
    hide NextRule, FieldLoop, Expect, EntriesText, SetAll, AllProper, ValidRule, Blank;
    if rules == [] {
      ListEnds(s, tail, first);
      assert acc + [] == acc;
    } else {
      var rest := ListText(s, rules[1..], false, tail);
      var body := EntriesText(s, rules[0], true, rest);
      NextReads(s, first, body);
      assert AllProper(rules[0]);
      EntriesRead(s, rules[0], true, rest, DEFAULT);
      var out := SetAll(rules[0], DEFAULT);
      ListReads(s, rules[1..], false, tail, if ValidRule(out) then acc + [out] else acc);
      ValidCons(out, SetRules(rules[1..]), acc);
    }
  }

  lemma ListEnds(s: string, tail: string, first: bool)
    requires Blank(s)
    ensures var n := NextRule(s + ("]" + tail), first); n.ok && !n.value
  {
    SkipBlank(s, "]" + tail);
  }

  /** What a rule file means: the rules that its members set, from the defaults, those that are then valid, in order;
      whatever blanks are between its tokens, and whatever follows it. */
  lemma FileParses(s: string, rules: seq<seq<Entry>>, tail: string)
    requires Blank(s) && forall i :: 0 <= i < |rules| ==> AllProper(rules[i])
    ensures ParseRules(s + ("[" + ListText(s, rules, true, tail))) == ValidOnes(SetRules(rules))
  {
    hide RuleLoop, ListText, AllProper, ValidOnes, SetRules;
    var t := ListText(s, rules, true, tail);
    SkipBlank(s, "[" + t);
    ExpectBlank("", '[', t);
    assert "[" + t == "" + (['['] + t);
    ListReads(s, rules, true, tail, []);
    var out := ValidOnes(SetRules(rules));
    assert [] + out == out;
  }
}
