/** Writing hot-path rules as JSON, and reading them back (daemon/hotpath/rule_parser.cpp). How a
    floating-point number is printed is an input. */
module RuleText {
  import opened Bytes
  import opened Rules
  import opened Text
  import opened Tokenizer
  import opened RuleParser

  type Printer = real -> string

  // ---- Writing --------------------------------------------------------------------------------

  function KindName(k: Kind): string { if k == OCR then "ocr" else "detection" }

  function ActionName(a: int): string {
    if a == SWIPE then "swipe" else if a == WAIT then "wait" else if a == COMPLETE then "complete" else "tap"
  }

  function Quoted(s: string): string { "\"" + s + "\"" }

  /** A member of an object, followed by `tail`. */
  function Member(first: bool, key: string, value: string, tail: string): string {
    (if first then "" else ",") + Quoted(key) + ":" + value + tail
  }

  function FlagText(b: bool): string { if b then "true" else "false" }

  /** The members after the ones only one kind of rule has. */
  function CommonText(p: Printer, r: Rule, tail: string): string {
    Member(false, "action", Quoted(ActionName(r.action)),
    Member(false, "tap_offset_x", p(r.offsetX),
    Member(false, "tap_offset_y", p(r.offsetY),
    Member(false, "min_interval_ms", PrintInt(r.minInterval), "}" + tail))))
  }

  function RoiText(p: Printer, r: Roi): string {
    "{" + Member(true, "x", p(r.x),
          Member(false, "y", p(r.y),
          Member(false, "width", p(r.width),
          Member(false, "height", p(r.height), "}"))))
  }

  function DetectionText(p: Printer, r: Rule, tail: string): string {
    Member(false, "class_id", PrintInt(r.classId),
    Member(false, "min_confidence", p(r.minConfidence), CommonText(p, r, tail)))
  }

  function TapText(p: Printer, r: Rule, tail: string): string {
    var y := if r.tapY >= 0.0 then Member(false, "tap_y", p(r.tapY), CommonText(p, r, tail))
        else CommonText(p, r, tail);
    if r.tapX >= 0.0 then Member(false, "tap_x", p(r.tapX), y) else y
  }

  function OcrText(p: Printer, r: Rule, tail: string): string {
    Member(false, "roi", RoiText(p, r.roi),
    Member(false, "target", Quoted(r.target),
    Member(false, "exact_match", FlagText(r.exactMatch),
    Member(false, "case_sensitive", FlagText(r.caseSensitive), TapText(p, r, tail)))))
  }

  /** A rule followed by `tail`. */
  function RuleText(p: Printer, r: Rule, tail: string): string {
    "{" + Member(true, "type", Quoted(KindName(r.kind)),
                 if r.kind == Detection then DetectionText(p, r, tail) else OcrText(p, r, tail))
  }

  function RulesText(p: Printer, rules: seq<Rule>, first: bool): string
    decreases |rules|
  {
    if rules == [] then "]"
    else (if first then "" else ",") + RuleText(p, rules[0], RulesText(p, rules[1..], false))
  }

  /** `serialize_rules`. */
  function Serialize(p: Printer, rules: seq<Rule>): string { "[" + RulesText(p, rules, true) }

  // ---- Reading strings and keys back ----------------------------------------------------------

  /** Free of quotes and backslashes, which the writer does not escape. */
  predicate Unescaped(s: string) { '"' !in s && '\\' !in s }

  lemma {:induction false} BodyReads(s: string, tail: string)
    requires Unescaped(s)
    ensures Body(s + "\"" + tail) == Scan(true, s, "\"" + tail)
  {
    var t := s + "\"" + tail;
    if s == "" {
      assert t == "\"" + tail;
    } else {
      assert t[0] == s[0] && t[0] in s && t[1..] == s[1..] + "\"" + tail;
      assert forall c :: c in s[1..] ==> c in s;
      BodyReads(s[1..], tail);
      assert [s[0]] + s[1..] == s;
    }
  }

  lemma QuotedReads(s: string, tail: string)
    requires Unescaped(s)
    ensures ScanString(Quoted(s) + tail) == Scan(true, s, tail)
  {
    hide Body;
    var t := Quoted(s) + tail;
    BodyReads(s, tail);
    assert t[0] == '"' && t[1..] == s + "\"" + tail;
    assert ("\"" + tail)[1..] == tail;
  }

  lemma ExpectReads(c: char, tail: string)
    requires !IsSpace(c)
    ensures Expect([c] + tail, c) == Scan(true, (), tail)
  {
    assert ([c] + tail)[1..] == tail;
  }

  lemma MemberReads(first: bool, key: string, value: string, tail: string)
    requires Unescaped(key)
    ensures NextMember(Member(first, key, value, tail), first) == Scan(true, Some(key), value + tail)
  {
    hide Expect, ScanString;
    var t := Member(first, key, value, tail);
    var body := Quoted(key) + (":" + (value + tail));
    assert t == (if first then "" else ",") + body;
    assert Skip(t) == t;
    ExpectReads(',', body);
    ExpectReads(':', value + tail);
    QuotedReads(key, ":" + (value + tail));
    assert "," + body == [','] + body && ":" + (value + tail) == [':'] + (value + tail);
    assert first ==> "" + body == body;
  }

  // ---- Reading numbers back -------------------------------------------------------------------

  /** The text starts with a character that ends a number. */
  predicate Delimited(t: string) { t != "" && (t[0] == ',' || t[0] == '}' || t[0] == '"') }

  /** The text starts with a character that cannot go on a number. */
  predicate EndsNumber(t: string) {
    t != "" && !IsDigit(t[0]) && t[0] != '.' && t[0] != 'e' && t[0] != 'E' && t[0] != '+' && t[0] != '-'
  }

  /** `s` is read, whole, as a number. */
  predicate Numeral(s: string) { s != "" && !IsSpace(s[0]) && ScanNumber(s).ok && ScanNumber(s).rest == "" }

  /** The number that a numeral is read as. */
  function Read(s: string): real { ScanNumber(s).value }

  lemma {:induction false} LeadingDigitsBefore(t: string, tail: string)
    requires EndsNumber(tail)
    ensures LeadingDigits(t + tail) == LeadingDigits(t)
  {
    if t == "" {
      assert t + tail == tail;
    } else {
      assert (t + tail)[1..] == t[1..] + tail;
      LeadingDigitsBefore(t[1..], tail);
    }
  }

  lemma DigitsBefore(t: string, tail: string)
    requires EndsNumber(tail)
    ensures Digits(t + tail) == Digits(t).(rest := Digits(t).rest + tail)
  {
    LeadingDigitsBefore(t, tail);
    hide LeadingDigits;
    var d := LeadingDigits(t);
    assert (t + tail)[|d|..] == t[|d|..] + tail;
  }

  lemma PeekBefore(t: string, tail: string)
    requires EndsNumber(tail)
    ensures Peek(t + tail) == if t == "" then tail[0] else t[0]
    ensures t != "" ==> (t + tail)[1..] == t[1..] + tail
  {}

  lemma FractionBefore(t: string, tail: string)
    requires EndsNumber(tail)
    ensures Fraction(t + tail) == Fraction(t).(rest := Fraction(t).rest + tail)
  {
    hide Digits;
    PeekBefore(t, tail);
    if Peek(t) == '.' { DigitsBefore(t[1..], tail); }
  }

  lemma ExponentBefore(t: string, tail: string)
    requires EndsNumber(tail)
    ensures Exponent(t + tail) == Exponent(t).(rest := Exponent(t).rest + tail)
  {
    hide Digits;
    PeekBefore(t, tail);
    if Peek(t) == 'e' || Peek(t) == 'E' {
      var u := t[1..];
      PeekBefore(u, tail);
      DigitsBefore(if Peek(u) == '+' || Peek(u) == '-' then u[1..] else u, tail);
    }
  }

  lemma {:induction false} SkipBefore(t: string, tail: string)
    requires Delimited(tail)
    ensures Skip(t + tail) == Skip(t) + tail
  {
    if t == "" {
      assert t + tail == tail;
    } else {
      assert (t + tail)[1..] == t[1..] + tail;
      if IsSpace(t[0]) { SkipBefore(t[1..], tail); }
    }
  }

  /** A number ends before the rest of an object. */
  lemma NumberBefore(t: string, tail: string)
    requires Delimited(tail)
    ensures ScanNumber(t + tail) == ScanNumber(t).(rest := ScanNumber(t).rest + tail)
  {
    hide Digits, Fraction, Exponent, Decimal, Skip;
    SkipBefore(t, tail);
    var u := Skip(t);
    PeekBefore(u, tail);
    var body := if Peek(u) == '-' then u[1..] else u;
    DigitsBefore(body, tail);
    FractionBefore(Digits(body).rest, tail);
    ExponentBefore(Fraction(Digits(body).rest).rest, tail);
  }

  lemma NumeralReads(s: string, tail: string)
    requires Numeral(s) && EndsNumber(tail)
    ensures ScanNumber(s + tail) == Scan(true, Read(s), tail)
  {
    hide Digits, Fraction, Exponent, Decimal;
    PeekBefore(s, tail);
    var body := if Peek(s) == '-' then s[1..] else s;
    assert Skip(s) == s && Skip(s + tail) == s + tail;
    DigitsBefore(body, tail);
    FractionBefore(Digits(body).rest, tail);
    ExponentBefore(Fraction(Digits(body).rest).rest, tail);
    assert "" + tail == tail;
  }

  lemma WholeReads(negative: bool, d: string)
    requires AllDigits(d) && d != ""
    ensures var s := if negative then "-" + d else d;
            !IsSpace(s[0]) && ScanNumber(s) == Scan(true, Decimal(negative, d, "", false, ""), "")
  {
    hide Digits, Decimal;
    var s := if negative then "-" + d else d;
    assert IsDigit(d[0]);
    assert s[0] == (if negative then '-' else d[0]) && (negative ==> s[1..] == d);
    assert Skip(s) == s;
    DigitsEnd(d, "");
    assert d + "" == d;
  }

  lemma IntIsNumeral(n: int)
    ensures Numeral(PrintInt(n)) && Read(PrintInt(n)) == n as real
  {
    hide PrintNat, DigitsValue, ScanNumber, Decimal, IsSpace, IsDigit;
    var m: nat := if n < 0 then -n else n;
    PrintNatReads(m);
    WholeReads(n < 0, PrintNat(m));
    WholeDecimal(n < 0, PrintNat(m), m);
  }

  lemma WholeDecimal(negative: bool, d: string, m: nat)
    requires AllDigits(d) && DigitsValue(d) == m
    ensures Decimal(negative, d, "", false, "") == if negative then -(m as real) else m as real
  {
    assert DigitsValue("") == 0;
    assert Pow10(0) == 1.0;
  }

  lemma IntReads(n: int, tail: string)
    requires EndsNumber(tail)
    ensures ScanInt(PrintInt(n) + tail) == Scan(true, n, tail)
  {
    hide ScanNumber, PrintInt;
    IntIsNumeral(n);
    NumeralReads(PrintInt(n), tail);
  }

  // ---- Reading members back -------------------------------------------------------------------

  lemma MemberDelimited(key: string, value: string, tail: string)
    ensures Delimited(Member(false, key, value, tail))
  {}

  /** One turn of the member loop. */
  lemma FieldTurn(first: bool, key: string, f: Field, value: string, tail: string, r: Rule, next: Rule)
    requires Unescaped(key) && FieldOf(key) == f && ReadField(f, value + tail, r) == Scan(true, next, tail)
    ensures FieldLoop(Member(first, key, value, tail), first, r) == FieldLoop(tail, false, next)
  {
    hide NextMember, ReadField, FieldOf, Member;
    MemberReads(first, key, value, tail);
  }

  lemma ClosedBrace(tail: string, r: Rule)
    ensures FieldLoop("}" + tail, false, r) == Scan(true, r, tail)
    ensures Delimited("}" + tail)
  {
    var t := "}" + tail;
    assert t[0] == '}' && t[1..] == tail;
    assert Skip(t) == t;
  }

  lemma CommonKeys()
    ensures FieldOf("action") == ActionField && Unescaped("action")
    ensures FieldOf("min_interval_ms") == IntervalField && Unescaped("min_interval_ms")
  {}

  lemma OffsetKeys()
    ensures FieldOf("tap_offset_x") == RealField("tap_offset_x") && Unescaped("tap_offset_x")
    ensures FieldOf("tap_offset_y") == RealField("tap_offset_y") && Unescaped("tap_offset_y")
  {
    hide Unescaped;
    OffsetKeysPlain();
  }

  lemma OffsetKeysPlain()
    ensures Unescaped("tap_offset_x") && Unescaped("tap_offset_y")
  {}

  lemma DetectionKeys()
    ensures FieldOf("type") == KindField && Unescaped("type")
    ensures FieldOf("class_id") == ClassField && Unescaped("class_id")
    ensures FieldOf("min_confidence") == RealField("min_confidence") && Unescaped("min_confidence")
  {}

  lemma OcrKeys()
    ensures FieldOf("roi") == RoiField && Unescaped("roi")
    ensures FieldOf("target") == TargetField && Unescaped("target")
    ensures FieldOf("exact_match") == ExactField && Unescaped("exact_match")
  {
    hide Unescaped;
    OcrKeysPlain();
  }

  lemma OcrKeysPlain()
    ensures Unescaped("roi") && Unescaped("target") && Unescaped("exact_match")
  {}

  lemma NamesBack(a: int, k: Kind)
    ensures Unescaped(ActionName(a)) && ActionOf(ActionName(a)) == PlainAction(a)
    ensures Unescaped(KindName(k)) && KindOf(KindName(k)) == k
  {}

  function PlainAction(a: int): int { if a == SWIPE || a == WAIT || a == COMPLETE then a else TAP }

  /** The members every rule has, read after the others. */
  lemma CommonReads(p: Printer, r: Rule, tail: string, s: Rule)
    requires Numeral(p(r.offsetX)) && Numeral(p(r.offsetY))
    ensures FieldLoop(CommonText(p, r, tail), false, s)
         == Scan(true, s.(action := PlainAction(r.action), offsetX := Read(p(r.offsetX)), offsetY := Read(p(r.offsetY)),
                          minInterval := r.minInterval), tail)
    ensures Delimited(CommonText(p, r, tail))
  {
    hide FieldLoop, Member, FieldOf, ScanNumber, ScanString, ScanInt, Numeral, Read, PrintInt, ActionName,
      ActionOf, PlainAction, Unescaped, Quoted, KindOf, KindName;
    var t0 := "}" + tail;
    var t1 := Member(false, "min_interval_ms", PrintInt(r.minInterval), t0);
    var t2 := Member(false, "tap_offset_y", p(r.offsetY), t1);
    var t3 := Member(false, "tap_offset_x", p(r.offsetX), t2);
    var s1 := s.(action := PlainAction(r.action));
    var s2 := s1.(offsetX := Read(p(r.offsetX)));
    var s3 := s2.(offsetY := Read(p(r.offsetY)));
    var s4 := s3.(minInterval := r.minInterval);
    CommonKeys();
    OffsetKeys();
    ClosedBrace(tail, s4);
    MemberDelimited("min_interval_ms", PrintInt(r.minInterval), t0);
    MemberDelimited("tap_offset_y", p(r.offsetY), t1);
    MemberDelimited("action", Quoted(ActionName(r.action)), t3);
    NamesBack(r.action, r.kind);
    QuotedReads(ActionName(r.action), t3);
    NumeralReads(p(r.offsetX), t2);
    NumeralReads(p(r.offsetY), t1);
    IntReads(r.minInterval, t0);
    FieldTurn(false, "action", ActionField, Quoted(ActionName(r.action)), t3, s, s1);
    FieldTurn(false, "tap_offset_x", RealField("tap_offset_x"), p(r.offsetX), t2, s1, s2);
    FieldTurn(false, "tap_offset_y", RealField("tap_offset_y"), p(r.offsetY), t1, s2, s3);
    FieldTurn(false, "min_interval_ms", IntervalField, PrintInt(r.minInterval), t0, s3, s4);
  }

  /** A Detection rule as it comes back: what is not written takes its default. */
  function Reread(p: Printer, r: Rule): Rule {
    DEFAULT.(classId := r.classId, minConfidence := Read(p(r.minConfidence)), action := PlainAction(r.action),
             offsetX := Read(p(r.offsetX)), offsetY := Read(p(r.offsetY)), minInterval := r.minInterval)
  }

  /** The numbers of a rule that may be written as reals print as numbers. */
  predicate Printable(p: Printer, r: Rule) {
    && Numeral(p(r.minConfidence)) && Numeral(p(r.offsetX)) && Numeral(p(r.offsetY))
    && Numeral(p(r.tapX)) && Numeral(p(r.tapY)) && RoiPrintable(p, r.roi)
  }

  predicate RoiPrintable(p: Printer, r: Roi) {
    Numeral(p(r.x)) && Numeral(p(r.y)) && Numeral(p(r.width)) && Numeral(p(r.height))
  }

  function RereadRoi(p: Printer, r: Roi): Roi { Roi(Read(p(r.x)), Read(p(r.y)), Read(p(r.width)), Read(p(r.height))) }

  lemma DetectionReads(p: Printer, r: Rule, tail: string)
    requires r.kind == Detection && Printable(p, r)
    ensures FieldLoop(DetectionText(p, r, tail), false, DEFAULT) == Scan(true, Reread(p, r), tail)
  {
    hide FieldLoop, Member, FieldOf, ScanNumber, ScanInt, Numeral, Read, PrintInt, CommonText, Unescaped,
      PlainAction;
    var t0 := CommonText(p, r, tail);
    var t1 := Member(false, "min_confidence", p(r.minConfidence), t0);
    var s1 := DEFAULT.(classId := r.classId);
    var s2 := s1.(minConfidence := Read(p(r.minConfidence)));
    DetectionKeys();
    CommonReads(p, r, tail, s2);
    MemberDelimited("min_confidence", p(r.minConfidence), t0);
    IntReads(r.classId, t1);
    NumeralReads(p(r.minConfidence), t0);
    FieldTurn(false, "class_id", ClassField, PrintInt(r.classId), t1, DEFAULT, s1);
    FieldTurn(false, "min_confidence", RealField("min_confidence"), p(r.minConfidence), t0, s1, s2);
  }

  // ---- OCR rules do not read back -------------------------------------------------------------

  /** One turn of the loop over a region of interest. */
  lemma RoiTurn(first: bool, key: string, value: string, tail: string, roi: Roi)
    requires Unescaped(key) && Numeral(value) && Delimited(tail)
    ensures RoiLoop(Member(first, key, value, tail), first, roi) == RoiLoop(tail, false, SetRoi(key, Read(value), roi))
  {
    hide NextMember, ScanNumber, Member, SetRoi, Numeral, Read;
    MemberReads(first, key, value, tail);
    NumeralReads(value, tail);
  }

  lemma RoiKeys()
    ensures Unescaped("x") && Unescaped("y") && Unescaped("width") && Unescaped("height")
  {}

  lemma MemberAppend(first: bool, key: string, value: string, tail: string, more: string)
    ensures Member(first, key, value, tail) + more == Member(first, key, value, tail + more)
  {}

  lemma RoiReads(p: Printer, roi: Roi, tail: string)
    requires RoiPrintable(p, roi)
    ensures ScanRoi(RoiText(p, roi) + tail, DEFAULT.roi) == Scan(true, RereadRoi(p, roi), tail)
  {
    hide RoiLoop, Member, SetRoi, Numeral, Read, Unescaped;
    var out := RereadRoi(p, roi);
    var t0 := "}" + tail;
    var t1 := Member(false, "height", p(roi.height), t0);
    var t2 := Member(false, "width", p(roi.width), t1);
    var t3 := Member(false, "y", p(roi.y), t2);
    var t4 := Member(true, "x", p(roi.x), t3);
    RoiKeys();
    RoiTextIs(p, roi, tail);
    ClosedBrace(tail, DEFAULT);
    MemberDelimited("height", p(roi.height), t0);
    MemberDelimited("width", p(roi.width), t1);
    MemberDelimited("y", p(roi.y), t2);
    var s1 := SetRoi("x", out.x, DEFAULT.roi);
    var s2 := SetRoi("y", out.y, s1);
    var s3 := SetRoi("width", out.width, s2);
    RoiTurn(true, "x", p(roi.x), t3, DEFAULT.roi);
    RoiTurn(false, "y", p(roi.y), t2, s1);
    RoiTurn(false, "width", p(roi.width), t1, s2);
    RoiTurn(false, "height", p(roi.height), t0, s3);
    RoiCloses(tail, SetRoi("height", out.height, s3));
    RoiSet(out);
    ExpectReads('{', t4);
  }

  lemma RoiSet(roi: Roi)
    ensures var s := SetRoi("y", roi.y, SetRoi("x", roi.x, DEFAULT.roi));
            SetRoi("height", roi.height, SetRoi("width", roi.width, s)) == roi
  {}

  lemma RoiTextIs(p: Printer, r: Roi, tail: string)
    ensures RoiText(p, r) + tail
         == ['{'] + Member(true, "x", p(r.x), Member(false, "y", p(r.y),
                    Member(false, "width", p(r.width), Member(false, "height", p(r.height), "}" + tail))))
  {
    hide Member;
    var t1 := Member(false, "height", p(r.height), "}");
    var t2 := Member(false, "width", p(r.width), t1);
    var t3 := Member(false, "y", p(r.y), t2);
    var t4 := Member(true, "x", p(r.x), t3);
    MemberAppend(false, "height", p(r.height), "}", tail);
    MemberAppend(false, "width", p(r.width), t1, tail);
    MemberAppend(false, "y", p(r.y), t2, tail);
    MemberAppend(true, "x", p(r.x), t3, tail);
    assert ("{" + t4) + tail == ['{'] + (t4 + tail);
  }

  lemma RoiCloses(tail: string, roi: Roi)
    ensures RoiLoop("}" + tail, false, roi) == Scan(true, roi, tail)
  {
    var t := "}" + tail;
    assert t[0] == '}' && t[1..] == tail;
    assert Skip(t) == t;
  }

  /** A bare word is not read as a flag, and the loop stops at it. */
  lemma FlagFails(b: bool, tail: string, r: Rule)
    ensures !FieldLoop(Member(false, "exact_match", FlagText(b), tail), false, r).ok
  {
    hide FieldLoop, Member, FieldOf, Unescaped;
    OcrKeys();
    var t := FlagText(b) + tail;
    assert t[0] == 't' || t[0] == 'f';
    MemberReads(false, "exact_match", FlagText(b), tail);
    WordIsNoFlag(t, r);
    LoopStops(t, r);
    LoopUnfolds(Member(false, "exact_match", FlagText(b), tail), r, "exact_match", t);
  }

  lemma WordIsNoFlag(t: string, r: Rule)
    requires t != "" && (t[0] == 't' || t[0] == 'f')
    ensures ReadField(ExactField, t, r) == Scan(true, r, t)
  {
    hide Fraction, Exponent;
    assert Skip(t) == t;
    assert LeadingDigits(t) == "" && t[0..] == t;
  }

  lemma LoopStops(t: string, r: Rule)
    requires t != "" && (t[0] == 't' || t[0] == 'f')
    ensures !FieldLoop(t, false, r).ok
  {
    hide ReadField, FieldOf;
    assert Skip(t) == t;
  }

  lemma LoopUnfolds(m: string, r: Rule, key: string, t: string)
    requires NextMember(m, false) == Scan(true, Some(key), t) && ReadField(FieldOf(key), t, r) == Scan(true, r, t)
    ensures FieldLoop(m, false, r) == FieldLoop(t, false, r)
  {
    hide NextMember, ReadField, FieldOf;
  }

  lemma OcrFails(p: Printer, r: Rule, tail: string, s: Rule)
    requires r.kind == OCR && RoiPrintable(p, r.roi) && Unescaped(r.target) && s.roi == DEFAULT.roi
    ensures !FieldLoop(OcrText(p, r, tail), false, s).ok
  {
    hide FieldLoop, Member, FieldOf, RoiText, TapText, RoiPrintable, RereadRoi, FlagText, ScanRoi,
      ScanString, Quoted, Unescaped;
    var t0 := Member(false, "case_sensitive", FlagText(r.caseSensitive), TapText(p, r, tail));
    var t1 := Member(false, "exact_match", FlagText(r.exactMatch), t0);
    var t2 := Member(false, "target", Quoted(r.target), t1);
    OcrKeys();
    RoiReads(p, r.roi, t2);
    var s1 := s.(roi := RereadRoi(p, r.roi));
    var s2 := s1.(target := r.target);
    QuotedReads(r.target, t1);
    FieldTurn(false, "roi", RoiField, RoiText(p, r.roi), t2, s, s1);
    FieldTurn(false, "target", TargetField, Quoted(r.target), t1, s1, s2);
    FlagFails(r.exactMatch, t0, s2);
  }

  // ---- Whole rule lists -----------------------------------------------------------------------

  /** A Detection rule reads back; an OCR rule does not at all, if its target needs no escapes. */
  lemma RuleReads(p: Printer, r: Rule, tail: string)
    requires Printable(p, r)
    ensures r.kind == Detection ==> ScanRule(RuleText(p, r, tail)) == Scan(true, Reread(p, r), tail)
    ensures r.kind == OCR && Unescaped(r.target) ==> !ScanRule(RuleText(p, r, tail)).ok
  {
    hide FieldLoop, Member, FieldOf, DetectionText, OcrText, ScanString, Quoted, KindName, KindOf, Unescaped, Numeral,
      Reread;
    var body := if r.kind == Detection then DetectionText(p, r, tail) else OcrText(p, r, tail);
    var t := Member(true, "type", Quoted(KindName(r.kind)), body);
    var s := DEFAULT.(kind := r.kind);
    DetectionKeys();
    NamesBack(r.action, r.kind);
    QuotedReads(KindName(r.kind), body);
    FieldTurn(true, "type", KindField, Quoted(KindName(r.kind)), body, DEFAULT, s);
    assert "{" + t == ['{'] + t;
    ExpectReads('{', t);
    if r.kind == Detection { DetectionReads(p, r, tail); } else if Unescaped(r.target) { OcrFails(p, r, tail, s); }
  }

  lemma RuleTextStarts(p: Printer, r: Rule, tail: string)
    ensures RuleText(p, r, tail) != "" && RuleText(p, r, tail)[0] == '{'
  {
    hide Member;
  }

  lemma NextRuleReads(first: bool, t: string)
    requires t != "" && t[0] == '{'
    ensures NextRule((if first then "" else ",") + t, first) == Scan(true, true, t)
  {
    var u := (if first then "" else ",") + t;
    assert first ==> u == t;
    assert !first ==> u == [','] + t;
    ExpectReads(',', t);
    assert Skip(u) == u;
  }

  ghost predicate AllDetection(rules: seq<Rule>) { forall r :: r in rules ==> r.kind == Detection }

  function RereadAll(p: Printer, rules: seq<Rule>): seq<Rule> {
    if rules == [] then [] else [Reread(p, rules[0])] + RereadAll(p, rules[1..])
  }

  /** The first OCR rule of the list, if any, has a target that needs no escapes. */
  predicate PlainFirst(rules: seq<Rule>) {
    rules == [] || if rules[0].kind == OCR then Unescaped(rules[0].target) else PlainFirst(rules[1..])
  }

  lemma {:induction false} RulesRead(p: Printer, rules: seq<Rule>, first: bool, acc: seq<Rule>)
    requires PlainFirst(rules) && forall r :: r in rules ==> Printable(p, r)
    ensures RuleLoop(RulesText(p, rules, first), first, acc)
         == if AllDetection(rules) then Some(acc + ValidOnes(RereadAll(p, rules))) else None
    decreases |rules|
  {
    hide RuleText, ScanRule, ValidRule, Printable, Reread, NextRule, Unescaped;
    if rules == [] {
      EndReads(first);
      assert acc + [] == acc;
    } else {
      var r, more := rules[0], RulesText(p, rules[1..], false);
      var t := RuleText(p, r, more);
      assert r in rules;
      RuleTextStarts(p, r, more);
      NextRuleReads(first, t);
      RuleReads(p, r, more);
      if r.kind == Detection {
        var out := Reread(p, r);
        assert forall x :: x in rules <==> x == r || x in rules[1..];
        RulesRead(p, rules[1..], false, if ValidRule(out) then acc + [out] else acc);
        ValidCons(out, RereadAll(p, rules[1..]), acc);
      }
    }
  }

  lemma ValidCons(r: Rule, rest: seq<Rule>, acc: seq<Rule>)
    ensures acc + ValidOnes([r] + rest)
         == (if ValidRule(r) then acc + [r] else acc) + ValidOnes(rest)
  {
    hide ValidRule;
    assert ([r] + rest)[1..] == rest;
    if ValidRule(r) { assert acc + ([r] + ValidOnes(rest)) == acc + [r] + ValidOnes(rest); }
  }

  lemma EndReads(first: bool)
    ensures var n := NextRule("]", first); n.ok && !n.value
  {
    assert Skip("]") == "]";
  }

  lemma {:induction false} DetectionIsPlain(rules: seq<Rule>)
    requires AllDetection(rules)
    ensures PlainFirst(rules)
  {
    if rules != [] {
      assert rules[0] in rules && forall r :: r in rules[1..] ==> r in rules;
      DetectionIsPlain(rules[1..]);
    }
  }

  /** Parsing what was serialized gives the rules back as they are read, those that are then valid, if all are
      Detection rules; and nothing at all if there is an OCR rule among them, whose flags are written as bare words,
      and the target of the first one needs no escapes. */
  lemma SerializedParses(p: Printer, rules: seq<Rule>)
    requires forall r :: r in rules ==> Printable(p, r)
    ensures AllDetection(rules) ==> ParseRules(Serialize(p, rules)) == ValidOnes(RereadAll(p, rules))
    ensures !AllDetection(rules) && PlainFirst(rules) ==> ParseRules(Serialize(p, rules)) == []
  {
    hide RulesText, RuleLoop, Printable, RereadAll, AllDetection, ValidOnes, PlainFirst;
    var t := RulesText(p, rules, true);
    assert Serialize(p, rules) == ['['] + t;
    assert Skip(['['] + t) == ['['] + t;
    ExpectReads('[', t);
    if AllDetection(rules) { DetectionIsPlain(rules); }
    if PlainFirst(rules) { RulesRead(p, rules, true, []); }
    var out := ValidOnes(RereadAll(p, rules));
    assert [] + out == out;
  }

  /** A quote in the target of an OCR rule ends the target, since it is not escaped: whatever follows a target
      closed like this is ignored, and a rule with the shorter target is returned. */
  lemma QuoteCutsTarget(p: Printer, r: Rule, s: string, rest: string)
    requires r.kind == OCR && RoiPrintable(p, r.roi) && ValidRoi(RereadRoi(p, r.roi))
    requires r.target == s + "\"}]" + rest && s != "" && Unescaped(s)
    ensures ParseRules(Serialize(p, [r])) == [DEFAULT.(kind := OCR, roi := RereadRoi(p, r.roi), target := s)]
  {
    hide RuleLoop, FieldLoop, RuleText, Member, RoiText, ScanRule, ScanRoi, Numeral, Read, Unescaped, NextRule;
    var tail := CutTail(p, r, rest);
    CutRuleReads(p, r, s, rest);
    var text := RuleText(p, r, "]");
    assert [r][1..] == [];
    assert RulesText(p, [], false) == "]";
    assert RulesText(p, [r], true) == "" + text && "" + text == text;
    assert Serialize(p, [r]) == ['['] + text && Skip(['['] + text) == ['['] + text;
    ExpectReads('[', text);
    RuleTextStarts(p, r, "]");
    NextRuleReads(true, text);
    CutEnds(tail);
    var out := DEFAULT.(kind := OCR, roi := RereadRoi(p, r.roi), target := s);
    LoopOnce(text, "]" + tail, out);
  }

  /** What is left of a rule after a target that has been cut. */
  function CutTail(p: Printer, r: Rule, rest: string): string {
    rest + "\"" + Member(false, "exact_match", FlagText(r.exactMatch),
                         Member(false, "case_sensitive", FlagText(r.caseSensitive), TapText(p, r, "]")))
  }

  lemma CutRuleReads(p: Printer, r: Rule, s: string, rest: string)
    requires r.kind == OCR && RoiPrintable(p, r.roi) && Unescaped(s) && r.target == s + "\"}]" + rest
    ensures ScanRule(RuleText(p, r, "]"))
         == Scan(true, DEFAULT.(kind := OCR, roi := RereadRoi(p, r.roi), target := s), "]" + CutTail(p, r, rest))
  {
    hide FieldLoop, Member, FieldOf, RoiText, TapText, RoiPrintable, RereadRoi, FlagText, ScanRoi,
      ScanString, Unescaped, KindOf, KindName, Quoted;
    var t0 := Member(false, "case_sensitive", FlagText(r.caseSensitive), TapText(p, r, "]"));
    var t1 := Member(false, "exact_match", FlagText(r.exactMatch), t0);
    var after := "]" + CutTail(p, r, rest);
    var cut := "}" + after;
    CutRegroup(s, rest, t1);
    var t2 := Member(false, "target", Quoted(r.target), t1);
    MemberRegroup("target", Quoted(r.target), t1, Quoted(s), cut);
    var body := OcrText(p, r, "]");
    var s1 := DEFAULT.(kind := OCR);
    var s2 := s1.(roi := RereadRoi(p, r.roi));
    var s3 := s2.(target := s);
    DetectionKeys();
    OcrKeys();
    NamesBack(r.action, r.kind);
    QuotedReads(KindName(r.kind), body);
    FieldTurn(true, "type", KindField, Quoted(KindName(r.kind)), body, DEFAULT, s1);
    RoiReads(p, r.roi, t2);
    FieldTurn(false, "roi", RoiField, RoiText(p, r.roi), t2, s1, s2);
    QuotedReads(s, cut);
    FieldTurn(false, "target", TargetField, Quoted(s), cut, s2, s3);
    ClosedBrace(after, s3);
    var t := Member(true, "type", Quoted(KindName(r.kind)), body);
    assert "{" + t == ['{'] + t;
    ExpectReads('{', t);
  }

  lemma CutRegroup(s: string, rest: string, t: string)
    ensures Quoted(s + "\"}]" + rest) + t == Quoted(s) + ("}" + ("]" + (rest + "\"" + t)))
  {}

  lemma MemberRegroup(key: string, v: string, t: string, w: string, u: string)
    requires v + t == w + u
    ensures Member(false, key, v, t) == Member(false, key, w, u)
  {
    assert "," + Quoted(key) + ":" + v + t == "," + Quoted(key) + ":" + (v + t);
    assert "," + Quoted(key) + ":" + w + u == "," + Quoted(key) + ":" + (w + u);
  }

  lemma CutEnds(tail: string)
    ensures var n := NextRule("]" + tail, false); n.ok && !n.value
  {
    assert Skip("]" + tail) == "]" + tail;
  }

  lemma LoopOnce(text: string, rest: string, r: Rule)
    requires NextRule(text, true) == Scan(true, true, text) && ScanRule(text) == Scan(true, r, rest) && ValidRule(r)
    requires var n := NextRule(rest, false); n.ok && !n.value
    ensures RuleLoop(text, true, []) == Some([r])
  {
    hide NextRule, ScanRule, ValidRule;
    assert [] + [r] == [r];
    assert RuleLoop(rest, false, [r]) == Some([r]);
  }

  /** `serialize_rules` writes the rules one by one. */
  method SerializeRules(p: Printer, rules: seq<Rule>) returns (s: string)
    ensures s == Serialize(p, rules)
  {
    hide RuleText;
    s := "[";
    for i := 0 to |rules|
      invariant s + RulesText(p, rules[i..], i == 0) == Serialize(p, rules)
    {
      var text := RuleText(p, rules[i], "");
      RuleTextAppend(p, rules[i], RulesText(p, rules[i + 1..], false));
      assert rules[i..][1..] == rules[i + 1..];
      s := s + (if i > 0 then "," else "") + text;
    }
    s := s + "]";
  }

  lemma RuleTextAppend(p: Printer, r: Rule, tail: string)
    ensures RuleText(p, r, "") + tail == RuleText(p, r, tail)
  {
    hide Member, Quoted, KindName, DetectionText, OcrText;
    var body := if r.kind == Detection then DetectionText(p, r, "") else OcrText(p, r, "");
    BodyAppend(p, r, tail);
    MemberAppend(true, "type", Quoted(KindName(r.kind)), body, tail);
  }

  lemma CommonAppend(p: Printer, r: Rule, tail: string)
    ensures CommonText(p, r, "") + tail == CommonText(p, r, tail)
  {
    hide Member, Quoted, ActionName, PrintInt;
    var t1 := Member(false, "min_interval_ms", PrintInt(r.minInterval), "}" + "");
    var t2 := Member(false, "tap_offset_y", p(r.offsetY), t1);
    var t3 := Member(false, "tap_offset_x", p(r.offsetX), t2);
    MemberAppend(false, "min_interval_ms", PrintInt(r.minInterval), "}" + "", tail);
    MemberAppend(false, "tap_offset_y", p(r.offsetY), t1, tail);
    MemberAppend(false, "tap_offset_x", p(r.offsetX), t2, tail);
    MemberAppend(false, "action", Quoted(ActionName(r.action)), t3, tail);
    assert "}" + "" + tail == "}" + tail;
  }

  lemma BodyAppend(p: Printer, r: Rule, tail: string)
    ensures DetectionText(p, r, "") + tail == DetectionText(p, r, tail)
    ensures OcrText(p, r, "") + tail == OcrText(p, r, tail)
  {
    hide Member, CommonText, Quoted, PrintInt, FlagText, RoiText;
    var c := CommonText(p, r, "");
    CommonAppend(p, r, tail);
    MemberAppend(false, "min_confidence", p(r.minConfidence), c, tail);
    MemberAppend(false, "class_id", PrintInt(r.classId), Member(false, "min_confidence", p(r.minConfidence), c), tail);
    MemberAppend(false, "tap_y", p(r.tapY), c, tail);
    MemberAppend(false, "tap_x", p(r.tapX), c, tail);
    MemberAppend(false, "tap_x", p(r.tapX), Member(false, "tap_y", p(r.tapY), c), tail);
    var t1 := Member(false, "case_sensitive", FlagText(r.caseSensitive), TapText(p, r, ""));
    var t2 := Member(false, "exact_match", FlagText(r.exactMatch), t1);
    var t3 := Member(false, "target", Quoted(r.target), t2);
    MemberAppend(false, "case_sensitive", FlagText(r.caseSensitive), TapText(p, r, ""), tail);
    MemberAppend(false, "exact_match", FlagText(r.exactMatch), t1, tail);
    MemberAppend(false, "target", Quoted(r.target), t2, tail);
    MemberAppend(false, "roi", RoiText(p, r.roi), t3, tail);
  }
}
