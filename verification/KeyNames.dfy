/** Key files whose package name holds newlines: which names let a key still be read under its own id
    (daemon/core/auth/key_whitelist.cpp). */
module KeyNames {
  import opened Bytes
  import opened Text
  import opened KeyFile

  /** The lines a name adds to the file after the one it starts on. */
  function Extra(name: string): seq<string> {
    var at := IndexOf(name, '\n');
    if at.None? then [] else Pieces(name[at.value + 1..] + "\n", '\n')
  }

  /** A text no value of a line can be, since values are trimmed. */
  const MARK := "\n"

  const PROBE := BLANK.(keyId := MARK, publicKey := [0], algorithm := "a")

  predicate Intact(e: Entry) { e.keyId == MARK && e.publicKey != [] && e.algorithm != "" }

  /** Read after a key, the added lines neither throw nor change its id nor leave it without a public key or an
      algorithm; `HarmlessMeans` says this line by line. */
  predicate Harmless(name: string) {
    var r := ParseLines(PROBE, Extra(name));
    r.Some? && Intact(r.value)
  }

  /** A name on one line is harmless. */
  lemma SingleLineHarmless(name: string)
    requires '\n' !in name
    ensures Harmless(name)
  {}

  // ---- What makes a name harmless -------------------------------------------------------------

  predicate SetsField(line: string, f: Field) { var s := Sets(line); s.Some? && s.value.0 == f }

  /** A value for a number field is a number. */
  predicate Reads(f: Field, v: string) {
    match f
    case CreatedAt => ReadUnsigned(v).Some?
    case LastUsedAt => ReadUnsigned(v).Some?
    case Level => ReadSigned(v, INT32).Some?
    case _ => true
  }

  predicate LineReads(line: string) { var s := Sets(line); s.Some? ==> Reads(s.value.0, s.value.1) }

  /** What a value stores in a public key or algorithm: nothing, an empty text, or a non-empty one. */
  predicate Stores(f: Field, v: string, empty: bool) {
    if f == PublicKey then var b := Unhex(v); b.Some? && (b.value == [] <==> empty) else v == "" <==> empty
  }

  predicate Stored(line: string, f: Field, empty: bool) { SetsField(line, f) && Stores(f, Sets(line).value.1, empty) }

  predicate Untouched(lines: seq<string>, f: Field) { forall i :: 0 <= i < |lines| ==> !Stored(lines[i], f, false) }

  predicate EmptyFrom(lines: seq<string>, i: int, f: Field)
    requires 0 <= i < |lines|
  {
    Stored(lines[i], f, true) && Untouched(lines[i + 1..], f)
  }

  /** The last of the lines that store something in the field stores an empty text. */
  predicate EndsEmpty(lines: seq<string>, f: Field) { exists i :: 0 <= i < |lines| && EmptyFrom(lines, i, f) }

  lemma SetMeans(e: Entry, f: Field, v: string)
    requires v != MARK
    ensures var r := SetField(e, f, v);
            && (r.Some? <==> Reads(f, v))
            && (r.Some? ==>
                  && (r.value.keyId == MARK <==> e.keyId == MARK && f != KeyId)
                  && (r.value.publicKey == [] <==>
                        if f == PublicKey && Stores(f, v, true) then true
                        else e.publicKey == [] && !(f == PublicKey && Stores(f, v, false)))
                  && (r.value.algorithm == "" <==> if f == Algorithm then Stores(f, v, true) else e.algorithm == ""))
  {
    hide ReadUnsigned, ReadSigned, Unhex, ParseTrust, ParseBool;
  }

  lemma LineMeans(e: Entry, line: string)
    ensures var r := ParseLine(e, line);
            && (r.Some? <==> LineReads(line))
            && (r.Some? ==>
                  && (r.value.keyId == MARK <==> e.keyId == MARK && !SetsField(line, KeyId))
                  && (r.value.publicKey == [] <==>
                        Stored(line, PublicKey, true) || (e.publicKey == [] && !Stored(line, PublicKey, false)))
                  && (r.value.algorithm == "" <==>
                        Stored(line, Algorithm, true) || (e.algorithm == "" && !Stored(line, Algorithm, false))))
  {
    hide Trim, IndexOf, FieldOf, SetField, Reads;
    var s := Sets(line);
    if s.Some? {
      TrimIsTrimmed(line[IndexOf(line, '=').value + 1..]);
      SetMeans(e, s.value.0, s.value.1);
    }
  }

  lemma EndsEmptyCons(line: string, rest: seq<string>, f: Field)
    ensures EndsEmpty([line] + rest, f) <==> EndsEmpty(rest, f) || (Stored(line, f, true) && Untouched(rest, f))
  {
    hide Stored, Untouched;
    var all := [line] + rest;
    assert all[0] == line && all[0 + 1..] == rest;
    assert EmptyFrom(all, 0, f) <==> Stored(line, f, true) && Untouched(rest, f);
    forall i | 0 <= i < |rest| ensures EmptyFrom(all, i + 1, f) <==> EmptyFrom(rest, i, f) {
      assert all[i + 1 + 1..] == rest[i + 1..] && all[i + 1] == rest[i];
    }
    hide EmptyFrom;
    if EndsEmpty(all, f) {
      var i :| 0 <= i < |all| && EmptyFrom(all, i, f);
      if i > 0 { assert EmptyFrom(rest, i - 1, f); }
    }
  }

  lemma UntouchedCons(line: string, rest: seq<string>, f: Field)
    ensures Untouched([line] + rest, f) <==> !Stored(line, f, false) && Untouched(rest, f)
  {
    hide Stored;
    var all := [line] + rest;
    assert all[0] == line && forall i :: 0 <= i < |rest| ==> all[i + 1] == rest[i];
  }

  lemma {:induction false} LinesMean(e: Entry, lines: seq<string>)
    ensures var r := ParseLines(e, lines);
            && (r.Some? <==> forall i :: 0 <= i < |lines| ==> LineReads(lines[i]))
            && (r.Some? ==>
                  && (r.value.keyId == MARK <==>
                        e.keyId == MARK && forall i :: 0 <= i < |lines| ==> !SetsField(lines[i], KeyId))
                  && (r.value.publicKey == [] <==>
                        EndsEmpty(lines, PublicKey) || (e.publicKey == [] && Untouched(lines, PublicKey)))
                  && (r.value.algorithm == "" <==>
                        EndsEmpty(lines, Algorithm) || (e.algorithm == "" && Untouched(lines, Algorithm))))
    decreases |lines|
  {
    hide ParseLine, LineReads, SetsField, Stored;
    if lines != [] {
      hide EndsEmpty, Untouched;
      var line, rest := lines[0], lines[1..];
      assert lines == [line] + rest;
      LineMeans(e, line);
      EndsEmptyCons(line, rest, PublicKey);
      EndsEmptyCons(line, rest, Algorithm);
      UntouchedCons(line, rest, PublicKey);
      UntouchedCons(line, rest, Algorithm);
      var r := ParseLine(e, line);
      if r.Some? { LinesMean(r.value, rest); }
    }
  }

  /** A name is harmless exactly when, of the lines it adds, every number is one, none gives a key id, and the last
      to give a public key or an algorithm does not give an empty one. */
  lemma HarmlessMeans(name: string)
    ensures var lines := Extra(name);
            Harmless(name) <==>
              && (forall i :: 0 <= i < |lines| ==> LineReads(lines[i]) && !SetsField(lines[i], KeyId))
              && !EndsEmpty(lines, PublicKey) && !EndsEmpty(lines, Algorithm)
  {
    hide ParseLines, EndsEmpty, Extra, LineReads, SetsField, Untouched;
    LinesMean(PROBE, Extra(name));
  }

  // ---- What the added lines do does not depend on the entry -----------------------------------

  /** `u`, a key of id `id`, has gone through the same lines as the probe `v`. */
  ghost predicate Tracks(id: string, u: Entry, v: Entry) {
    && u.keyId == (if v.keyId == MARK then id else v.keyId)
    && (u.publicKey == [] <==> v.publicKey == []) && (u.algorithm == "" <==> v.algorithm == "")
  }

  lemma SetTracks(id: string, u: Entry, v: Entry, f: Field, value: string)
    requires Tracks(id, u, v) && value != MARK
    ensures var r, s := SetField(u, f, value), SetField(v, f, value);
            (r.Some? <==> s.Some?) && (r.Some? ==> Tracks(id, r.value, s.value))
  {
    hide ReadUnsigned, ReadSigned, Unhex, ParseTrust, ParseBool;
  }

  lemma LineTracks(id: string, u: Entry, v: Entry, line: string)
    requires Tracks(id, u, v)
    ensures var r, s := ParseLine(u, line), ParseLine(v, line);
            (r.Some? <==> s.Some?) && (r.Some? ==> Tracks(id, r.value, s.value))
  {
    hide Trim, FieldOf, SetField, Tracks;
    var eq := IndexOf(line, '=');
    if eq.Some? {
      var value := Trim(line[eq.value + 1..]);
      TrimIsTrimmed(line[eq.value + 1..]);
      assert value != MARK;
      var f := FieldOf(line[..eq.value]);
      if f.Some? { SetTracks(id, u, v, f.value, value); }
    }
  }

  lemma {:induction false} LinesTrack(id: string, u: Entry, v: Entry, lines: seq<string>)
    requires Tracks(id, u, v)
    ensures var r, s := ParseLines(u, lines), ParseLines(v, lines);
            (r.Some? <==> s.Some?) && (r.Some? ==> Tracks(id, r.value, s.value))
    decreases |lines|
  {
    hide ParseLine, Tracks;
    if lines != [] {
      LineTracks(id, u, v, lines[0]);
      var r, s := ParseLine(u, lines[0]), ParseLine(v, lines[0]);
      if r.Some? { LinesTrack(id, r.value, s.value, lines[1..]); }
    }
  }

  // ---- The file of a key, line group by line group --------------------------------------------

  const BEFORE: seq<Field> := [KeyId, Algorithm, PublicKey, CreatedAt, LastUsedAt, Verified]
  const AFTER: seq<Field> := [AppSig, Level, TrustStatus, Active]

  lemma {:induction false} FieldLinesSplit(e: Entry, a: seq<Field>, b: seq<Field>)
    ensures FieldLines(e, a + b) == FieldLines(e, a) + FieldLines(e, b)
    decreases |a|
  {
    hide Name, Value;
    if a == [] {
      assert a + b == b;
    } else {
      assert (a + b)[1..] == a[1..] + b;
      FieldLinesSplit(e, a[1..], b);
    }
  }

  lemma OtherValue(e: Entry, f: Field)
    ensures f != Package ==> Value(e, f) == Value(e.(package := ""), f)
  {}

  /** Only the package line depends on the package. */
  lemma {:induction false} OtherLines(e: Entry, fs: seq<Field>)
    requires Package !in fs
    ensures FieldLines(e, fs) == FieldLines(e.(package := ""), fs)
    decreases |fs|
  {
    hide Name, Value;
    if fs != [] {
      OtherValue(e, fs[0]);
      assert fs[0] in fs && forall f :: f in fs[1..] ==> f in fs;
      OtherLines(e, fs[1..]);
    }
  }

  lemma FieldsText(e: Entry)
    ensures var e0 := e.(package := "");
            FieldLines(e, ALL_FIELDS)
              == FieldLines(e0, BEFORE) + (Name(Package) + "=" + e.package + "\n" + FieldLines(e0, AFTER))
  {
    hide FieldLines, Name;
    assert ALL_FIELDS == BEFORE + ([Package] + AFTER);
    FieldLinesSplit(e, BEFORE, [Package] + AFTER);
    FieldLinesSplit(e, [Package], AFTER);
    OtherLines(e, BEFORE);
    OtherLines(e, AFTER);
    OneField(e, Package);
  }

  lemma OneField(e: Entry, f: Field)
    ensures FieldLines(e, [f]) == Name(f) + "=" + Value(e, f) + "\n"
  {
    hide Name, Value;
    assert [f][1..] == [];
    assert FieldLines(e, [f]) == Name(f) + "=" + Value(e, f) + "\n" + FieldLines(e, []);
  }

  ghost predicate StartsPackage(first: string, name: string, rest: string) {
    Pieces(Name(Package) + "=" + name + "\n" + rest, '\n')
      == [Name(Package) + "=" + first] + Extra(name) + Pieces(rest, '\n')
  }

  /** The package line and the lines the name adds, before other text. */
  lemma PackagePieces(name: string, rest: string)
    ensures exists first :: StartsPackage(first, name, rest)
  {
    hide Pieces, Name;
    NamePlain(Package);
    var head := Name(Package) + "=";
    var at := IndexOf(name, '\n');
    if at.None? {
      PiecesCons(head + name, '\n', rest);
      assert head + name + "\n" + rest == (head + name) + ['\n'] + rest;
      assert [head + name] + Extra(name) == [head + name];
      assert StartsPackage(name, name, rest);
    } else {
      var a, b := name[..at.value], name[at.value + 1..];
      PiecesCons(head + a, '\n', b + "\n" + rest);
      PiecesSplit(b, '\n', rest);
      assert head + name + "\n" + rest == (head + a) + ['\n'] + (b + "\n" + rest);
      assert [head + a] + (Extra(name) + Pieces(rest, '\n')) == [head + a] + Extra(name) + Pieces(rest, '\n');
      assert StartsPackage(a, name, rest);
    }
  }

  lemma PackageLine(to: Entry, first: string)
    ensures ParseLine(to, Name(Package) + "=" + first) == Some(to.(package := Trim(first)))
  {
    hide Name, FieldOf, Trim, IndexOf;
    NamePlain(Package);
    FieldOfName(Package);
    var name := Name(Package);
    var line := name + "=" + first;
    IndexOfFirst(name, '=', first);
    assert line[..|name|] == name && line[|name| + 1..] == first && line[0] == name[0];
  }

  lemma {:induction false} ParseLinesAppend(e: Entry, a: seq<string>, b: seq<string>)
    ensures var r := ParseLines(e, a); ParseLines(e, a + b) == if r.None? then None else ParseLines(r.value, b)
    decreases |a|
  {
    hide ParseLine;
    if a == [] {
      assert a + b == b;
    } else {
      assert (a + b)[1..] == a[1..] + b && (a + b)[0] == a[0];
      var r := ParseLine(e, a[0]);
      if r.Some? { ParseLinesAppend(r.value, a[1..], b); }
    }
  }

  /** Parsing the file of a key: the fields before the package, the package line, the added lines, and the fields
      after, which are read back whatever the name. */
  lemma FileReads(e: Entry) returns (mid: Entry)
    requires Sane(e)
    ensures Tracks(e.keyId, mid, PROBE)
    ensures var r := ParseLines(mid, Extra(e.package));
            ParseLines(BLANK, Pieces(Save(e), '\n'))
              == if r.None? then None else Some(CopyAll(r.value, e.(package := ""), AFTER))
  {
    hide FieldLines, Pieces, CopyAll, Name, Extra, ParseLines, OneLine, FieldOf;
    var e0 := e.(package := "");
    EmptyOneLine();
    var after := FieldLines(e0, AFTER);
    var rest := Name(Package) + "=" + e.package + "\n" + after;
    FieldsText(e);
    SkipHeader(BLANK, FieldLines(e, ALL_FIELDS));
    ParsePrintedLines(BLANK, e0, BEFORE, rest);
    var to := CopyAll(BLANK, e0, BEFORE);
    BeforeCopied(e0);
    PackagePieces(e.package, after);
    var first :| StartsPackage(first, e.package, after);
    PackageLine(to, first);
    mid := to.(package := Trim(first));
    OneLineParsed(to, Name(Package) + "=" + first, mid);
    ParseLinesAppend(to, [Name(Package) + "=" + first] + Extra(e.package), Pieces(after, '\n'));
    ParseLinesAppend(to, [Name(Package) + "=" + first], Extra(e.package));
    var r := ParseLines(mid, Extra(e.package));
    if r.Some? {
      ParsePrintedLines(r.value, e0, AFTER, "");
      assert after + "" == after;
      PiecesLast("", '\n');
      NoLines(CopyAll(r.value, e0, AFTER));
    }
  }

  lemma EmptyOneLine()
    ensures OneLine("")
  {}

  lemma NoLines(e: Entry)
    ensures ParseLines(e, []) == Some(e)
  {}

  lemma OneLineParsed(e: Entry, line: string, r: Entry)
    requires ParseLine(e, line) == Some(r)
    ensures ParseLines(e, [line]) == Some(r)
  {
    hide ParseLine;
    assert [line][1..] == [];
    NoLines(r);
  }

  lemma BeforeCopied(e: Entry)
    ensures var r := CopyAll(BLANK, e, BEFORE);
            r.keyId == e.keyId && r.publicKey == e.publicKey && r.algorithm == e.algorithm
  {
    hide Copy;
    CopiedField(e, KeyId);
    CopiedField(e, PublicKey);
    CopiedField(e, Algorithm);
    hide CopyAll;
    CopyMeans(CopyAll(BLANK, e, BEFORE), e);
  }

  lemma CopiedField(e: Entry, f: Field)
    requires f in BEFORE
    ensures AgreeOn(CopyAll(BLANK, e, BEFORE), e, f)
  {
    hide CopyAll, AgreeOn;
    CopyAllAgrees(BLANK, e, BEFORE, f);
  }

  lemma CopyMeans(a: Entry, e: Entry)
    ensures AgreeOn(a, e, KeyId) ==> a.keyId == e.keyId
    ensures AgreeOn(a, e, PublicKey) ==> a.publicKey == e.publicKey
    ensures AgreeOn(a, e, Algorithm) ==> a.algorithm == e.algorithm
    ensures AgreeOn(a, e, TrustStatus) ==> a.trust == e.trust
    ensures AgreeOn(a, e, Active) ==> a.active == e.active
  {}

  /** The fields after the package change nothing before it. */
  lemma AfterCopied(to: Entry, e: Entry)
    ensures var r := CopyAll(to, e, AFTER);
            && r.keyId == to.keyId && r.publicKey == to.publicKey && r.algorithm == to.algorithm
            && r.trust == e.trust && r.active == e.active
  {
    var a := Copy(to, e, AppSig);
    var b := Copy(a, e, Level);
    var c := Copy(b, e, TrustStatus);
    var d := Copy(c, e, Active);
    assert AFTER[1..] == [Level, TrustStatus, Active] && [Level, TrustStatus, Active][1..] == [TrustStatus, Active]
        && [TrustStatus, Active][1..] == [Active] && [Active][1..] == [];
    assert CopyAll(c, e, [Active]) == d;
    assert CopyAll(b, e, [TrustStatus, Active]) == d;
    assert CopyAll(a, e, [Level, TrustStatus, Active]) == d;
  }

  // ---- Read under its own id ------------------------------------------------------------------

  /** With a harmless name, a key is read back under its own id, with its trust and its activity. */
  lemma HarmlessParses(e: Entry, clock: nat)
    requires Sane(e) && Harmless(e.package) && 0 < clock < UINT64
    ensures var r := Parse(Save(e), clock);
            r.Parsed? && r.entry.keyId == e.keyId && r.entry.trust == e.trust && r.entry.active == e.active
  {
    hide ParseLines, Pieces, Save, CopyAll, Extra, OneLine;
    var mid := FileReads(e);
    LinesTrack(e.keyId, mid, PROBE, Extra(e.package));
    AfterCopied(ParseLines(mid, Extra(e.package)).value, e.(package := ""));
  }

  /** With any other name, it is not, unless the name itself gives that id. */
  lemma HarmfulParses(e: Entry, clock: nat)
    requires Sane(e) && !Harmless(e.package)
    requires var r := ParseLines(PROBE, Extra(e.package)); r.Some? ==> r.value.keyId != e.keyId
    ensures var r := Parse(Save(e), clock); r.Parsed? ==> r.entry.keyId != e.keyId
  {
    hide ParseLines, Pieces, Save, CopyAll, Extra, OneLine;
    var mid := FileReads(e);
    LinesTrack(e.keyId, mid, PROBE, Extra(e.package));
    var r := ParseLines(mid, Extra(e.package));
    if r.Some? { AfterCopied(r.value, e.(package := "")); }
  }
}
