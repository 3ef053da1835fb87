/** Whitelisted public keys and the text file each is stored in
    (daemon/core/auth/key_whitelist.cpp and .h). */
module KeyFile {
  import opened Bytes
  import opened Text

  datatype Trust = Pending | Trusted | Rejected | Legacy

  datatype Entry = Entry(
    keyId: string,
    publicKey: seq<byte>,
    algorithm: string,
    createdAt: nat,
    lastUsedAt: nat,
    trust: Trust,
    verified: bool,
    package: string,
    appSig: seq<byte>,
    level: int,
    active: bool)

  const BLANK := Entry("", [], "", 0, 0, Pending, false, "", [], 0, false)

  predicate CanAuthenticate(e: Entry) { e.active && (e.trust == Trusted || e.trust == Legacy) }

  // ---- Printing -------------------------------------------------------------------------------

  datatype Field =
    | KeyId | Algorithm | PublicKey | CreatedAt | LastUsedAt | Verified | Package | AppSig | Level
    | TrustStatus | Active

  function Name(f: Field): string {
    match f
    case KeyId => "key_id"
    case Algorithm => "algorithm"
    case PublicKey => "public_key"
    case CreatedAt => "created_at"
    case LastUsedAt => "last_used_at"
    case Verified => "attestation_verified"
    case Package => "attestation_package"
    case AppSig => "attestation_sig"
    case Level => "attestation_security_level"
    case TrustStatus => "trust_status"
    case Active => "is_active"
  }

  function PrintBool(b: bool): string { if b then "true" else "false" }

  function PrintTrust(t: Trust): string {
    match t
    case Trusted => "TRUSTED"
    case Rejected => "REJECTED"
    case Legacy => "LEGACY"
    case Pending => "PENDING_ATTESTATION"
  }

  function Value(e: Entry, f: Field): string {
    match f
    case KeyId => e.keyId
    case Algorithm => e.algorithm
    case PublicKey => Hex(e.publicKey)
    case CreatedAt => PrintInt(e.createdAt)
    case LastUsedAt => PrintInt(e.lastUsedAt)
    case Verified => PrintBool(e.verified)
    case Package => e.package
    case AppSig => Hex(e.appSig)
    case Level => PrintInt(e.level)
    case TrustStatus => PrintTrust(e.trust)
    case Active => PrintBool(e.active)
  }

  /** The order in which `save_key` writes the fields. */
  const ALL_FIELDS: seq<Field> :=
    [KeyId, Algorithm, PublicKey, CreatedAt, LastUsedAt, Verified, Package, AppSig, Level, TrustStatus, Active]

  function FieldLines(e: Entry, fs: seq<Field>): string {
    if fs == [] then "" else Name(fs[0]) + "=" + Value(e, fs[0]) + "\n" + FieldLines(e, fs[1..])
  }

  const HEADER := "# Futon Public Key Entry"
  const NOTE := "# Auto-generated - do not edit manually"

  function Save(e: Entry): string { HEADER + "\n" + (NOTE + "\n" + ("" + "\n" + FieldLines(e, ALL_FIELDS))) }

  // ---- Parsing --------------------------------------------------------------------------------

  function FieldOf(key: string): Option<Field> {
    if key == "key_id" then Some(KeyId)
    else if key == "algorithm" then Some(Algorithm)
    else if key == "public_key" then Some(PublicKey)
    else if key == "created_at" then Some(CreatedAt)
    else if key == "last_used_at" then Some(LastUsedAt)
    else if key == "attestation_verified" then Some(Verified)
    else if key == "attestation_package" then Some(Package)
    else if key == "attestation_sig" then Some(AppSig)
    else if key == "is_active" then Some(Active)
    else if key == "trust_status" then Some(TrustStatus)
    else if key == "attestation_security_level" then Some(Level)
    else None
  }

  function ParseTrust(v: string): Trust {
    if v == "TRUSTED" then Trusted else if v == "REJECTED" then Rejected else if v == "LEGACY" then Legacy else Pending
  }

  predicate ParseBool(v: string) { v == "true" || v == "1" }

  /** Storing a value; `None` when the number conversion throws. */
  function SetField(e: Entry, f: Field, v: string): Option<Entry> {
    match f
    case KeyId => Some(e.(keyId := v))
    case Algorithm => Some(e.(algorithm := v))
    case PublicKey => var b := Unhex(v); Some(if b.Some? then e.(publicKey := b.value) else e)
    case CreatedAt => var n := ReadUnsigned(v); if n.None? then None else Some(e.(createdAt := n.value))
    case LastUsedAt => var n := ReadUnsigned(v); if n.None? then None else Some(e.(lastUsedAt := n.value))
    case Verified => Some(e.(verified := ParseBool(v)))
    case Package => Some(e.(package := v))
    case AppSig => var b := Unhex(v); Some(if b.Some? then e.(appSig := b.value) else e)
    case Level => var n := ReadSigned(v, INT32); if n.None? then None else Some(e.(level := n.value))
    case TrustStatus => Some(e.(trust := ParseTrust(v)))
    case Active => Some(e.(active := ParseBool(v)))
  }

  /** The field a line sets, and the value. */
  function Sets(line: string): Option<(Field, string)> {
    if line == "" || line[0] == '#' then None
    else
      var eq := IndexOf(line, '=');
      if eq.None? then None
      else
        var f := FieldOf(line[..eq.value]);
        if f.None? then None else Some((f.value, Trim(line[eq.value + 1..])))
  }

  function ParseLine(e: Entry, line: string): Option<Entry> {
    var s := Sets(line);
    if s.None? then Some(e) else SetField(e, s.value.0, s.value.1)
  }

  function ParseLines(e: Entry, lines: seq<string>): Option<Entry>
    decreases |lines|
  {
    if lines == [] then Some(e)
    else
      var r := ParseLine(e, lines[0]);
      if r.None? then None else ParseLines(r.value, lines[1..])
  }

  datatype Outcome = Parsed(entry: Entry) | Invalid | Threw

  /** `parse_key_file`; `clock` stands in for the current time when the file has no creation time. */
  function Parse(content: string, clock: nat): Outcome {
    var r := ParseLines(BLANK, Pieces(content, '\n'));
    if r.None? then Threw
    else if r.value.keyId == "" || r.value.publicKey == [] || r.value.algorithm == "" then Invalid
    else Parsed(if r.value.createdAt == 0 then r.value.(createdAt := clock) else r.value)
  }

  /** The line loop of `parse_key_file`. */
  method ParseFile(content: string, clock: nat) returns (r: Outcome)
    ensures r == Parse(content, clock)
  {
    var lines := Pieces(content, '\n');
    hide ParseLine, Pieces;
    var entry := BLANK;
    var i := 0;
    while i < |lines|
      invariant 0 <= i <= |lines|
      invariant ParseLines(entry, lines[i..]) == ParseLines(BLANK, lines)
    {
      assert lines[i..][1..] == lines[i + 1..];
      var next := ParseLine(entry, lines[i]);
      if next.None? { return Threw; }
      entry := next.value;
      i := i + 1;
    }
    if entry.keyId == "" || entry.publicKey == [] || entry.algorithm == "" { return Invalid; }
    if entry.createdAt == 0 { entry := entry.(createdAt := clock); }
    r := Parsed(entry);
  }

  // ---- Round trip -----------------------------------------------------------------------------

  predicate OneLine(s: string) { '\n' !in s && IsTrimmed(s) }

  /** Numbers that fit their C++ types. */
  predicate Typed(e: Entry) { e.createdAt < UINT64 && e.lastUsedAt < UINT64 && -INT32 <= e.level < INT32 }

  /** What the file holds apart from the package name: trimmed one-line texts and a creation time. */
  predicate Sane(e: Entry) {
    && e.keyId != "" && OneLine(e.keyId) && e.algorithm != "" && OneLine(e.algorithm)
    && e.publicKey != [] && e.createdAt > 0 && Typed(e)
  }

  predicate Storable(e: Entry) { Sane(e) && OneLine(e.package) }

  lemma FieldOfName(f: Field)
    ensures FieldOf(Name(f)) == Some(f)
  {
    match f {
      case KeyId => case Algorithm => case PublicKey => case CreatedAt => case LastUsedAt =>
      case Verified => case Package => case AppSig => case Level => case TrustStatus => case Active =>
    }
  }

  predicate IsNameChar(c: char) { 'a' <= c <= 'z' || c == '_' }

  predicate IsName(s: string) { s != "" && forall i :: 0 <= i < |s| ==> IsNameChar(s[i]) }

  lemma ShortNames()
    ensures IsName("key_id") && IsName("algorithm") && IsName("public_key") && IsName("created_at")
  {}

  lemma MiddleNames()
    ensures IsName("last_used_at") && IsName("is_active") && IsName("trust_status")
  {}

  lemma LongNames()
    ensures IsName("attestation_sig") && IsName("attestation_package")
  {}

  lemma LongestNames()
    ensures IsName("attestation_verified") && IsName("attestation_security_level")
  {}

  lemma NamePlain(f: Field)
    ensures '=' !in Name(f) && '\n' !in Name(f) && Name(f) != "" && Name(f)[0] != '#'
  {
    hide IsName;
    ShortNames();
    MiddleNames();
    LongNames();
    LongestNames();
    assert IsName(Name(f));
    NameIsPlain(Name(f));
  }

  lemma NameIsPlain(s: string)
    requires IsName(s)
    ensures '=' !in s && '\n' !in s && s != "" && s[0] != '#'
  {}

  lemma {:induction false} HexOneLine(data: seq<byte>)
    ensures OneLine(Hex(data))
  {
    HexIsHexText(data);
    var s := Hex(data);
    assert forall i :: 0 <= i < |s| ==> HexValue(s[i]).Some?;
  }

  lemma NumberOneLine(n: int)
    ensures OneLine(PrintInt(n))
  {
    PrintNatReads(if n < 0 then -n else n);
    var s := PrintNat(if n < 0 then -n else n);
    hide PrintNat;
    assert forall i :: 0 <= i < |s| ==> IsDigit(s[i]);
    assert '\n' !in s;
    if n < 0 { assert forall i :: 1 <= i < |"-" + s| ==> ("-" + s)[i] == s[i - 1]; }
  }

  lemma ValueOneLine(e: Entry, f: Field)
    requires Storable(e)
    ensures OneLine(Value(e, f))
  {
    match f
    case PublicKey => HexOneLine(e.publicKey);
    case AppSig => HexOneLine(e.appSig);
    case CreatedAt => NumberOneLine(e.createdAt);
    case LastUsedAt => NumberOneLine(e.lastUsedAt);
    case Level => NumberOneLine(e.level);
    case Verified => BoolOneLine(e.verified);
    case Active => BoolOneLine(e.active);
    case TrustStatus => TrustOneLine(e.trust);
    case _ =>
  }

  lemma BoolOneLine(b: bool)
    ensures OneLine(PrintBool(b)) && ParseBool(PrintBool(b)) == b
  {}

  lemma TrustOneLine(t: Trust)
    ensures OneLine(PrintTrust(t)) && ParseTrust(PrintTrust(t)) == t
  {}

  /** Copies one field from `from` to `to`. */
  function Copy(to: Entry, from: Entry, f: Field): Entry {
    match f
    case KeyId => to.(keyId := from.keyId)
    case Algorithm => to.(algorithm := from.algorithm)
    case PublicKey => to.(publicKey := from.publicKey)
    case CreatedAt => to.(createdAt := from.createdAt)
    case LastUsedAt => to.(lastUsedAt := from.lastUsedAt)
    case Verified => to.(verified := from.verified)
    case Package => to.(package := from.package)
    case AppSig => to.(appSig := from.appSig)
    case Level => to.(level := from.level)
    case TrustStatus => to.(trust := from.trust)
    case Active => to.(active := from.active)
  }

  lemma SetPrinted(to: Entry, e: Entry, f: Field)
    requires Storable(e)
    ensures SetField(to, f, Value(e, f)) == Some(Copy(to, e, f))
  {
    hide PrintInt, ReadNumber, Hex, Unhex, IsTrimmed, PrintBool, ParseBool, PrintTrust, ParseTrust;
    match f
    case PublicKey => HexRoundTrip(e.publicKey);
    case AppSig => HexRoundTrip(e.appSig);
    case CreatedAt => PrintIntReads(e.createdAt);
    case LastUsedAt => PrintIntReads(e.lastUsedAt);
    case Level => PrintIntReads(e.level);
    case Verified => BoolOneLine(e.verified);
    case Active => BoolOneLine(e.active);
    case TrustStatus => TrustOneLine(e.trust);
    case _ =>
  }

  lemma ParsePrintedLine(to: Entry, e: Entry, f: Field)
    requires Storable(e)
    ensures ParseLine(to, Name(f) + "=" + Value(e, f)) == Some(Copy(to, e, f))
  {
    hide Value, Name, FieldOf, SetField, Copy, Trim, IsTrimmed, IndexOf;
    NamePlain(f);
    FieldOfName(f);
    var name, v := Name(f), Value(e, f);
    var line := name + "=" + v;
    IndexOfFirst(name, '=', v);
    assert line[..|name|] == name && line[|name| + 1..] == v && line[0] == name[0];
    ValueOneLine(e, f);
    TrimTrimmed(v);
    SetPrinted(to, e, f);
  }

  /** A line written by hand, with blanks around its value: a flag is set by "true" or "1" and cleared by anything else,
      and a trust that has no name is pending. */
  lemma HandWrittenLine(to: Entry, f: Field, before: string, v: string, after: string)
    requires Trim(before + v + after) == v
    ensures var r := ParseLine(to, Name(f) + "=" + (before + v + after));
            && (f == Active ==> r == Some(to.(active := v in {"true", "1"})))
            && (f == Verified ==> r == Some(to.(verified := v in {"true", "1"})))
            && (f == TrustStatus && v !in {"TRUSTED", "REJECTED", "LEGACY"} ==> r == Some(to.(trust := Pending)))
  {
    hide Name, FieldOf, Trim, IndexOf;
    NamePlain(f);
    FieldOfName(f);
    var name, value := Name(f), before + v + after;
    var line := name + "=" + value;
    IndexOfFirst(name, '=', value);
    assert line[..|name|] == name && line[|name| + 1..] == value && line[0] == name[0];
  }

  function CopyAll(to: Entry, from: Entry, fs: seq<Field>): Entry
    decreases |fs|
  {
    if fs == [] then to else CopyAll(Copy(to, from, fs[0]), from, fs[1..])
  }

  lemma {:induction false} ParsePrintedLines(to: Entry, e: Entry, fs: seq<Field>, rest: string)
    requires Storable(e)
    ensures ParseLines(to, Pieces(FieldLines(e, fs) + rest, '\n')) == ParseLines(CopyAll(to, e, fs), Pieces(rest, '\n'))
    decreases |fs|
  {
    hide Value, Name, Pieces, ParseLine, Storable, Copy;
    if fs == [] {
      assert FieldLines(e, fs) + rest == rest;
    } else {
      var f := fs[0];
      var line, more := Name(f) + "=" + Value(e, f), FieldLines(e, fs[1..]) + rest;
      assert FieldLines(e, fs) + rest == line + ['\n'] + more;
      NamePlain(f);
      ValueOneLine(e, f);
      PiecesCons(line, '\n', more);
      ParsePrintedLine(to, e, f);
      ParsePrintedLines(Copy(to, e, f), e, fs[1..], rest);
      var tail := Pieces(more, '\n');
      assert ([line] + tail)[1..] == tail;
    }
  }

  predicate AgreeOn(a: Entry, b: Entry, f: Field) { Copy(a, b, f) == a }

  lemma CopyAgrees(to: Entry, e: Entry, f: Field, g: Field)
    ensures AgreeOn(Copy(to, e, f), e, f)
    ensures AgreeOn(to, e, g) ==> AgreeOn(Copy(to, e, f), e, g)
  {}

  lemma {:induction false} CopyAllAgrees(to: Entry, e: Entry, fs: seq<Field>, g: Field)
    requires g in fs || AgreeOn(to, e, g)
    ensures AgreeOn(CopyAll(to, e, fs), e, g)
    decreases |fs|
  {
    hide Copy, AgreeOn;
    if fs != [] {
      CopyAgrees(to, e, fs[0], g);
      CopyAllAgrees(Copy(to, e, fs[0]), e, fs[1..], g);
    }
  }

  lemma CopyAllFields(to: Entry, e: Entry)
    ensures CopyAll(to, e, ALL_FIELDS) == e
  {
    var r := CopyAll(to, e, ALL_FIELDS);
    forall f: Field ensures AgreeOn(r, e, f) {
      hide CopyAll, AgreeOn;
      assert f in ALL_FIELDS by { EveryField(f); }
      CopyAllAgrees(to, e, ALL_FIELDS, f);
    }
    hide CopyAll;
    assert AgreeOn(r, e, KeyId) && AgreeOn(r, e, Algorithm) && AgreeOn(r, e, PublicKey) && AgreeOn(r, e, CreatedAt)
        && AgreeOn(r, e, LastUsedAt) && AgreeOn(r, e, Verified) && AgreeOn(r, e, Package) && AgreeOn(r, e, AppSig)
        && AgreeOn(r, e, Level) && AgreeOn(r, e, TrustStatus) && AgreeOn(r, e, Active);
  }

  lemma EveryField(f: Field)
    ensures f in ALL_FIELDS
  {
    assert ALL_FIELDS[0] == KeyId && ALL_FIELDS[1] == Algorithm && ALL_FIELDS[2] == PublicKey
        && ALL_FIELDS[3] == CreatedAt && ALL_FIELDS[4] == LastUsedAt && ALL_FIELDS[5] == Verified
        && ALL_FIELDS[6] == Package && ALL_FIELDS[7] == AppSig && ALL_FIELDS[8] == Level
        && ALL_FIELDS[9] == TrustStatus && ALL_FIELDS[10] == Active;
  }

  lemma SkipLine(e: Entry, line: string, rest: string)
    requires '\n' !in line && (line == "" || line[0] == '#')
    ensures ParseLines(e, Pieces(line + "\n" + rest, '\n')) == ParseLines(e, Pieces(rest, '\n'))
  {
    PiecesCons(line, '\n', rest);
    var tail := Pieces(rest, '\n');
    hide Pieces;
    assert ([line] + tail)[1..] == tail;
  }

  lemma SkipHeader(e: Entry, rest: string)
    ensures ParseLines(e, Pieces(HEADER + "\n" + (NOTE + "\n" + ("" + "\n" + rest)), '\n'))
        == ParseLines(e, Pieces(rest, '\n'))
  {
    hide ParseLines, Pieces;
    HeaderPlain();
    SkipLine(e, HEADER, NOTE + "\n" + ("" + "\n" + rest));
    SkipLine(e, NOTE, "" + "\n" + rest);
    SkipLine(e, "", rest);
  }

  /** `parse_key_file` gives back what `save_key` wrote. */
  lemma SavedKeyParses(e: Entry, clock: nat)
    requires Storable(e)
    ensures Parse(Save(e), clock) == Parsed(e)
  {
    hide FieldLines, Pieces, CopyAll, OneLine;
    var fields := FieldLines(e, ALL_FIELDS);
    SkipHeader(BLANK, fields);
    ParsePrintedLines(BLANK, e, ALL_FIELDS, "");
    CopyAllFields(BLANK, e);
    PiecesLast("", '\n');
    assert fields + "" == fields;
  }

  ghost predicate TextsOneLine(e: Entry) { OneLine(e.keyId) && OneLine(e.algorithm) && OneLine(e.package) }

  lemma SetFieldTexts(e: Entry, f: Field, v: string)
    requires TextsOneLine(e) && Typed(e) && OneLine(v)
    ensures var r := SetField(e, f, v); r.Some? ==> TextsOneLine(r.value) && Typed(r.value)
  {
    hide OneLine, ReadNumber, Unhex, ParseTrust, ParseBool;
  }

  lemma LineTexts(e: Entry, line: string)
    requires TextsOneLine(e) && Typed(e) && '\n' !in line
    ensures var r := ParseLine(e, line); r.Some? ==> TextsOneLine(r.value) && Typed(r.value)
  {
    hide Trim, IsTrimmed, FieldOf, SetField, TextsOneLine, Typed;
    var eq := IndexOf(line, '=');
    if eq.Some? {
      var v := line[eq.value + 1..];
      TrimIsTrimmed(v);
      var f := FieldOf(line[..eq.value]);
      if f.Some? { SetFieldTexts(e, f.value, Trim(v)); }
    }
  }

  lemma {:induction false} ParsedTexts(e: Entry, lines: seq<string>)
    requires TextsOneLine(e) && Typed(e) && forall i :: 0 <= i < |lines| ==> '\n' !in lines[i]
    ensures var r := ParseLines(e, lines); r.Some? ==> TextsOneLine(r.value) && Typed(r.value)
    decreases |lines|
  {
    hide ParseLine, TextsOneLine, Typed;
    if lines != [] {
      LineTexts(e, lines[0]);
      var r := ParseLine(e, lines[0]);
      if r.Some? { ParsedTexts(r.value, lines[1..]); }
    }
  }

  /** Whatever the file holds, a parsed key has what a file can hold. */
  lemma ParsedIsStorable(content: string, clock: nat)
    requires 0 < clock < UINT64
    ensures var r := Parse(content, clock); r.Parsed? ==> Storable(r.entry)
  {
    hide ParseLines, Pieces;
    PiecesFree(content, '\n', '\n');
    ParsedTexts(BLANK, Pieces(content, '\n'));
  }

  /** A key comes back from its file exactly when its texts are trimmed single lines, none of them that must
      not be is empty, and it has a creation time. */
  lemma SavedKeyParsesIff(e: Entry, clock: nat)
    requires Typed(e) && 0 < clock < UINT64
    ensures Parse(Save(e), clock) == Parsed(e) <==> Storable(e)
  {
    hide Parse, Save, Sane, OneLine;
    ParsedIsStorable(Save(e), clock);
    if Storable(e) { SavedKeyParses(e, clock); }
  }

  lemma HeaderPlain()
    ensures '\n' !in HEADER && HEADER[0] == '#' && '\n' !in NOTE && NOTE[0] == '#'
  {}
}
