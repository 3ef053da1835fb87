/** Authorized apps and the text file they are kept in (daemon/core/auth/uid_whitelist.cpp and .h). */
module UidFile {
  import opened Bytes
  import opened Text

  /** `status` is the number of the enumeration constant. */
  datatype App = App(
    uid: int,
    status: int,
    package: string,
    appLabel: string,
    firstSeen: int,
    authorizedAt: int,
    lastAccess: int,
    count: int,
    key: seq<byte>,
    keyTime: int)

  type Apps = map<int, App>

  const UINT32 := 0x1_0000_0000

  // ---- One line -------------------------------------------------------------------------------

  function Fields(a: App): (fs: seq<string>)
    ensures |fs| == 9
  {
    [PrintInt(a.uid), PrintInt(a.status), a.package, a.appLabel, PrintInt(a.firstSeen), PrintInt(a.authorizedAt),
     PrintInt(a.lastAccess), PrintInt(a.count), Hex(a.key)]
  }

  function Join(fs: seq<string>): string
    requires fs != []
  {
    if |fs| == 1 then fs[0] else fs[0] + ['|'] + Join(fs[1..])
  }

  function Line(a: App): string { Join(Fields(a)) }

  predicate InRange(a: App) {
    && 0 <= a.uid < UINT32 && -INT32 <= a.status < INT32 && -INT32 <= a.count < INT32
    && -INT64 <= a.firstSeen < INT64 && -INT64 <= a.authorizedAt < INT64 && -INT64 <= a.lastAccess < INT64
  }

  /** The fields of a line, read as the loader reads them; `None` if a conversion throws. */
  function ReadFields(fs: seq<string>): (r: Option<App>)
    requires |fs| >= 8
    ensures r.Some? ==> InRange(r.value)
  {
    var uid, status, count := ReadUnsigned(fs[0]), ReadSigned(fs[1], INT32), ReadSigned(fs[7], INT32);
    var first, authorized, last := ReadSigned(fs[4], INT64), ReadSigned(fs[5], INT64), ReadSigned(fs[6], INT64);
    if uid.None? || status.None? || first.None? || authorized.None? || last.None? || count.None? then None
    else
      var key := if |fs| > 8 && fs[8] != "" then Unhex(fs[8]) else None;
      Some(App(uid.value % UINT32, status.value, fs[2], fs[3], first.value, authorized.value, last.value, count.value,
               if key.Some? then key.value else [], 0))
  }

  function ReadLine(line: string): (r: Option<App>)
    ensures r.Some? ==> InRange(r.value)
  {
    if line == "" || line[0] == '#' then None
    else
      var fs := Pieces(line, '|');
      if |fs| < 8 then None else ReadFields(fs)
  }

  /** Names the format can hold. */
  predicate Plain(s: string) { '|' !in s && '\n' !in s }

  predicate Storable(a: App) { InRange(a) && Plain(a.package) && Plain(a.appLabel) }

  lemma {:induction false} DigitsPlain(s: string)
    requires forall i :: 0 <= i < |s| ==> s[i] == '-' || IsDigit(s[i])
    ensures Plain(s)
  {}

  lemma NumberPlain(n: int)
    ensures Plain(PrintInt(n)) && PrintInt(n) != "" && PrintInt(n)[0] != '#'
  {
    var m := if n < 0 then -n else n;
    PrintNatReads(m);
    hide PrintNat, DigitsValue;
    var s := PrintInt(n);
    assert n < 0 ==> s[0] == '-' && s[1..] == PrintNat(m);
    DigitsPlain(s);
  }

  lemma HexPlain(data: seq<byte>)
    ensures Plain(Hex(data))
  {
    hide Hex;
    HexIsHexText(data);
  }

  lemma FieldsPlain(a: App)
    requires Storable(a)
    ensures forall i :: 0 <= i < 9 ==> Plain(Fields(a)[i])
  {
    hide PrintInt, Hex, Plain, InRange;
    NumberPlain(a.uid);
    NumberPlain(a.status);
    NumberPlain(a.firstSeen);
    NumberPlain(a.authorizedAt);
    NumberPlain(a.lastAccess);
    NumberPlain(a.count);
    HexPlain(a.key);
  }

  lemma {:induction false} JoinPlain(fs: seq<string>)
    requires fs != [] && forall i :: 0 <= i < |fs| ==> Plain(fs[i])
    ensures '\n' !in Join(fs) && fs[0] <= Join(fs)
  {
    assert Plain(fs[0]);
    if |fs| > 1 { JoinPlain(fs[1..]); }
  }

  lemma PlainHasNoBar(s: string)
    requires Plain(s)
    ensures '|' !in s
  {}

  /** Splitting undoes joining, except that a last empty field disappears. */
  lemma {:induction false} PiecesJoin(fs: seq<string>)
    requires fs != [] && forall i :: 0 <= i < |fs| ==> Plain(fs[i])
    ensures Pieces(Join(fs), '|') == if fs[|fs| - 1] == "" then fs[..|fs| - 1] else fs
  {
    hide Pieces, Plain;
    assert Plain(fs[0]);
    PlainHasNoBar(fs[0]);
    if |fs| == 1 {
      PiecesLast(fs[0], '|');
    } else {
      PiecesCons(fs[0], '|', Join(fs[1..]));
      PiecesJoin(fs[1..]);
      assert [fs[0]] + fs[1..] == fs && [fs[0]] + fs[1..][..|fs| - 2] == fs[..|fs| - 1];
    }
  }

  lemma UnsignedReads(n: int)
    requires 0 <= n < UINT32
    ensures ReadUnsigned(PrintInt(n)) == Some(n)
  {
    hide PrintInt, ReadNumber;
    PrintIntReads(n);
  }

  lemma SignedReads(n: int, limit: nat)
    requires -(limit as int) <= n < limit
    ensures ReadSigned(PrintInt(n), limit) == Some(n)
  {
    hide PrintInt, ReadNumber;
    PrintIntReads(n);
  }

  lemma FieldsRead(a: App, fs: seq<string>)
    requires InRange(a)
    requires fs == Fields(a) || (a.key == [] && fs == Fields(a)[..8])
    ensures ReadFields(fs) == Some(a.(keyTime := 0))
  {
    hide PrintInt, ReadUnsigned, ReadSigned, Unhex, Hex;
    UnsignedReads(a.uid);
    SignedReads(a.status, INT32);
    SignedReads(a.firstSeen, INT64);
    SignedReads(a.authorizedAt, INT64);
    SignedReads(a.lastAccess, INT64);
    SignedReads(a.count, INT32);
    HexRoundTrip(a.key);
  }

  /** A written line reads back as the app, without the time its key was registered. */
  lemma LineReads(a: App)
    requires Storable(a)
    ensures ReadLine(Line(a)) == Some(a.(keyTime := 0)) && '\n' !in Line(a)
  {
    hide PrintInt, ReadFields, Pieces, Join, Hex, Plain, InRange;
    var fs := Fields(a);
    FieldsPlain(a);
    PiecesJoin(fs);
    JoinPlain(fs);
    NumberPlain(a.uid);
    assert Line(a)[0] == fs[0][0];
    assert Hex(a.key) == "" <==> a.key == [];
    FieldsRead(a, Pieces(Line(a), '|'));
  }

  // ---- The file -------------------------------------------------------------------------------

  const TITLE := "# Futon " + "Authorized " + "Apps (v464c)"
  const FORMAT := "# Format: UID|STATUS|" + "PACKAGE|LABEL|" + "FIRST_SEEN|AUTH_AT|" + "LAST_ACCESS|COUNT|PUBKEY"

  function Unlines(lines: seq<string>): string {
    if lines == [] then "" else lines[0] + ['\n'] + Unlines(lines[1..])
  }

  ghost predicate Lists(order: seq<int>, apps: Apps) {
    && (forall i :: 0 <= i < |order| ==> order[i] in apps)
    && (forall uid :: uid in apps ==> uid in order)
  }

  function AppLines(apps: Apps, order: seq<int>): (r: seq<string>)
    requires forall i :: 0 <= i < |order| ==> order[i] in apps
    ensures |r| == |order|
  {
    seq(|order|, i requires 0 <= i < |order| => Line(apps[order[i]]))
  }

  /** The file `save_whitelist` writes; `order` is the order of the map. */
  function FileText(apps: Apps, order: seq<int>): string
    requires forall i :: 0 <= i < |order| ==> order[i] in apps
  {
    Unlines([TITLE, FORMAT] + AppLines(apps, order))
  }

  function LoadLines(lines: seq<string>): (r: Apps)
    ensures forall uid :: uid in r ==> InRange(r[uid]) && r[uid].uid == uid
  {
    if lines == [] then map[]
    else
      var m := LoadLines(lines[..|lines| - 1]);
      var a := ReadLine(lines[|lines| - 1]);
      if a.None? then m else m[a.value.uid := a.value]
  }

  /** The apps `load_whitelist` reads from a file. */
  function Load(text: string): (r: Apps)
    ensures forall uid :: uid in r ==> InRange(r[uid]) && r[uid].uid == uid
  {
    LoadLines(Pieces(text, '\n'))
  }

  lemma {:induction false} LinesBack(lines: seq<string>)
    requires forall i :: 0 <= i < |lines| ==> '\n' !in lines[i]
    ensures Pieces(Unlines(lines), '\n') == lines
  {
    hide Pieces;
    if lines == [] {
      PiecesLast("", '\n');
    } else {
      PiecesCons(lines[0], '\n', Unlines(lines[1..]));
      LinesBack(lines[1..]);
    }
  }

  /** What survives in the file. */
  function Kept(apps: Apps): Apps { map uid | uid in apps :: apps[uid].(keyTime := 0) }

  ghost predicate AllStorable(apps: Apps) {
    forall uid :: uid in apps ==> Storable(apps[uid]) && apps[uid].uid == uid
  }

  lemma TitlePlain()
    ensures '\n' !in TITLE && ReadLine(TITLE) == None
  {
    assert '\n' !in "# Futon " && '\n' !in "Authorized " && '\n' !in "Apps (v464c)";
  }

  lemma FormatPlain()
    ensures '\n' !in FORMAT && ReadLine(FORMAT) == None
  {
    hide ReadFields;
    assert '\n' !in "# Format: UID|STATUS|" && '\n' !in "PACKAGE|LABEL|";
    assert '\n' !in "FIRST_SEEN|AUTH_AT|" && '\n' !in "LAST_ACCESS|COUNT|PUBKEY";
  }

  lemma {:induction false} LoadsLines(apps: Apps, order: seq<int>)
    requires AllStorable(apps) && forall i :: 0 <= i < |order| ==> order[i] in apps
    ensures LoadLines([TITLE, FORMAT] + AppLines(apps, order))
         == map uid | uid in apps && uid in order :: apps[uid].(keyTime := 0)
  {
    hide ReadLine, Storable, Line;
    TitlePlain();
    FormatPlain();
    if order == [] {
      assert [TITLE, FORMAT] + AppLines(apps, order) == [TITLE, FORMAT];
      assert [TITLE, FORMAT][..1] == [TITLE] && [TITLE][..0] == [];
      assert LoadLines([TITLE]) == map[];
    } else {
      var n := |order| - 1;
      var uid := order[n];
      var all := [TITLE, FORMAT] + AppLines(apps, order);
      assert all[..|all| - 1] == [TITLE, FORMAT] + AppLines(apps, order[..n]);
      assert all[|all| - 1] == Line(apps[uid]);
      assert forall u :: u in order <==> u in order[..n] || u == uid;
      LoadsLines(apps, order[..n]);
      LineReads(apps[uid]);
    }
  }

  /** `load_whitelist` inverts `save_whitelist` except for key registration times, for names without a
      separator or a newline. */
  lemma FileLoads(apps: Apps, order: seq<int>)
    requires AllStorable(apps) && Lists(order, apps)
    ensures Load(FileText(apps, order)) == Kept(apps)
  {
    hide Pieces, Unlines, LoadLines, ReadLine, Line, Storable;
    var lines := [TITLE, FORMAT] + AppLines(apps, order);
    AllLinesPlain(apps, order);
    LinesBack(lines);
    LoadsLines(apps, order);
    KeptAll(apps, order);
  }

  lemma KeptAll(apps: Apps, order: seq<int>)
    requires Lists(order, apps)
    ensures Kept(apps) == map uid | uid in apps && uid in order :: apps[uid].(keyTime := 0)
  {
    var m := map uid | uid in apps && uid in order :: apps[uid].(keyTime := 0);
    assert forall uid :: uid in apps ==> uid in order;
    assert m.Keys == Kept(apps).Keys;
  }

  lemma AllLinesPlain(apps: Apps, order: seq<int>)
    requires AllStorable(apps) && forall i :: 0 <= i < |order| ==> order[i] in apps
    ensures var lines := [TITLE, FORMAT] + AppLines(apps, order); forall i :: 0 <= i < |lines| ==> '\n' !in lines[i]
  {
    hide ReadLine, Line, Storable;
    TitlePlain();
    FormatPlain();
    var lines := [TITLE, FORMAT] + AppLines(apps, order);
    forall i | 0 <= i < |lines| ensures '\n' !in lines[i] {
      if i >= 2 {
        var uid := order[i - 2];
        assert uid in apps && Storable(apps[uid]);
        LineReads(apps[uid]);
        assert lines[i] == Line(apps[uid]);
      }
    }
  }

  lemma ReadPlain(line: string)
    requires '\n' !in line
    ensures var r := ReadLine(line); r.Some? ==> Plain(r.value.package) && Plain(r.value.appLabel)
  {
    hide Pieces, ReadUnsigned, ReadSigned, Unhex;
    PiecesFree(line, '|', '|');
    PiecesFree(line, '|', '\n');
  }

  lemma {:induction false} LoadedPlain(lines: seq<string>)
    requires forall i :: 0 <= i < |lines| ==> '\n' !in lines[i]
    ensures PlainNames(LoadLines(lines))
  {
    hide ReadLine, Plain, InRange;
    if lines != [] {
      LoadedPlain(lines[..|lines| - 1]);
      ReadPlain(lines[|lines| - 1]);
    }
  }

  ghost predicate PlainNames(apps: Apps) {
    forall uid :: uid in apps ==> Plain(apps[uid].package) && Plain(apps[uid].appLabel)
  }

  /** The file gives the apps back exactly when no name holds a separator or a newline. */
  lemma FileLoadsIff(apps: Apps, order: seq<int>)
    requires Lists(order, apps) && forall uid :: uid in apps ==> InRange(apps[uid]) && apps[uid].uid == uid
    ensures Load(FileText(apps, order)) == Kept(apps) <==> PlainNames(apps)
  {
    hide Pieces, FileText, LoadLines, Plain, InRange;
    var text := FileText(apps, order);
    if PlainNames(apps) {
      FileLoads(apps, order);
    } else {
      PiecesFree(text, '\n', '\n');
      LoadedPlain(Pieces(text, '\n'));
      var uid :| uid in apps && !(Plain(apps[uid].package) && Plain(apps[uid].appLabel));
      assert uid in Kept(apps);
    }
  }

  // ---- Names the format cannot hold -----------------------------------------------------------

  lemma {:induction false} PiecesShort(s: string, d: char)
    ensures forall i :: 0 <= i < |Pieces(s, d)| ==> |Pieces(s, d)[i]| <= |s|
    decreases |s|
  {
    if s != "" {
      var at := IndexOf(s, d);
      if at.Some? {
        PiecesShort(s[at.value + 1..], d);
        assert Pieces(s, d) == [s[..at.value]] + Pieces(s[at.value + 1..], d);
      }
    }
  }

  /** Every app loaded is read from some line. */
  lemma {:induction false} LoadedFromLine(lines: seq<string>, uid: int) returns (i: nat)
    requires uid in LoadLines(lines)
    ensures i < |lines| && ReadLine(lines[i]) == Some(LoadLines(lines)[uid])
  {
    hide ReadLine, InRange;
    var n := |lines| - 1;
    var a := ReadLine(lines[n]);
    if a.Some? && a.value.uid == uid {
      i := n;
    } else {
      i := LoadedFromLine(lines[..n], uid);
    }
  }

  /** A key is read from the ninth field, two digits a byte. */
  lemma KeyIsNinth(line: string)
    requires ReadLine(line).Some? && ReadLine(line).value.key != []
    ensures var fs := Pieces(line, '|');
            |fs| > 8 && |fs[8]| == 2 * |ReadLine(line).value.key| && ReadsAs(fs[0], ReadLine(line).value.uid)
  {
    hide Pieces, ReadUnsigned, ReadSigned;
  }

  predicate ReadsAs(s: string, uid: int) {
    var r := ReadUnsigned(s);
    r.Some? && r.value % UINT32 == uid
  }

  /** The fields after the label of an app fresh at time 1. */
  function Tail(key: seq<byte>): string { "1|1|1|0|" + Hex(key) }

  lemma TailPieces(key: seq<byte>)
    requires key != []
    ensures Pieces(Tail(key), '|') == ["1", "1", "1", "0", Hex(key)]
  {
    hide Pieces, Hex;
    HexPlain(key);
    var h := Hex(key);
    PiecesLast(h, '|');
    PiecesCons("0", '|', h);
    PiecesCons("1", '|', "0" + ['|'] + h);
    PiecesCons("1", '|', "1" + ['|'] + ("0" + ['|'] + h));
    PiecesCons("1", '|', "1" + ['|'] + ("1" + ['|'] + ("0" + ['|'] + h)));
    assert Tail(key) == "1" + ['|'] + ("1" + ['|'] + ("1" + ['|'] + ("0" + ['|'] + h)));
  }

  /** The last line of the file: text before the key can make it another app's line or none, but not the line of
      `uid` with `key`, unless it is exactly the first four fields of that line. */
  lemma LastLineKey(m: string, uid: int, key: seq<byte>)
    requires |key| > |m| + 1
    requires var fs := Pieces(m + "|", '|'); |fs| == 4 ==> !ReadsAs(fs[0], uid)
    ensures var r := ReadLine(m + "|" + Tail(key)); r.Some? && r.value.key == key ==> r.value.uid != uid
  {
    hide ReadLine, Pieces, Hex, ReadsAs, Tail;
    var line := m + "|" + Tail(key);
    var r := ReadLine(line);
    if r.Some? && r.value.key == key {
      KeyIsNinth(line);
      PiecesSplit(m, '|', Tail(key));
      TailPieces(key);
      PiecesShort(m + "|", '|');
      var fs := Pieces(m + "|", '|');
      var all := fs + ["1", "1", "1", "0", Hex(key)];
      assert Pieces(line, '|') == all;
      assert |fs| == 4;
    }
  }

  /** So the file does not give `uid` the key back. */
  lemma KeyNotLoaded(h: string, m: string, uid: int, key: seq<byte>)
    requires '\n' !in m && |key| > |h| + |m| + 2
    requires var fs := Pieces(m + "|", '|'); |fs| == 4 ==> !ReadsAs(fs[0], uid)
    ensures var apps := Load(h + "\n" + (m + "|" + Tail(key) + "\n")); uid in apps ==> apps[uid].key != key
  {
    hide ReadLine, Pieces, ReadsAs, Hex, LoadLines, Tail;
    var line := m + "|" + Tail(key);
    var text := h + "\n" + (line + "\n");
    TailPlain(key);
    PiecesSplit(h, '\n', line + "\n");
    PiecesCons(line, '\n', "");
    PiecesLast("", '\n');
    assert line + ['\n'] + "" == line + "\n";
    var front := Pieces(h + "\n", '\n');
    assert Pieces(text, '\n') == front + [line];
    var apps := Load(text);
    if uid in apps && apps[uid].key == key {
      var i := LoadedFromLine(front + [line], uid);
      LastLineKey(m, uid, key);
      PiecesShort(h + "\n", '\n');
      KeyIsNinth((front + [line])[i]);
      PiecesShort((front + [line])[i], '|');
    }
  }

  lemma TailPlain(key: seq<byte>)
    ensures '\n' !in Tail(key)
  {
    hide Hex;
    HexPlain(key);
  }

  /** An app fresh at time 1, with a key. */
  function Fresh(uid: int, status: int, name: string, key: seq<byte>): App {
    App(uid, status, "", name, 1, 1, 1, 0, key, 1)
  }

  lemma JoinFrom(fs: seq<string>, i: nat)
    requires i < |fs|
    ensures Join(fs[i..]) == if i == |fs| - 1 then fs[i] else fs[i] + ['|'] + Join(fs[i + 1..])
  {
    if i < |fs| - 1 { assert fs[i..][1..] == fs[i + 1..]; }
  }

  /** A line as its first four fields and the others. */
  lemma LineSplits(a: App)
    ensures Line(a) == (PrintInt(a.uid) + "|" + PrintInt(a.status) + "|" + a.package + "|") + a.appLabel + "|" +
        Join(Fields(a)[4..])
  {
    hide Join, PrintInt, Hex;
    var fs := Fields(a);
    assert fs[0..] == fs;
    JoinFrom(fs, 0);
    JoinFrom(fs, 1);
    JoinFrom(fs, 2);
    JoinFrom(fs, 3);
    FourRegroup(fs[0], fs[1], fs[2], fs[3], Join(fs[4..]));
  }

  lemma FourRegroup(a: string, b: string, c: string, d: string, t: string)
    ensures a + ['|'] + (b + ['|'] + (c + ['|'] + (d + ['|'] + t))) == (a + "|" + b + "|" + c + "|") + d + "|" + t
  {}

  lemma FreshTail(uid: int, status: int, name: string, key: seq<byte>)
    ensures Join(Fields(Fresh(uid, status, name, key))[4..]) == Tail(key)
  {
    hide Join, Hex;
    var fs := Fields(Fresh(uid, status, name, key));
    assert PrintInt(1) == "1" && PrintInt(0) == "0";
    JoinFrom(fs, 4);
    JoinFrom(fs, 5);
    JoinFrom(fs, 6);
    JoinFrom(fs, 7);
    JoinFrom(fs, 8);
  }

  lemma FileEnds(apps: Apps, order: seq<int>)
    requires order != [] && forall i :: 0 <= i < |order| ==> order[i] in apps
    ensures FileText(apps, order)
         == Unlines([TITLE, FORMAT] + AppLines(apps, order[..|order| - 1])) + Line(apps[order[|order| - 1]]) + "\n"
  {
    hide Unlines, Line;
    var n := |order| - 1;
    UnlinesSnoc([TITLE, FORMAT] + AppLines(apps, order[..n]), Line(apps[order[n]]));
    assert [TITLE, FORMAT] + AppLines(apps, order)
        == [TITLE, FORMAT] + AppLines(apps, order[..n]) + [Line(apps[order[n]])];
  }

  const HEAD := TITLE + "\n" + FORMAT

  lemma OneAppFile(uid: int, status: int, name: string, key: seq<byte>)
    ensures FileText(map[uid := Fresh(uid, status, name, key)], [uid])
         == HEAD + "\n" + (PrintInt(uid) + "|" + PrintInt(status) + "||" + name + "|" + Tail(key) + "\n")
  {
    hide Unlines, Line, Tail, PrintInt, Fields;
    var a := Fresh(uid, status, name, key);
    var apps := map[uid := a];
    FileEnds(apps, [uid]);
    LineSplits(a);
    FreshTail(uid, status, name, key);
    assert [TITLE, FORMAT] + AppLines(apps, [uid][..0]) == [TITLE, FORMAT];
    HeadLines();
    assert PrintInt(uid) + "|" + PrintInt(status) + "|" + "" + "|" == PrintInt(uid) + "|" + PrintInt(status) + "||";
  }

  lemma HeadLines()
    ensures Unlines([TITLE, FORMAT]) == HEAD + "\n"
  {
    assert [TITLE, FORMAT][1..] == [FORMAT] && [FORMAT][1..] == [];
    assert Unlines([FORMAT]) == FORMAT + ['\n'] + Unlines([]);
  }

  lemma LastNewline(s: string) returns (a: string, b: string)
    requires '\n' in s
    ensures s == a + "\n" + b && '\n' !in b
  {
    var n := |s| - 1;
    if s[n] == '\n' {
      a, b := s[..n], "";
    } else {
      var x;
      a, x := LastNewline(s[..n]);
      b := x + [s[n]];
    }
  }

  lemma BarMakesFive(uid: string, status: string, name: string)
    requires '|' !in uid && '|' !in status && '|' in name
    ensures |Pieces(uid + "|" + status + "||" + name + "|", '|')| >= 5
  {
    hide Pieces;
    var at := IndexOf(name, '|').value;
    var a, b := name[..at], name[at + 1..];
    FivePieces(uid, status, a, b);
    assert name == a + ['|'] + b;
    BarsRegroup(uid, status, a, b);
  }

  lemma BarsRegroup(uid: string, status: string, a: string, b: string)
    ensures uid + "|" + status + "||" + (a + ['|'] + b) + "|"
         == uid + ['|'] + (status + ['|'] + ("" + ['|'] + (a + ['|'] + (b + "|"))))
  {}

  lemma FivePieces(uid: string, status: string, a: string, b: string)
    requires '|' !in uid && '|' !in status && '|' !in a
    ensures |Pieces(uid + ['|'] + (status + ['|'] + ("" + ['|'] + (a + ['|'] + (b + "|")))), '|')| >= 5
  {
    hide Pieces;
    var t1 := b + "|";
    var t2 := a + ['|'] + t1;
    var t3 := "" + ['|'] + t2;
    NonemptyPieces(t1);
    PiecesCons(a, '|', t1);
    PiecesCons("", '|', t2);
    PiecesCons(status, '|', t3);
    PiecesCons(uid, '|', status + ['|'] + t3);
  }

  lemma NonemptyPieces(s: string)
    requires s != ""
    ensures |Pieces(s, '|')| >= 1
  {}

  /** For every name the format cannot hold there is a uid and a key that the file of that one app does not
      give back. */
  lemma UnreadableKey(status: int, name: string) returns (uid: int, key: seq<byte>)
    requires !Plain(name)
    ensures 0 <= uid < UINT32 && key != []
    ensures var apps := Load(FileText(map[uid := Fresh(uid, status, name, key)], [uid])); uid in apps ==>
        apps[uid].key != key
  {
    hide Load, FileText, Tail, PrintInt, Pieces, ReadsAs, Hex;
    if '\n' in name {
      var n0, n1 := LastNewline(name);
      var fs := Pieces(n1 + "|", '|');
      uid := if |fs| == 4 && ReadsAs(fs[0], 0) then 1 else 0;
      ReadsOne(if |fs| == 4 then fs[0] else "");
      var pre := PrintInt(uid) + "|" + PrintInt(status) + "||";
      key := seq(|HEAD| + |pre| + |name| + 10, _ => 0);
      OneAppFile(uid, status, name, key);
      KeyNotLoaded(HEAD + "\n" + pre + n0, n1, uid, key);
      Regroup(HEAD, pre, n0, n1, Tail(key));
    } else {
      uid := 0;
      NumberPlain(uid);
      NumberPlain(status);
      var m := PrintInt(uid) + "|" + PrintInt(status) + "||" + name;
      BarMakesFive(PrintInt(uid), PrintInt(status), name);
      key := seq(|HEAD| + |m| + 10, _ => 0);
      OneAppFile(uid, status, name, key);
      KeyNotLoaded(HEAD, m, uid, key);
    }
  }

  lemma Regroup(h: string, pre: string, a: string, b: string, t: string)
    ensures h + "\n" + (pre + (a + "\n" + b) + "|" + t + "\n") == (h + "\n" + pre + a) + "\n" + (b + "|" + t + "\n")
  {}

  lemma {:induction false} PiecesJoinMore(fs: seq<string>, t: string)
    requires fs != [] && forall i :: 0 <= i < |fs| ==> Plain(fs[i])
    ensures Pieces(Join(fs) + "|" + t, '|') == fs + Pieces(t, '|')
  {
    hide Pieces, Plain;
    assert Plain(fs[0]);
    PlainHasNoBar(fs[0]);
    if |fs| == 1 {
      PiecesCons(fs[0], '|', t);
    } else {
      var rest := Join(fs[1..]) + "|" + t;
      assert Join(fs) + "|" + t == fs[0] + ['|'] + rest;
      PiecesCons(fs[0], '|', rest);
      PiecesJoinMore(fs[1..], t);
    }
  }

  /** A line with more fields after it reads the same, if it has a key. */
  lemma LineAndMoreReads(b: App, t: string)
    requires Storable(b) && b.key != []
    ensures ReadLine(Line(b) + "|" + t) == Some(b.(keyTime := 0))
  {
    hide PrintInt, Pieces, Join, Hex, Plain, InRange, ReadUnsigned, ReadSigned, Unhex;
    var fs := Fields(b);
    FieldsPlain(b);
    PiecesJoinMore(fs, t);
    JoinPlain(fs);
    NumberPlain(b.uid);
    assert (Line(b) + "|" + t)[0] == fs[0][0];
    FieldsRead(b, fs);
  }

  /** If the label of the last app listed ends in a line of its own, that line is loaded last. */
  lemma LastLineWins(apps: Apps, order: seq<int>, x: string, b: App)
    requires order != [] && forall i :: 0 <= i < |order| ==> order[i] in apps
    requires var a := apps[order[|order| - 1]]; a.appLabel == x + "\n" + Line(b)
    requires Storable(b) && b.key != []
    ensures var r := Load(FileText(apps, order)); b.uid in r && r[b.uid] == b.(keyTime := 0)
  {
    hide Unlines, Line, PrintInt, Pieces, ReadLine, Join, Fields, Storable, InRange;
    var a := apps[order[|order| - 1]];
    var front := Unlines([TITLE, FORMAT] + AppLines(apps, order[..|order| - 1]));
    var pre, more := PrintInt(a.uid) + "|" + PrintInt(a.status) + "|" + a.package + "|", Join(Fields(a)[4..]);
    FileEnds(apps, order);
    LineSplits(a);
    var line := Line(b) + "|" + more;
    assert front + Line(a) + "\n" == (front + pre + x) + "\n" + (line + "\n");
    MoreIsOneLine(a);
    LineReads(b);
    PiecesSplit(front + pre + x, '\n', line + "\n");
    PiecesCons(line, '\n', "");
    PiecesLast("", '\n');
    assert line + ['\n'] + "" == line + "\n";
    var lines := Pieces(front + pre + x + "\n", '\n') + [line];
    assert lines[..|lines| - 1] == Pieces(front + pre + x + "\n", '\n');
    LineAndMoreReads(b, more);
  }

  lemma MoreIsOneLine(a: App)
    ensures '\n' !in Join(Fields(a)[4..])
  {
    hide PrintInt, Hex, Join, Plain;
    var fs := Fields(a)[4..];
    NumberPlain(a.firstSeen);
    NumberPlain(a.authorizedAt);
    NumberPlain(a.lastAccess);
    NumberPlain(a.count);
    HexPlain(a.key);
    JoinPlain(fs);
  }

  lemma ReadsOne(s: string)
    ensures !(ReadsAs(s, 0) && ReadsAs(s, 1))
  {}

  // ---- The code -------------------------------------------------------------------------------

  method LoadFile(text: string) returns (apps: Apps)
    ensures apps == Load(text)
  {
    hide ReadFields, Pieces;
    apps := map[];
    var lines := Pieces(text, '\n');
    for i := 0 to |lines|
      invariant apps == LoadLines(lines[..i])
    {
      assert lines[..i + 1][..i] == lines[..i];
      var line := lines[i];
      if line == "" || line[0] == '#' { continue; }
      var fs := Pieces(line, '|');
      if |fs| < 8 { continue; }
      var a := ReadFields(fs);
      if a.Some? { apps := apps[a.value.uid := a.value]; }
    }
    assert lines[..|lines|] == lines;
  }

  lemma {:induction false} UnlinesSnoc(lines: seq<string>, line: string)
    ensures Unlines(lines + [line]) == Unlines(lines) + line + ['\n']
  {
    var all := lines + [line];
    if lines == [] {
      assert all == [line] && [line][1..] == [];
    } else {
      assert all[1..] == lines[1..] + [line] && all[0] == lines[0];
      UnlinesSnoc(lines[1..], line);
    }
  }

  method SaveFile(apps: Apps, order: seq<int>) returns (text: string)
    requires Lists(order, apps)
    ensures text == FileText(apps, order)
  {
    hide Unlines, Line;
    var head := [TITLE, FORMAT];
    UnlinesSnoc([], TITLE);
    UnlinesSnoc([TITLE], FORMAT);
    text := Unlines([]) + TITLE + ['\n'] + FORMAT + ['\n'];
    assert [] + [TITLE] == [TITLE] && [TITLE] + [FORMAT] == head;
    ghost var lines := AppLines(apps, order);
    assert head + lines[..0] == head;
    for i := 0 to |order|
      invariant text == Unlines(head + lines[..i])
    {
      UnlinesSnoc(head + lines[..i], Line(apps[order[i]]));
      assert head + lines[..i + 1] == head + lines[..i] + [Line(apps[order[i]])];
      text := text + Line(apps[order[i]]) + ['\n'];
    }
    assert lines[..|order|] == lines;
  }
}
