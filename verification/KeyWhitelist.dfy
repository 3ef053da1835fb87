/** The key whitelist: the keys in memory and the directory of key files behind them
    (daemon/core/auth/key_whitelist.cpp). File writes succeed. */
module KeyWhitelist {
  import opened Bytes
  import opened Text
  import opened KeyFile
  import opened KeyNames
  import opened Crypto

  datatype Store = Store(keys: map<string, Entry>, dir: map<string, string>)

  const EMPTY := Store(map[], map[])

  /** What the attestation verifier reports for a certificate chain. */
  datatype Attestation = Genuine(package: string, appSig: seq<byte>, level: int) | NotGenuine

  function KeyIdOf(p: Primitives, publicKey: seq<byte>): string { Hex(p.sha256(publicKey)[..16]) }

  function FileName(id: string): string { id + ".key" }

  function IdOf(name: string): string { if |name| < 4 then name else name[..|name| - 4] }

  function WriteFile(s: Store, e: Entry): Store {
    Store(s.keys[e.keyId := e], s.dir[FileName(e.keyId) := Save(e)])
  }

  function Attest(e: Entry, a: Attestation): Entry
    requires a.Genuine?
  {
    e.(verified := true, package := a.package, appSig := a.appSig, level := a.level, trust := Trusted)
  }

  function NewEntry(
    id: string, publicKey: seq<byte>, algorithm: string, chain: Option<Attestation>, clock: nat): Entry
  {
    var e := Entry(id, publicKey, algorithm, clock, 0, Pending, false, "", [], 0, true);
    if chain.Some? && chain.value.Genuine? then Attest(e, chain.value) else e
  }

  /** `add_key`; `chain` is the verdict on the certificate chain, if one was given. */
  function Add(
    s: Store, p: Primitives, publicKey: seq<byte>, algorithm: string, chain: Option<Attestation>, clock: nat): Store
  {
    if publicKey == [] || (algorithm != "EC_P256" && algorithm != "ED25519") then s
    else
      var id := KeyIdOf(p, publicKey);
      if id in s.keys then s else WriteFile(s, NewEntry(id, publicKey, algorithm, chain, clock))
  }

  function Remove(s: Store, id: string): Store {
    if id !in s.keys then s else Store(s.keys - {id}, s.dir - {FileName(id)})
  }

  function Verdict(e: Entry, a: Attestation): Entry {
    if a.Genuine? then Attest(e, a) else e.(trust := Rejected, active := false)
  }

  /** `verify_key_attestation`: a key that fails is rejected and made inactive. */
  function VerifyAttestation(s: Store, id: string, a: Attestation): Store {
    if id !in s.keys || s.keys[id].trust == Trusted then s
    else WriteFile(s, Verdict(s.keys[id], a))
  }

  function MarkUsed(s: Store, id: string, clock: nat): Store {
    if id in s.keys then s.(keys := s.keys[id := s.keys[id].(lastUsedAt := clock)]) else s
  }

  predicate IsKeyFile(name: string) {
    (name == "" || name[0] != '.') && |name| >= 4 && name[|name| - 4..] == ".key"
  }

  datatype Loaded = Loaded(keys: map<string, Entry>, threw: bool)

  /** `load_keys` over the directory entries in the order they are listed. A file that makes a number conversion
      throw ends the loading, with the keys read before it in memory. */
  function Load(dir: map<string, string>, order: seq<string>, clock: nat): Loaded {
    if order == [] then Loaded(map[], false)
    else
      var name := order[|order| - 1];
      var m := Load(dir, order[..|order| - 1], clock);
      if m.threw || name !in dir || !IsKeyFile(name) then m
      else match Parse(dir[name], clock)
        case Parsed(e) => m.(keys := m.keys[e.keyId := e])
        case Invalid => m
        case Threw => m.(threw := true)
  }

  function Reload(s: Store, order: seq<string>, clock: nat): Store { s.(keys := Load(s.dir, order, clock).keys) }

  // ---- Memory and directory agree -------------------------------------------------------------

  // Two readings of "agree", proved together. In the strict one, package names are trimmed single lines and a
  // file holds all of its key but the time of last use. In the other, names are harmless and a file holds the
  // trust and the activity of its key, under its id.

  predicate IsId(id: string) { |id| == 32 && IsHexText(id) }

  predicate Allowed(strict: bool, name: string) { if strict then OneLine(name) else Harmless(name) }

  ghost predicate Good(strict: bool, id: string, e: Entry) {
    && IsId(id) && e.keyId == id && Sane(e) && Allowed(strict, e.package)
    && (e.trust == Rejected ==> !e.active)
  }

  ghost predicate SameButUsed(a: Entry, b: Entry) { a.(lastUsedAt := 0) == b.(lastUsedAt := 0) }

  ghost predicate Like(strict: bool, a: Entry, b: Entry) {
    a.trust == b.trust && a.active == b.active && (strict ==> SameButUsed(a, b))
  }

  ghost predicate Holds(strict: bool, text: string, id: string, e: Entry, f: Entry) {
    text == Save(f) && Good(strict, id, f) && Like(strict, f, e)
  }

  ghost predicate OnDisk(strict: bool, s: Store, id: string)
    requires id in s.keys
  {
    FileName(id) in s.dir && exists f :: Holds(strict, s.dir[FileName(id)], id, s.keys[id], f)
  }

  ghost predicate Agree(strict: bool, s: Store) {
    && (forall id :: id in s.keys ==> Good(strict, id, s.keys[id]) && OnDisk(strict, s, id))
    && (forall name :: name in s.dir ==> IdOf(name) in s.keys && FileName(IdOf(name)) == name)
  }

  lemma IdOfFileName(id: string)
    ensures IdOf(FileName(id)) == id
  {
    var s := FileName(id);
    assert s[..|s| - 4] == id;
  }

  lemma FileNameInjective(a: string, b: string)
    requires FileName(a) == FileName(b)
    ensures a == b
  {
    IdOfFileName(a);
    IdOfFileName(b);
  }

  lemma IdIsOneLine(id: string)
    requires IsId(id)
    ensures id != "" && OneLine(id) && IsKeyFile(FileName(id))
  {
    assert forall i :: 0 <= i < |id| ==> HexValue(id[i]).Some?;
    var s := FileName(id);
    assert s[0] == id[0] && s[|s| - 4..] == ".key";
  }

  lemma KeyIdIsId(p: Primitives, publicKey: seq<byte>)
    ensures IsId(KeyIdOf(p, publicKey))
  {
    HexIsHexText(p.sha256(publicKey)[..16]);
  }

  lemma OneLineAllowed(strict: bool, name: string)
    requires OneLine(name)
    ensures Allowed(strict, name)
  {
    hide Harmless;
    SingleLineHarmless(name);
  }

  /** An id not touched keeps its file. */
  lemma FileKept(strict: bool, s: Store, t: Store, id: string)
    requires id in s.keys && OnDisk(strict, s, id) && id in t.keys && FileName(id) in t.dir
    requires t.dir[FileName(id)] == s.dir[FileName(id)] && Like(strict, s.keys[id], t.keys[id])
    ensures OnDisk(strict, t, id)
  {
    hide Save, Good;
    var f :| Holds(strict, s.dir[FileName(id)], id, s.keys[id], f);
    assert Holds(strict, t.dir[FileName(id)], id, t.keys[id], f);
  }

  /** Writing a good entry keeps memory and directory in step. */
  lemma WriteFileAgrees(strict: bool, s: Store, e: Entry)
    requires Agree(strict, s) && Good(strict, e.keyId, e)
    ensures Agree(strict, WriteFile(s, e))
  {
    hide Save, Good, FileName, IdOf, Like;
    IdOfFileName(e.keyId);
    var t := WriteFile(s, e);
    forall id | id in t.keys ensures Good(strict, id, t.keys[id]) && OnDisk(strict, t, id) {
      if id == e.keyId {
        LikeSelf(strict, e);
        assert Holds(strict, t.dir[FileName(id)], id, e, e);
      } else {
        if FileName(id) == FileName(e.keyId) { FileNameInjective(id, e.keyId); }
        LikeSelf(strict, s.keys[id]);
        FileKept(strict, s, t, id);
      }
    }
  }

  lemma LikeSelf(strict: bool, e: Entry)
    ensures Like(strict, e, e)
  {}

  lemma RemoveAgrees(strict: bool, s: Store, id: string)
    requires Agree(strict, s)
    ensures Agree(strict, Remove(s, id))
  {
    hide Save, Good, FileName, IdOf, Like, OnDisk;
    var t := Remove(s, id);
    if id in s.keys {
      forall k | k in t.keys ensures Good(strict, k, t.keys[k]) && OnDisk(strict, t, k) {
        if FileName(k) == FileName(id) { FileNameInjective(k, id); }
        LikeSelf(strict, s.keys[k]);
        HasFile(strict, s, k);
        FileKept(strict, s, t, k);
      }
    }
  }

  lemma HasFile(strict: bool, s: Store, id: string)
    requires id in s.keys && OnDisk(strict, s, id)
    ensures FileName(id) in s.dir
  {}

  lemma MarkUsedAgrees(strict: bool, s: Store, id: string, clock: nat)
    requires Agree(strict, s) && clock < UINT64
    ensures Agree(strict, MarkUsed(s, id, clock))
  {
    hide Save, FileName, IdOf, OnDisk, IsId, OneLine, Harmless;
    var t := MarkUsed(s, id, clock);
    forall k | k in t.keys ensures Good(strict, k, t.keys[k]) && OnDisk(strict, t, k) {
      assert Good(strict, k, s.keys[k]);
      HasFile(strict, s, k);
      FileKept(strict, s, t, k);
    }
  }

  /** Reading the file of a key gives the key back, as far as files hold it. */
  lemma FileParses(strict: bool, s: Store, id: string, clock: nat)
    requires Agree(strict, s) && id in s.keys && 0 < clock < UINT64
    ensures FileName(id) in s.dir && IsKeyFile(FileName(id))
    ensures var r := Parse(s.dir[FileName(id)], clock);
            r.Parsed? && Good(strict, id, r.entry) && Like(strict, r.entry, s.keys[id])
  {
    hide Save, Parse, IsKeyFile, FileName, IdOf, Harmless, OneLine, Sane;
    assert OnDisk(strict, s, id) && Good(strict, id, s.keys[id]);
    IdIsOneLine(id);
    var f :| Holds(strict, s.dir[FileName(id)], id, s.keys[id], f);
    ParsedIsStorable(Save(f), clock);
    if strict {
      SavedKeyParses(f, clock);
    } else {
      HarmlessParses(f, clock);
      OneLineAllowed(strict, Parse(Save(f), clock).entry.package);
    }
  }

  lemma DirNames(strict: bool, s: Store, name: string)
    requires Agree(strict, s) && name in s.dir
    ensures IdOf(name) in s.keys && FileName(IdOf(name)) == name
  {}

  /** After loading the listed files, exactly their keys are in memory. */
  lemma {:induction false} LoadGives(strict: bool, s: Store, order: seq<string>, clock: nat)
    requires Agree(strict, s) && 0 < clock < UINT64 && forall name :: name in order ==> name in s.dir
    ensures var m := Load(s.dir, order, clock);
            && !m.threw && (forall id :: id in m.keys <==> id in s.keys && FileName(id) in order)
            && (forall id :: id in m.keys ==> Good(strict, id, m.keys[id]) && Like(strict, m.keys[id], s.keys[id]))
  {
    hide Parse, IsKeyFile, Agree, Like, FileName, IdOf, Sane, Allowed, IsId;
    if order != [] {
      var n := |order| - 1;
      var name := order[n];
      assert forall x :: x in order[..n] ==> x in order;
      LoadGives(strict, s, order[..n], clock);
      var id := IdOf(name);
      DirNames(strict, s, name);
      FileParses(strict, s, id, clock);
      assert forall x :: x in order <==> x in order[..n] || x == name;
      forall k | FileName(k) == name ensures k == id { FileNameInjective(k, id); }
    }
  }

  ghost predicate Lists(order: seq<string>, dir: map<string, string>) {
    forall name :: name in order <==> name in dir
  }

  lemma ReloadLike(strict: bool, s: Store, order: seq<string>, clock: nat)
    requires Agree(strict, s) && Lists(order, s.dir) && 0 < clock < UINT64
    ensures var t := Reload(s, order, clock);
            && t.keys.Keys == s.keys.Keys && t.dir == s.dir && !Load(s.dir, order, clock).threw
            && (forall id :: id in s.keys ==> Good(strict, id, t.keys[id]) && Like(strict, t.keys[id], s.keys[id]))
  {
    hide Load, Like, FileName, IdOf, Save, Good, Holds;
    LoadGives(strict, s, order, clock);
    assert forall id :: id in s.keys ==> OnDisk(strict, s, id);
  }

  lemma ReloadAgrees(strict: bool, s: Store, order: seq<string>, clock: nat)
    requires Agree(strict, s) && Lists(order, s.dir) && 0 < clock < UINT64
    ensures Agree(strict, Reload(s, order, clock))
  {
    hide Reload, Lists, FileName, IdOf, Good, OnDisk, Load;
    ReloadLike(strict, s, order, clock);
    var t := Reload(s, order, clock);
    forall id | id in t.keys ensures Good(strict, id, t.keys[id]) && OnDisk(strict, t, id) {
      HasFile(strict, s, id);
      FileKept(strict, s, t, id);
    }
  }

  // ---- Runs -----------------------------------------------------------------------------------

  datatype Event =
    | Added(publicKey: seq<byte>, algorithm: string, chain: Option<Attestation>, clock: nat)
    | Removed(id: string)
    | Attested(id: string, verdict: Attestation)
    | Used(id: string, clock: nat)
    | Reloaded(order: seq<string>, clock: nat)

  function Step(p: Primitives, s: Store, e: Event): Store {
    match e
    case Added(publicKey, algorithm, chain, clock) => Add(s, p, publicKey, algorithm, chain, clock)
    case Removed(id) => Remove(s, id)
    case Attested(id, verdict) => VerifyAttestation(s, id, verdict)
    case Used(id, clock) => MarkUsed(s, id, clock)
    case Reloaded(order, clock) => Reload(s, order, clock)
  }

  predicate Fits(a: Attestation) { a.Genuine? ==> -INT32 <= a.level < INT32 }

  /** Levels and clocks are values of their types, clocks are positive, and a reload lists the directory. */
  ghost predicate Fair(s: Store, e: Event) {
    match e
    case Added(_, _, chain, clock) => 0 < clock < UINT64 && (chain.Some? ==> Fits(chain.value))
    case Removed(_) => true
    case Attested(_, verdict) => Fits(verdict)
    case Used(_, clock) => clock < UINT64
    case Reloaded(order, clock) => Lists(order, s.dir) && 0 < clock < UINT64
  }

  /** The package names an event brings in satisfy `ok`. */
  predicate Named(ok: string -> bool, e: Event) {
    && (e.Added? && e.chain.Some? && e.chain.value.Genuine? ==> ok(e.chain.value.package))
    && (e.Attested? && e.verdict.Genuine? ==> ok(e.verdict.package))
  }

  function Run(p: Primitives, s: Store, es: seq<Event>): Store
    decreases |es|
  {
    if es == [] then s else Run(p, Step(p, s, es[0]), es[1..])
  }

  ghost predicate FairRun(p: Primitives, ok: string -> bool, s: Store, es: seq<Event>)
    decreases |es|
  {
    es == [] || (Fair(s, es[0]) && Named(ok, es[0]) && FairRun(p, ok, Step(p, s, es[0]), es[1..]))
  }

  /** Every name that is let in is allowed. */
  ghost predicate Policy(strict: bool, ok: string -> bool) { forall name :: ok(name) ==> Allowed(strict, name) }

  lemma NewEntryGood(
    strict: bool, p: Primitives, publicKey: seq<byte>, algorithm: string, chain: Option<Attestation>, clock: nat)
    requires publicKey != [] && (algorithm == "EC_P256" || algorithm == "ED25519") && 0 < clock < UINT64
    requires chain.Some? && chain.value.Genuine? ==> Fits(chain.value) && Allowed(strict, chain.value.package)
    ensures var id := KeyIdOf(p, publicKey);
            var e := NewEntry(id, publicKey, algorithm, chain, clock);
            e.keyId == id && Good(strict, id, e)
  {
    hide KeyIdOf, IsId, Allowed;
    var id := KeyIdOf(p, publicKey);
    KeyIdIsId(p, publicKey);
    IdIsOneLine(id);
    assert OneLine("EC_P256") && OneLine("ED25519") && OneLine("");
    OneLineAllowed(strict, "");
  }

  lemma GoodAt(strict: bool, s: Store, id: string)
    requires Agree(strict, s) && id in s.keys
    ensures Good(strict, id, s.keys[id]) && s.keys[id].keyId == id
  {
    hide OnDisk;
  }

  /** A verdict keeps an entry good, and never makes an inactive key active. */
  lemma VerdictGood(strict: bool, id: string, e: Entry, a: Attestation)
    requires Good(strict, id, e) && Fits(a) && (a.Genuine? ==> Allowed(strict, a.package))
    ensures Good(strict, id, Verdict(e, a)) && Verdict(e, a).keyId == id
    ensures Verdict(e, a).active ==> e.active
  {
    hide Allowed, IsId, OneLine;
  }

  lemma StepAgrees(strict: bool, p: Primitives, ok: string -> bool, s: Store, e: Event)
    requires Policy(strict, ok) && Agree(strict, s) && Fair(s, e) && Named(ok, e)
    ensures Agree(strict, Step(p, s, e))
  {
    hide Agree, WriteFile, Allowed, Reload, Lists, Good, KeyIdOf;
    match e
    case Added(publicKey, algorithm, chain, clock) =>
      if publicKey != [] && (algorithm == "EC_P256" || algorithm == "ED25519") {
        NewEntryGood(strict, p, publicKey, algorithm, chain, clock);
        WriteFileAgrees(strict, s, NewEntry(KeyIdOf(p, publicKey), publicKey, algorithm, chain, clock));
      }
    case Removed(id) => RemoveAgrees(strict, s, id);
    case Attested(id, verdict) =>
      if id in s.keys && s.keys[id].trust != Trusted {
        GoodAt(strict, s, id);
        VerdictGood(strict, id, s.keys[id], verdict);
        WriteFileAgrees(strict, s, Verdict(s.keys[id], verdict));
      }
    case Used(id, clock) => MarkUsedAgrees(strict, s, id, clock);
    case Reloaded(order, clock) => ReloadAgrees(strict, s, order, clock);
  }

  /** After any sequence of operations with names that are allowed, the directory holds the keys. */
  lemma {:induction false} RunAgrees(strict: bool, p: Primitives, ok: string -> bool, s: Store, es: seq<Event>)
    requires Policy(strict, ok) && Agree(strict, s) && FairRun(p, ok, s, es)
    ensures Agree(strict, Run(p, s, es))
    decreases |es|
  {
    hide Agree, Step, Fair, Named, Policy;
    if es != [] {
      StepAgrees(strict, p, ok, s, es[0]);
      RunAgrees(strict, p, ok, Step(p, s, es[0]), es[1..]);
    }
  }

  lemma EmptyAgrees(strict: bool)
    ensures Agree(strict, EMPTY)
  {}

  // ---- Reloading ------------------------------------------------------------------------------

  /** A reload, whatever order the directory is listed in, gives back the same keys except for their times of
      last use. */
  ghost predicate ReloadsSame(s: Store) {
    forall order, clock: nat :: Lists(order, s.dir) && 0 < clock < UINT64 ==>
      var t := Reload(s, order, clock);
      t.keys.Keys == s.keys.Keys && forall id :: id in s.keys ==> SameButUsed(t.keys[id], s.keys[id])
  }

  ghost predicate AlwaysReloads(p: Primitives, ok: string -> bool) {
    forall es :: FairRun(p, ok, EMPTY, es) ==> ReloadsSame(Run(p, EMPTY, es))
  }

  lemma AgreedReloads(s: Store)
    requires Agree(true, s)
    ensures ReloadsSame(s)
  {
    hide Agree, Lists, Reload, Good, SameButUsed, Load;
    forall order, clock: nat | Lists(order, s.dir) && 0 < clock < UINT64
      ensures var t := Reload(s, order, clock);
              t.keys.Keys == s.keys.Keys && forall id :: id in s.keys ==> SameButUsed(t.keys[id], s.keys[id])
    {
      ReloadLike(true, s, order, clock);
    }
  }

  /** A key added with an attested name. */
  function Attestor(k: seq<byte>, name: string): Event { Added(k, "EC_P256", Some(Genuine(name, [], 0)), 1) }

  lemma OneFile(name: string, text: string)
    ensures Lists([name], map[name := text])
  {
    assert forall x :: x in [name] <==> x == name;
  }

  lemma LostName(p: Primitives, name: string)
    requires !OneLine(name)
    ensures !ReloadsSame(Run(p, EMPTY, [Attestor([0], name)]))
  {
    hide KeyIdOf, Parse, Save, OneLine, IsKeyFile, FileName;
    var id := KeyIdOf(p, [0]);
    var e := NewEntry(id, [0], "EC_P256", Some(Genuine(name, [], 0)), 1);
    RunOne(p, _ => true, EMPTY, Attestor([0], name));
    var s := Run(p, EMPTY, [Attestor([0], name)]);
    assert s == WriteFile(EMPTY, e);
    var order := [FileName(id)];
    OneFile(FileName(id), Save(e));
    assert s.dir == map[FileName(id) := Save(e)];
    var t := Reload(s, order, 1);
    ParsedIsStorable(Save(e), 1);
    assert order[..0] == [];
    assert Load(s.dir, [], 1).keys == map[];
    if id in t.keys { assert t.keys[id].package != name; }
  }

  /** After every sequence of operations a reload gives back the same keys except for last use: exactly when
      every package name that is let in is a trimmed single line. */
  lemma AlwaysReloadsIff(p: Primitives, ok: string -> bool)
    ensures AlwaysReloads(p, ok) <==> forall name :: ok(name) ==> OneLine(name)
  {
    hide Agree, ReloadsSame, OneLine;
    if forall name :: ok(name) ==> OneLine(name) {
      forall es | FairRun(p, ok, EMPTY, es) ensures ReloadsSame(Run(p, EMPTY, es)) {
        EmptyAgrees(true);
        RunAgrees(true, p, ok, EMPTY, es);
        AgreedReloads(Run(p, EMPTY, es));
      }
    } else {
      var name :| ok(name) && !OneLine(name);
      LostName(p, name);
      RunOne(p, ok, EMPTY, Attestor([0], name));
    }
  }

  // ---- Rejected keys --------------------------------------------------------------------------

  lemma StepStaysInactive(p: Primitives, ok: string -> bool, s: Store, e: Event, id: string)
    requires Policy(false, ok) && Agree(false, s) && Fair(s, e) && Named(ok, e)
    requires id in s.keys && !s.keys[id].active && e != Removed(id)
    ensures var t := Step(p, s, e); id in t.keys && !t.keys[id].active
  {
    hide KeyIdOf, Save, Agree, Reload, FileName, Good, Allowed, Lists, Load;
    match e
    case Reloaded(order, clock) =>
      ReloadLike(false, s, order, clock);
      assert Like(false, Reload(s, order, clock).keys[id], s.keys[id]);
    case Attested(k, verdict) =>
      if k in s.keys {
        GoodAt(false, s, k);
        VerdictGood(false, k, s.keys[k], verdict);
      }
    case _ =>
  }

  lemma {:induction false} StaysInactive(p: Primitives, ok: string -> bool, s: Store, es: seq<Event>, id: string)
    requires Policy(false, ok) && Agree(false, s) && FairRun(p, ok, s, es) && Removed(id) !in es
    requires id in s.keys && !s.keys[id].active
    ensures var t := Run(p, s, es); id in t.keys && !CanAuthenticate(t.keys[id])
    decreases |es|
  {
    hide Agree, Step, Fair, Named, Policy;
    if es != [] {
      StepAgrees(false, p, ok, s, es[0]);
      assert es[0] in es;
      StepStaysInactive(p, ok, s, es[0], id);
      assert forall e :: e in es[1..] ==> e in es;
      StaysInactive(p, ok, Step(p, s, es[0]), es[1..], id);
    }
  }

  ghost predicate IsRejected(s: Store, id: string) { id in s.keys && s.keys[id].trust == Rejected }

  ghost predicate MayEnter(s: Store, id: string) { id in s.keys && CanAuthenticate(s.keys[id]) }

  /** With harmless names, a key once rejected stays in the whitelist and can never authenticate again until it is
      removed, whatever happens, including reloads and a later attestation that succeeds. */
  lemma RejectedStaysOut(p: Primitives, ok: string -> bool, before: seq<Event>, after: seq<Event>, id: string)
    requires Policy(false, ok) && FairRun(p, ok, EMPTY, before) && FairRun(p, ok, Run(p, EMPTY, before), after)
    requires IsRejected(Run(p, EMPTY, before), id) && Removed(id) !in after
    ensures var t := Run(p, Run(p, EMPTY, before), after); id in t.keys && !CanAuthenticate(t.keys[id])
  {
    hide Agree, Run, FairRun, Policy;
    EmptyAgrees(false);
    RunAgrees(false, p, ok, EMPTY, before);
    GoodAt(false, Run(p, EMPTY, before), id);
    StaysInactive(p, ok, Run(p, EMPTY, before), after, id);
  }

  /** No run lets a rejected key in again without removing it. */
  ghost predicate RejectionsHold(p: Primitives, ok: string -> bool) {
    forall before, after, id ::
      && FairRun(p, ok, EMPTY, before) && FairRun(p, ok, Run(p, EMPTY, before), after)
      && IsRejected(Run(p, EMPTY, before), id) && Removed(id) !in after
      ==> !MayEnter(Run(p, Run(p, EMPTY, before), after), id)
  }

  /** The file of a key alone, with a name that is not harmless and does not give the key's id. */
  lemma NotBack(e: Entry)
    requires Sane(e) && !Harmless(e.package)
    requires var r := ParseLines(PROBE, Extra(e.package)); r.Some? ==> r.value.keyId != e.keyId
    ensures e.keyId !in Load(map[FileName(e.keyId) := Save(e)], [FileName(e.keyId)], 1).keys
  {
    hide Parse, Save, Harmless, IsKeyFile, FileName, ParseLines, Extra, Sane;
    HarmfulParses(e, 1);
    var order := [FileName(e.keyId)];
    assert order[..0] == [];
    assert Load(map[FileName(e.keyId) := Save(e)], [], 1) == Loaded(map[], false);
  }

  /** Under a name that is not harmless, a rejected key comes back: attested under that name and reloaded it is
      no longer known, so it can be added and attested afresh. */
  lemma HarmfulNameReturns(p: Primitives, k: seq<byte>, name: string) returns (before: seq<Event>, after: seq<Event>)
    requires k != [] && !Harmless(name)
    requires var r := ParseLines(PROBE, Extra(name)); r.Some? ==> r.value.keyId != KeyIdOf(p, k)
    ensures var id := KeyIdOf(p, k);
            && FairRun(p, s => s == name, EMPTY, before) && FairRun(p, s => s == name, Run(p, EMPTY, before), after)
            && IsRejected(Run(p, EMPTY, before), id) && Removed(id) !in after
            && MayEnter(Run(p, Run(p, EMPTY, before), after), id)
  {
    hide KeyIdOf, Save, Harmless, FileName, ParseLines, Extra, Run, FairRun, Load, OneLine, Lists;
    var id := KeyIdOf(p, k);
    var e0, e1 := Added(k, "EC_P256", None, 1), Attested(id, NotGenuine);
    var e2, e3, e4 := Attested(id, Genuine(name, [], 0)), Reloaded([FileName(id)], 1), Attestor(k, name);
    before, after := [e0, e1], [e2, e3, e4];
    var c := Attest(RejectedEntry(id, k), Genuine(name, [], 0));
    UndoneSteps(p, k, name);
    var s1 := Step(p, Step(p, EMPTY, e0), e1);
    var s2 := Step(p, s1, e2);
    RunTwo(p, s => s == name, EMPTY, e0, e1);
    OneFile(FileName(id), Save(c));
    KeyIdIsId(p, k);
    IdIsOneLine(id);
    AlgorithmOneLine();
    NotBack(c);
    RunThree(p, s => s == name, s1, e2, e3, e4);
    AddedFresh(p, Step(p, s2, e3), k, name);
  }

  function RejectedEntry(id: string, k: seq<byte>): Entry {
    NewEntry(id, k, "EC_P256", None, 1).(trust := Rejected, active := false)
  }

  lemma UndoneSteps(p: Primitives, k: seq<byte>, name: string)
    requires k != []
    ensures var id := KeyIdOf(p, k);
            var b := RejectedEntry(id, k);
            var s1 := Step(p, Step(p, EMPTY, Added(k, "EC_P256", None, 1)), Attested(id, NotGenuine));
            var c := Attest(b, Genuine(name, [], 0));
            && s1.keys == map[id := b]
            && Step(p, s1, Attested(id, Genuine(name, [], 0))).dir == map[FileName(id) := Save(c)]
  {
    hide KeyIdOf, Save, FileName;
  }

  lemma AddedFresh(p: Primitives, s: Store, k: seq<byte>, name: string)
    requires k != [] && KeyIdOf(p, k) !in s.keys
    ensures MayEnter(Step(p, s, Attestor(k, name)), KeyIdOf(p, k))
  {
    hide KeyIdOf, Save, FileName;
  }

  lemma AlgorithmOneLine()
    ensures OneLine("EC_P256")
  {}

  lemma RunOne(p: Primitives, ok: string -> bool, s: Store, a: Event)
    ensures Run(p, s, [a]) == Step(p, s, a)
    ensures FairRun(p, ok, s, [a]) <==> Fair(s, a) && Named(ok, a)
  {
    hide Step, Fair, Named;
    assert [a][1..] == [];
  }

  lemma RunTwo(p: Primitives, ok: string -> bool, s: Store, a: Event, b: Event)
    ensures Run(p, s, [a, b]) == Step(p, Step(p, s, a), b)
    ensures FairRun(p, ok, s, [a, b]) <==> Fair(s, a) && Named(ok, a) && Fair(Step(p, s, a), b) && Named(ok, b)
  {
    hide Step, Fair, Named;
    assert [a, b][1..] == [b];
    RunOne(p, ok, Step(p, s, a), b);
  }

  lemma RunThree(p: Primitives, ok: string -> bool, s: Store, a: Event, b: Event, c: Event)
    ensures Run(p, s, [a, b, c]) == Step(p, Step(p, Step(p, s, a), b), c)
    ensures FairRun(p, ok, s, [a, b, c])
       <==> && Fair(s, a) && Named(ok, a) && Fair(Step(p, s, a), b) && Named(ok, b)
            && Fair(Step(p, Step(p, s, a), b), c) && Named(ok, c)
  {
    hide Step, Fair, Named;
    assert [a, b, c][1..] == [b, c];
    RunTwo(p, ok, Step(p, s, a), b, c);
  }

  /** Under any hash that gives two keys different ids: rejected keys stay out of every run exactly when every
      package name that is let in is harmless. */
  lemma RejectionsHoldIff(p: Primitives, ok: string -> bool, k: seq<byte>, l: seq<byte>)
    requires k != [] && l != [] && KeyIdOf(p, k) != KeyIdOf(p, l)
    ensures RejectionsHold(p, ok) <==> forall name :: ok(name) ==> Harmless(name)
  {
    hide Run, FairRun, IsRejected, MayEnter, Harmless, KeyIdOf, ParseLines, Extra;
    if forall name :: ok(name) ==> Harmless(name) {
      forall before, after, id |
        && FairRun(p, ok, EMPTY, before) && FairRun(p, ok, Run(p, EMPTY, before), after)
        && IsRejected(Run(p, EMPTY, before), id) && Removed(id) !in after
        ensures !MayEnter(Run(p, Run(p, EMPTY, before), after), id)
      {
        RejectedStaysOut(p, ok, before, after, id);
        NotIn(Run(p, Run(p, EMPTY, before), after), id);
      }
    } else {
      var name :| ok(name) && !Harmless(name);
      var r := ParseLines(PROBE, Extra(name));
      var key := if r.Some? && r.value.keyId == KeyIdOf(p, k) then l else k;
      var before, after := HarmfulNameReturns(p, key, name);
      FairAlso(p, s => s == name, ok, EMPTY, before);
      FairAlso(p, s => s == name, ok, Run(p, EMPTY, before), after);
    }
  }

  lemma NotIn(s: Store, id: string)
    requires id in s.keys && !CanAuthenticate(s.keys[id])
    ensures !MayEnter(s, id)
  {}

  lemma {:induction false} FairAlso(p: Primitives, ok: string -> bool, more: string -> bool, s: Store, es: seq<Event>)
    requires FairRun(p, ok, s, es) && forall name :: ok(name) ==> more(name)
    ensures FairRun(p, more, s, es)
    decreases |es|
  {
    hide Step, Fair;
    if es != [] { FairAlso(p, ok, more, Step(p, s, es[0]), es[1..]); }
  }

  // ---- Signatures -----------------------------------------------------------------------------

  predicate VerifyWith(p: Primitives, e: Entry, data: seq<byte>, sig: seq<byte>) {
    if e.algorithm == "EC_P256" then p.ecdsa(e.publicKey, data, sig)
    else if e.algorithm == "ED25519" then p.ed25519(e.publicKey, data, sig)
    else false
  }

  predicate Accepts(p: Primitives, keys: map<string, Entry>, id: string, data: seq<byte>, sig: seq<byte>) {
    id in keys && CanAuthenticate(keys[id]) && VerifyWith(p, keys[id], data, sig)
  }

  /** `verify_signature`: a key that may authenticate and whose signature checks, if there is one; such
      a key no longer requires attestation. */
  method VerifySignature(p: Primitives, keys: map<string, Entry>, data: seq<byte>, sig: seq<byte>)
    returns (r: Option<string>)
    ensures r.Some? ==> Accepts(p, keys, r.value, data, sig) && keys[r.value].trust != Pending
    ensures r.None? ==> forall id :: !Accepts(p, keys, id, data, sig)
  {
    var todo := keys.Keys;
    while todo != {}
      invariant todo <= keys.Keys
      invariant forall id :: id in keys && id !in todo ==> !Accepts(p, keys, id, data, sig)
      decreases |todo|
    {
      assert (forall x :: x !in todo) ==> todo == {};
      var id :| id in todo;
      todo := todo - {id};
      if CanAuthenticate(keys[id]) && VerifyWith(p, keys[id], data, sig) { return Some(id); }
    }
    r := None;
  }

  class Whitelist {
    const primitives: Primitives
    var keys: map<string, Entry>
    var dir: map<string, string>

    ghost function View(): Store
      reads this
    {
      Store(keys, dir)
    }

    constructor (primitives: Primitives)
      ensures this.primitives == primitives && View() == EMPTY
    {
      this.primitives := primitives;
      keys, dir := map[], map[];
    }

    method SaveKey(e: Entry)
      modifies this`dir
      ensures dir == old(dir)[FileName(e.keyId) := Save(e)]
    {
      dir := dir[FileName(e.keyId) := Save(e)];
    }

    method AddKey(publicKey: seq<byte>, algorithm: string, chain: Option<Attestation>, clock: nat)
      returns (r: Option<string>)
      modifies this
      ensures View() == Step(primitives, old(View()), Added(publicKey, algorithm, chain, clock))
      ensures r.Some? ==> r.value == KeyIdOf(primitives, publicKey) && r.value in keys
      ensures r.None? <==> publicKey == [] || (algorithm != "EC_P256" && algorithm != "ED25519")
    {
      hide Save, KeyIdOf;
      if publicKey == [] || (algorithm != "EC_P256" && algorithm != "ED25519") { return None; }
      var id := KeyIdOf(primitives, publicKey);
      if id in keys { return Some(id); }
      var e := Entry(id, publicKey, algorithm, clock, 0, Pending, false, "", [], 0, true);
      if chain.Some? && chain.value.Genuine? { e := Attest(e, chain.value); }
      SaveKey(e);
      keys := keys[id := e];
      r := Some(id);
    }

    method RemoveKey(id: string) returns (ok: bool)
      modifies this
      ensures View() == Step(primitives, old(View()), Removed(id))
      ensures ok == (id in old(keys))
    {
      if id !in keys { return false; }
      dir := dir - {FileName(id)};
      keys := keys - {id};
      ok := true;
    }

    method VerifyKeyAttestation(id: string, verdict: Attestation) returns (ok: bool)
      requires id in keys ==> keys[id].keyId == id
      modifies this
      ensures View() == Step(primitives, old(View()), Attested(id, verdict))
      ensures ok == (id in keys && keys[id].trust == Trusted)
    {
      hide Save;
      if id !in keys { return false; }
      var e := keys[id];
      if e.trust == Trusted { return true; }
      if verdict.Genuine? { e := Attest(e, verdict); } else { e := e.(trust := Rejected, active := false); }
      keys := keys[id := e];
      SaveKey(e);
      ok := e.trust == Trusted;
    }

    method MarkKeyUsed(id: string, clock: nat)
      modifies this
      ensures View() == Step(primitives, old(View()), Used(id, clock))
    {
      if id in keys { keys := keys[id := keys[id].(lastUsedAt := clock)]; }
    }

    /** `reload`, whatever the directory holds; false if a conversion threw. */
    method ReloadKeys(order: seq<string>, clock: nat) returns (completed: bool)
      modifies this
      ensures View() == Step(primitives, old(View()), Reloaded(order, clock))
      ensures completed == !Load(dir, order, clock).threw
    {
      hide Parse, IsKeyFile;
      keys := map[];
      for i := 0 to |order|
        invariant dir == old(dir)
        invariant Load(dir, order[..i], clock) == Loaded(keys, false)
      {
        var name := order[i];
        assert order[..i + 1][..i] == order[..i];
        if name in dir && IsKeyFile(name) {
          var r := ParseFile(dir[name], clock);
          if r.Threw? {
            ThrewStays(dir, order, i + 1, clock);
            return false;
          }
          if r.Parsed? { keys := keys[r.entry.keyId := r.entry]; }
        }
      }
      assert order[..|order|] == order;
      completed := true;
    }
  }

  lemma {:induction false} ThrewStays(dir: map<string, string>, order: seq<string>, n: nat, clock: nat)
    requires n <= |order| && Load(dir, order[..n], clock).threw
    ensures Load(dir, order, clock) == Load(dir, order[..n], clock)
  {
    hide Parse, IsKeyFile;
    if n == |order| {
      assert order[..n] == order;
    } else {
      assert order[..|order| - 1][..n] == order[..n];
      ThrewStays(dir, order[..|order| - 1], n, clock);
    }
  }
}
