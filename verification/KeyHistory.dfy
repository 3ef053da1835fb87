/** The key whitelist after any sequence of operations, told from the operations alone: which keys it holds, under what
    trust, and which signatures it accepts (daemon/core/auth/key_whitelist.cpp). */
module KeyHistory {
  import opened Bytes
  import opened Text
  import opened Crypto
  import opened KeyFile
  import opened KeyWhitelist

  /** An id is the first half of the hash of its key, in hexadecimal. */
  lemma IdIsHash(p: Primitives, publicKey: seq<byte>)
    ensures var h := Unhex(KeyIdOf(p, publicKey)); h.Some? && |h.value| == 16 && h.value <= p.sha256(publicKey)
  {
    hide Hex, Unhex;
    HexRoundTrip(p.sha256(publicKey)[..16]);
  }

  /** The files that are loaded are those named after an id, with the ending of key files, that are not hidden. */
  lemma KeyFileIff(name: string)
    ensures IsKeyFile(name) <==> exists id :: name == FileName(id) && name[0] != '.'
  {
    if IsKeyFile(name) {
      var id := name[..|name| - 4];
      assert name == FileName(id);
    }
    if exists id :: name == FileName(id) && name[0] != '.' {
      var id :| name == FileName(id) && name[0] != '.';
      assert name[|name| - 4..] == ".key";
    }
  }

  // ---- The life of a key ----------------------------------------------------------------------

  /** The event adds a key of this id, if it is not there yet. */
  predicate Brings(p: Primitives, e: Event, id: string) {
    && e.Added? && e.publicKey != [] && (e.algorithm == "EC_P256" || e.algorithm == "ED25519")
    && KeyIdOf(p, e.publicKey) == id
  }

  /** The event that added the key that is there now, if one is: the first to bring it since it was last removed. */
  function Birth(p: Primitives, es: seq<Event>, id: string): (r: Option<nat>)
    ensures r.Some? ==> r.value < |es| && Brings(p, es[r.value], id)
  {
    if es == [] then None
    else
      var n := |es| - 1;
      var before := Birth(p, es[..n], id);
      if es[n] == Removed(id) then None
      else if before.None? && Brings(p, es[n], id) then Some(n)
      else before
  }

  /** What the birth of a key means: nothing removed it afterwards, and all that brought it before was removed. */
  lemma {:induction false} BirthMeans(p: Primitives, es: seq<Event>, id: string)
    ensures var b := Birth(p, es, id);
            && (b.None? ==> forall i :: 0 <= i < |es| && Brings(p, es[i], id) ==> RemovedIn(es, id, i, |es|))
            && (b.Some? ==> !RemovedIn(es, id, b.value, |es|)
                            && forall i :: 0 <= i < b.value && Brings(p, es[i], id) ==> RemovedIn(es, id, i, b.value))
    decreases |es|
  {
    hide Brings;
    if es != [] {
      var n := |es| - 1;
      var before := es[..n];
      BirthMeans(p, before, id);
      forall i, j | 0 <= i <= j <= n ensures RemovedIn(before, id, i, j) <==> RemovedIn(es, id, i, j) {
        assert forall k :: i < k < j ==> before[k] == es[k];
      }
      assert forall i :: 0 <= i < n ==> before[i] == es[i];
      if es[n] == Removed(id) { assert forall i :: 0 <= i < n ==> RemovedIn(es, id, i, |es|); BringsNot(p, es[n], id); }
    }
  }

  lemma BringsNot(p: Primitives, e: Event, id: string)
    requires e.Removed?
    ensures !Brings(p, e, id)
  {}

  ghost predicate RemovedIn(es: seq<Event>, id: string, i: int, j: int)
    requires 0 <= i && j <= |es|
  {
    exists k :: i < k < j && es[k] == Removed(id)
  }

  predicate GenuineChain(e: Event) { e.Added? && e.chain.Some? && e.chain.value.Genuine? }

  /** The first genuine attestation of the key born at `i`. */
  function Voucher(es: seq<Event>, id: string, i: nat): (r: Option<Attestation>)
    requires i < |es|
    ensures r.Some? ==> r.value.Genuine?
    decreases |es|
  {
    var n := |es| - 1;
    if n == i then if GenuineChain(es[i]) then es[i].chain else None
    else
      var before := Voucher(es[..n], id, i);
      if before.None? && es[n].Attested? && es[n].id == id && es[n].verdict.Genuine? then Some(es[n].verdict)
      else before
  }

  /** An attestation of it failed before one was genuine. */
  predicate Doubted(es: seq<Event>, id: string, i: nat)
    requires i < |es|
    decreases |es|
  {
    var n := |es| - 1;
    n > i && (Doubted(es[..n], id, i) || (es[n] == Attested(id, NotGenuine) && Voucher(es[..n], id, i).None?))
  }

  /** The entry of the key born at `i`, but for its time of last use. */
  function Expected(es: seq<Event>, id: string, i: nat): Entry
    requires i < |es| && es[i].Added?
  {
    var v, doubted := Voucher(es, id, i), Doubted(es, id, i);
    var trust := if v.Some? then Trusted else if doubted then Rejected else Pending;
    var e := Entry(id, es[i].publicKey, es[i].algorithm, es[i].clock, 0, trust, false, "", [], 0, !doubted);
    if v.Some? then e.(verified := true, package := v.value.package, appSig := v.value.appSig, level := v.value.level)
    else e
  }

  // ---- The store tells it ---------------------------------------------------------------------

  /** What a store says of an id is what the events say. */
  ghost predicate Tells(strict: bool, p: Primitives, s: Store, es: seq<Event>, id: string) {
    var b := Birth(p, es, id);
    && (id in s.keys <==> b.Some?)
    && (b.Some? ==> Like(strict, s.keys[id], Expected(es, id, b.value)))
  }

  lemma {:induction false} RunSnoc(p: Primitives, ok: string -> bool, s: Store, es: seq<Event>, e: Event)
    ensures Run(p, s, es + [e]) == Step(p, Run(p, s, es), e)
    ensures FairRun(p, ok, s, es + [e]) ==>
              FairRun(p, ok, s, es) && Fair(Run(p, s, es), e) && Named(ok, e)
    decreases |es|
  {
    hide Step, Fair, Named;
    if es == [] {
      assert es + [e] == [e] && [e][1..] == [];
    } else {
      assert (es + [e])[1..] == es[1..] + [e];
      RunSnoc(p, ok, Step(p, s, es[0]), es[1..], e);
    }
  }

  lemma Newborn(p: Primitives, es: seq<Event>, e: Event, id: string)
    requires Birth(p, es, id).None? && Brings(p, e, id)
    ensures Birth(p, es + [e], id) == Some(|es|)
    ensures Expected(es + [e], id, |es|).(lastUsedAt := 0)
         == NewEntry(id, e.publicKey, e.algorithm, e.chain, e.clock).(lastUsedAt := 0)
  {
    hide KeyIdOf;
    assert (es + [e])[..|es|] == es;
  }

  lemma BirthKept(p: Primitives, es: seq<Event>, e: Event, id: string)
    requires e != Removed(id) && (Birth(p, es, id).Some? || !Brings(p, e, id))
    ensures Birth(p, es + [e], id) == Birth(p, es, id)
  {
    hide Brings;
    assert (es + [e])[..|es|] == es;
  }

  lemma BirthGone(p: Primitives, es: seq<Event>, id: string)
    ensures Birth(p, es + [Removed(id)], id) == None
  {}

  /** The next event in the life of a key. */
  lemma ExpectedNext(es: seq<Event>, e: Event, id: string, i: nat)
    requires i < |es| && es[i].Added?
    ensures var a, b := Expected(es, id, i), Expected(es + [e], id, i);
            && (!(e.Attested? && e.id == id) || a.trust == Trusted ==> b == a)
            && (e.Attested? && e.id == id && a.trust != Trusted ==> b == Verdict(a, e.verdict))
  {
    assert (es + [e])[..|es|] == es;
  }

  lemma LikeTrans(strict: bool, a: Entry, b: Entry, c: Entry)
    requires Like(strict, a, b) && Like(strict, b, c)
    ensures Like(strict, a, c)
  {}

  lemma VerdictLike(strict: bool, a: Entry, b: Entry, v: Attestation)
    requires Like(strict, a, b)
    ensures Like(strict, Verdict(a, v), Verdict(b, v))
  {}

  lemma StepTells(strict: bool, p: Primitives, ok: string -> bool, s: Store, es: seq<Event>, e: Event, id: string)
    requires Agree(strict, s) && Fair(s, e) && Named(ok, e) && Tells(strict, p, s, es, id)
    ensures Tells(strict, p, Step(p, s, e), es + [e], id)
  {
    hide Agree, Save, FileName, KeyIdOf, Reload, Load, Expected, Birth, Good, Lists, Like, Verdict, NewEntry;
    var more, b, t := es + [e], Birth(p, es, id), Step(p, s, e);
    if b.Some? {
      assert more[b.value] == es[b.value];
      ExpectedNext(es, e, id, b.value);
    }
    if e == Removed(id) {
      BirthGone(p, es, id);
    } else if b.None? && Brings(p, e, id) {
      Newborn(p, es, e, id);
      NewId(id, e.publicKey, e.algorithm, e.chain, e.clock);
      NewLike(strict, NewEntry(id, e.publicKey, e.algorithm, e.chain, e.clock), Expected(more, id, |es|));
    } else {
      BirthKept(p, es, e, id);
      if id in s.keys { KeptTells(strict, p, s, es, e, id, b.value); } else { StaysOut(strict, p, s, e, id); }
    }
  }

  lemma NewLike(strict: bool, a: Entry, b: Entry)
    requires a.(lastUsedAt := 0) == b.(lastUsedAt := 0)
    ensures Like(strict, a, b)
  {}

  lemma StaysOut(strict: bool, p: Primitives, s: Store, e: Event, id: string)
    requires Agree(strict, s) && Fair(s, e) && id !in s.keys && !Brings(p, e, id)
    ensures id !in Step(p, s, e).keys
  {
    hide Agree, Save, FileName, KeyIdOf, Reload, Load, Good, Lists, Like, Verdict, NewEntry;
    match e
    case Reloaded(order, clock) => ReloadLike(strict, s, order, clock);
    case Attested(k, v) => if k in s.keys { GoodAt(strict, s, k); SameId(s.keys[k], v); }
    case Added(publicKey, algorithm, chain, clock) => NewId(KeyIdOf(p, publicKey), publicKey, algorithm, chain, clock);
    case _ =>
  }

  lemma NewId(id: string, publicKey: seq<byte>, algorithm: string, chain: Option<Attestation>, clock: nat)
    ensures NewEntry(id, publicKey, algorithm, chain, clock).keyId == id
  {}

  lemma SameId(e: Entry, v: Attestation)
    ensures Verdict(e, v).keyId == e.keyId
  {}

  lemma KeptTells(strict: bool, p: Primitives, s: Store, es: seq<Event>, e: Event, id: string, i: nat)
    requires Agree(strict, s) && Fair(s, e) && id in s.keys && e != Removed(id) && i < |es| && es[i].Added?
    requires Like(strict, s.keys[id], Expected(es, id, i))
    ensures var t := Step(p, s, e); id in t.keys && Like(strict, t.keys[id], Expected(es + [e], id, i))
  {
    hide Agree, Save, FileName, KeyIdOf, Reload, Load, Expected, Good, Lists, Like, Verdict, NewEntry;
    ExpectedNext(es, e, id, i);
    var a, was := s.keys[id], Expected(es, id, i);
    match e
    case Reloaded(order, clock) =>
      ReloadLike(strict, s, order, clock);
      LikeTrans(strict, Reload(s, order, clock).keys[id], a, was);
    case Attested(k, v) =>
      if k in s.keys {
        GoodAt(strict, s, k);
        SameId(s.keys[k], v);
      }
      SameTrust(strict, a, was);
      VerdictLike(strict, a, was, v);
    case Used(k, clock) => UsedLike(strict, a, was, clock);
    case Added(publicKey, algorithm, chain, clock) => NewId(KeyIdOf(p, publicKey), publicKey, algorithm, chain, clock);
    case Removed(_) =>
  }

  lemma SameTrust(strict: bool, a: Entry, b: Entry)
    requires Like(strict, a, b)
    ensures a.trust == b.trust
  {}

  lemma UsedLike(strict: bool, a: Entry, b: Entry, clock: nat)
    requires Like(strict, a, b)
    ensures Like(strict, a.(lastUsedAt := clock), b)
  {}

  /** After every sequence of operations with names that are allowed: a key is in the whitelist exactly when something
      brought it and nothing has removed it since. Its trust and activity are those of its history: trusted exactly
      when an attestation was genuine, inactive exactly when one failed before. With single-line names the whole entry
      is that of its history, but for the time of last use. */
  lemma {:induction false} KeysTellHistory(strict: bool, p: Primitives, ok: string -> bool, es: seq<Event>, id: string)
    requires Policy(strict, ok) && FairRun(p, ok, EMPTY, es)
    ensures Agree(strict, Run(p, EMPTY, es)) && Tells(strict, p, Run(p, EMPTY, es), es, id)
    decreases |es|
  {
    hide Agree, Step, Fair, Named, Policy, Tells;
    if es == [] {
      EmptyAgrees(strict);
      EmptyTells(strict, p, id);
    } else {
      var n := |es| - 1;
      var before, e := es[..n], es[n];
      assert es == before + [e];
      hide Run, FairRun;
      RunSnoc(p, ok, EMPTY, before, e);
      KeysTellHistory(strict, p, ok, before, id);
      StepAgrees(strict, p, ok, Run(p, EMPTY, before), e);
      StepTells(strict, p, ok, Run(p, EMPTY, before), before, e, id);
    }
  }

  lemma EmptyTells(strict: bool, p: Primitives, id: string)
    ensures Tells(strict, p, EMPTY, [], id)
  {}

  // ---- Who is accepted ------------------------------------------------------------------------

  /** The signature verifies under the key, by the algorithm it was added with. */
  predicate Verifies(p: Primitives, e: Event, data: seq<byte>, sig: seq<byte>)
    requires e.Added?
  {
    && (e.algorithm == "EC_P256" ==> p.ecdsa(e.publicKey, data, sig))
    && (e.algorithm == "ED25519" ==> p.ed25519(e.publicKey, data, sig))
  }

  /** Whatever keys are loaded, a signature is accepted for an id exactly when its key is active, trusted or of the old
      kind, and verifies it by its own algorithm. */
  lemma AcceptsIff(p: Primitives, keys: map<string, Entry>, id: string, data: seq<byte>, sig: seq<byte>)
    ensures Accepts(p, keys, id, data, sig)
       <==> && id in keys && keys[id].active && keys[id].trust in {Trusted, Legacy}
            && keys[id].algorithm in {"EC_P256", "ED25519"}
            && (keys[id].algorithm == "EC_P256" ==> p.ecdsa(keys[id].publicKey, data, sig))
            && (keys[id].algorithm == "ED25519" ==> p.ed25519(keys[id].publicKey, data, sig))
  {}

  /** After every sequence of operations with single-line names: a signature is accepted for an id exactly when a key of
      that id was added and not removed since, attested before any attestation of it failed, and the signature verifies
      under that very key by the algorithm it was added with. */
  lemma AcceptedIff(p: Primitives, ok: string -> bool, es: seq<Event>, id: string, data: seq<byte>, sig: seq<byte>)
    requires Policy(true, ok) && FairRun(p, ok, EMPTY, es)
    ensures var b := Birth(p, es, id);
            Accepts(p, Run(p, EMPTY, es).keys, id, data, sig)
            <==> && b.Some? && Voucher(es, id, b.value).Some? && !Doubted(es, id, b.value)
                 && Verifies(p, es[b.value], data, sig)
  {
    hide Run, Agree, FairRun, Policy, Voucher, Doubted, KeyIdOf, Birth;
    KeysTellHistory(true, p, ok, es, id);
  }

  /** With harmless names, who may authenticate: the same, whatever the names do to the other fields. */
  lemma MayEnterIff(p: Primitives, ok: string -> bool, es: seq<Event>, id: string)
    requires Policy(false, ok) && FairRun(p, ok, EMPTY, es)
    ensures var b := Birth(p, es, id);
            MayEnter(Run(p, EMPTY, es), id)
            <==> b.Some? && Voucher(es, id, b.value).Some? && !Doubted(es, id, b.value)
  {
    hide Run, Agree, FairRun, Policy, Voucher, Doubted, KeyIdOf, Birth;
    KeysTellHistory(false, p, ok, es, id);
  }
}
