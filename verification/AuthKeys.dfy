/** Authentication and the key whitelist in one run: the authentication manager searches the very keys that the
    whitelist adds, attests, rejects, removes and reloads from its directory
    (daemon/core/auth/auth_manager.cpp and key_whitelist.cpp). */
module AuthKeys {
  import opened Bytes
  import opened Text
  import opened Crypto
  import opened KeyFile
  import opened KeyWhitelist
  import Auth
  import Sessions

  /** The keys in memory are those of the authentication state. */
  datatype Daemon = Daemon(auth: Auth.State, dir: map<string, string>)

  datatype Cause = Asked(action: Auth.Action) | Managed(change: KeyWhitelist.Event)

  datatype Happening = Happening(at: int, cause: Cause)

  function StoreOf(d: Daemon): Store { Store(d.auth.keys, d.dir) }

  function Next(sys: Auth.System, d: Daemon, e: Happening): Daemon {
    match e.cause
    case Asked(action) => d.(auth := Auth.Next(sys, d.auth, Auth.Event(e.at, action)))
    case Managed(change) =>
      var t := KeyWhitelist.Step(sys.p, StoreOf(d), change);
      Daemon(d.auth.(keys := t.keys), t.dir)
  }

  /** Keys change only through the whitelist; the search of an attempt is fair, and so is what the whitelist is
      given, with package names that satisfy `ok`. */
  ghost predicate Proper(sys: Auth.System, ok: string -> bool, d: Daemon, e: Happening) {
    match e.cause
    case Asked(action) =>
      && !action.KeysChanged?
      && (action.Attempted? ==> action.attempt.clock < UINT64 && Auth.FairPick(sys, d.auth, action.attempt, e.at))
    case Managed(change) => Fair(StoreOf(d), change) && Named(ok, change)
  }

  /** The states of a daemon that starts with no keys, one before each event and one at the end. */
  ghost predicate IsRun(sys: Auth.System, ok: string -> bool, ds: seq<Daemon>, es: seq<Happening>) {
    && |ds| == |es| + 1
    && ds[0].auth.sessions == Sessions.EMPTY && ds[0].auth.attempts == map[] && StoreOf(ds[0]) == EMPTY
    && (forall i :: 0 <= i < |es| ==> Proper(sys, ok, ds[i], es[i]) && ds[i + 1] == Next(sys, ds[i], es[i]))
    && (forall i :: 0 <= i < |es| ==> es[i].at > 0)
    && (forall i, j :: 0 <= i <= j < |es| ==> es[i].at <= es[j].at)
  }

  // ---- As a run of the authentication manager -------------------------------------------------

  function AuthEvent(d: Daemon, e: Happening): Auth.Event {
    Auth.Event(e.at, match e.cause case Asked(action) => action case Managed(_) => Auth.KeysChanged(d.auth.keys))
  }

  function AuthStates(ds: seq<Daemon>): seq<Auth.State> { seq(|ds|, i requires 0 <= i < |ds| => ds[i].auth) }

  function AuthEvents(ds: seq<Daemon>, es: seq<Happening>): seq<Auth.Event>
    requires |ds| == |es| + 1
  {
    seq(|es|, i requires 0 <= i < |es| => AuthEvent(ds[i + 1], es[i]))
  }

  lemma StepIsAuthStep(sys: Auth.System, ok: string -> bool, d: Daemon, e: Happening)
    requires Proper(sys, ok, d, e)
    ensures var t := Next(sys, d, e); Auth.Steps(sys, d.auth, AuthEvent(t, e), t.auth)
  {
    hide Auth.FairPick, Fair, Named, KeyWhitelist.Step, Auth.Authenticate, Auth.Call;
  }

  /** What is proved of every run of the authentication manager holds of the runs here. */
  lemma RunIsAuthRun(sys: Auth.System, ok: string -> bool, ds: seq<Daemon>, es: seq<Happening>)
    requires IsRun(sys, ok, ds, es)
    ensures Auth.IsRun(sys, AuthStates(ds), AuthEvents(ds, es))
  {
    hide Proper, Next, Auth.Steps;
    var states, events := AuthStates(ds), AuthEvents(ds, es);
    forall i | 0 <= i < |events| ensures Auth.Steps(sys, states[i], events[i], states[i + 1]) {
      assert Proper(sys, ok, ds[i], es[i]) && ds[i + 1] == Next(sys, ds[i], es[i]);
      StepIsAuthStep(sys, ok, ds[i], es[i]);
    }
  }

  // ---- As a run of the whitelist --------------------------------------------------------------

  /** What a step asks of the whitelist. */
  function WhitelistEvent(sys: Auth.System, d: Daemon, e: Happening): Option<KeyWhitelist.Event> {
    match e.cause
    case Managed(change) => Some(change)
    case Asked(action) =>
      if !action.Attempted? || !sys.config.required then None
      else
        var a, r := action.attempt, Auth.ResultOf(sys, d.auth, Auth.Event(e.at, action));
        if r.RateLimited? || r.DeviceMismatch? || r.NoChallenge? || a.pick.None? then None
        else Some(Used(a.pick.value, a.clock))
  }

  lemma JudgeKeys(sys: Auth.System, s: Auth.State, a: Auth.Attempt, challenge: seq<byte>, now: int)
    ensures Auth.Judge(sys, s, a, challenge, now).1.keys == Auth.MarkUsed(s, a).keys
  {
    hide VerifyAny, Sessions.Create;
  }

  lemma AttemptKeys(sys: Auth.System, d: Daemon, a: Auth.Attempt, now: int)
    ensures var (r, t) := Auth.Authenticate(sys, d.auth, a, now);
            t.keys == if sys.config.required && !(r.RateLimited? || r.DeviceMismatch? || r.NoChallenge?)
                      then Auth.MarkUsed(d.auth, a).keys else d.auth.keys
  {
    hide Auth.Judge, Auth.Admit, Sessions.Create, Sessions.PendingChallenge;
    var c := Sessions.PendingChallenge(sys.p, sys.key, d.auth.sessions, a.uid, now);
    if c.Some? {
      var s := d.auth.(attempts := Auth.Admit(sys, d.auth.attempts, a.uid, now).1);
      JudgeKeys(sys, s, a, c.value, now);
      Auth.JudgeEffect(sys, s, a, c.value, now);
    }
  }

  lemma CallKeys(sys: Auth.System, s: Auth.State, uid: int, callerOk: bool, now: int)
    ensures Auth.Call(sys, s, uid, callerOk, now).1.keys == s.keys
  {
    hide Auth.Admit, Sessions.Validate, Sessions.Touch;
  }

  lemma WhitelistRefines(sys: Auth.System, ok: string -> bool, d: Daemon, e: Happening)
    requires Proper(sys, ok, d, e)
    ensures var w := WhitelistEvent(sys, d, e);
            && (w.None? ==> StoreOf(Next(sys, d, e)) == StoreOf(d))
            && (w.Some? ==>
                  && StoreOf(Next(sys, d, e)) == KeyWhitelist.Step(sys.p, StoreOf(d), w.value)
                  && Fair(StoreOf(d), w.value) && Named(ok, w.value)
                  && (w.value.Removed? ==> e.cause == Managed(w.value)))
  {
    hide Auth.Authenticate, Auth.Call, Add, Remove, VerifyAttestation, Reload, Auth.FairPick, Lists;
    match e.cause
    case Managed(_) =>
    case Asked(action) =>
      if action.Attempted? { AttemptKeys(sys, d, action.attempt, e.at); }
      if action.Called? { CallKeys(sys, d.auth, action.uid, action.callerOk, e.at); }
  }

  lemma {:induction false} RunAgrees(sys: Auth.System, ok: string -> bool, ds: seq<Daemon>, es: seq<Happening>, i: nat)
    requires IsRun(sys, ok, ds, es) && Policy(false, ok) && i <= |es|
    ensures Agree(false, StoreOf(ds[i]))
  {
    hide Agree, Policy, Next, Proper, WhitelistEvent, KeyWhitelist.Step, Fair, Named, StoreOf;
    if i == 0 {
      EmptyAgrees(false);
    } else {
      RunAgrees(sys, ok, ds, es, i - 1);
      var d, e := ds[i - 1], es[i - 1];
      assert ds[i] == Next(sys, d, e);
      WhitelistRefines(sys, ok, d, e);
      var w := WhitelistEvent(sys, d, e);
      if w.Some? { StepAgrees(false, sys.p, ok, StoreOf(d), w.value); }
    }
  }

  /** No key is kept under an empty id, so that an empty id in an OK stands for the legacy key. */
  lemma NoEmptyId(sys: Auth.System, ok: string -> bool, ds: seq<Daemon>, es: seq<Happening>, i: nat)
    requires IsRun(sys, ok, ds, es) && Policy(false, ok) && i <= |es|
    ensures "" !in ds[i].auth.keys
  {
    hide Agree, Policy, Next, Proper, Sane, Allowed, IsHexText;
    RunAgrees(sys, ok, ds, es, i);
    if "" in ds[i].auth.keys { GoodAt(false, StoreOf(ds[i]), ""); }
  }

  // ---- Rejected keys --------------------------------------------------------------------------

  ghost predicate Inactive(d: Daemon, id: string) { id in d.auth.keys && !d.auth.keys[id].active }

  lemma {:induction false} StaysInactive(
      sys: Auth.System, ok: string -> bool, ds: seq<Daemon>, es: seq<Happening>, i: nat, k: nat, id: string)
    requires IsRun(sys, ok, ds, es) && Policy(false, ok) && i <= k <= |es| && Inactive(ds[i], id)
    requires forall m :: i <= m < k ==> es[m].cause != Managed(Removed(id))
    ensures Inactive(ds[k], id)
    decreases k - i
  {
    hide Agree, Policy, Next, Proper, WhitelistEvent, KeyWhitelist.Step, Fair, Named;
    if i < k {
      var d, e := ds[i], es[i];
      assert ds[i + 1] == Next(sys, d, e);
      RunAgrees(sys, ok, ds, es, i);
      WhitelistRefines(sys, ok, d, e);
      var w := WhitelistEvent(sys, d, e);
      if w.Some? { StepStaysInactive(sys.p, ok, StoreOf(d), w.value, id); }
      StaysInactive(sys, ok, ds, es, i + 1, k, id);
    }
  }

  /** The event is an attempt that ends in an OK with this key. */
  ghost predicate OkWith(sys: Auth.System, d: Daemon, e: Happening, id: string) {
    && e.cause.Asked? && e.cause.action.Attempted?
    && Auth.ResultOf(sys, d.auth, Auth.Event(e.at, e.cause.action)) == Auth.Ok(id)
  }

  /** The key of an OK, if it is one of the whitelist, is active and trusted there. */
  lemma OkKeyMayEnter(sys: Auth.System, ok: string -> bool, d: Daemon, e: Happening, id: string)
    requires Proper(sys, ok, d, e) && OkWith(sys, d, e, id) && id != ""
    ensures MayEnter(StoreOf(d), id)
  {
    hide Auth.FairPick, Auth.Judge, Auth.Admit, Sessions.Create, Sessions.PendingChallenge, VerifyWith;
    if sys.config.required { Auth.OkNeedsSignature(sys, d.auth, Auth.Event(e.at, e.cause.action)); }
  }

  /** In every run with harmless package names: once a key is rejected, no attempt ends in an OK with that key,
      whatever is added, attested or reloaded, until the key is removed. */
  lemma RejectedNeverOk(
      sys: Auth.System, ok: string -> bool, ds: seq<Daemon>, es: seq<Happening>, i: nat, k: nat, id: string)
    requires IsRun(sys, ok, ds, es) && Policy(false, ok) && i <= k < |es| && IsRejected(StoreOf(ds[i]), id)
    requires forall m :: i <= m < k ==> es[m].cause != Managed(Removed(id))
    ensures !OkWith(sys, ds[k], es[k], id)
  {
    hide Agree, Policy, Next, Proper, OkWith, Sane, Allowed, IsHexText;
    RunAgrees(sys, ok, ds, es, i);
    GoodAt(false, StoreOf(ds[i]), id);
    StaysInactive(sys, ok, ds, es, i, k, id);
    assert Proper(sys, ok, ds[k], es[k]);
    if OkWith(sys, ds[k], es[k], id) { OkKeyMayEnter(sys, ok, ds[k], es[k], id); }
  }

  // ---- Attested keys --------------------------------------------------------------------------

  /** The whitelist is given a genuine attestation of the key. */
  ghost predicate Attests(p: Primitives, e: KeyWhitelist.Event, id: string) {
    || (e.Attested? && e.id == id && e.verdict.Genuine?)
    || (e.Added? && KeyIdOf(p, e.publicKey) == id && e.chain.Some? && e.chain.value.Genuine?)
  }

  ghost predicate Vouched(s: Store, id: string) {
    id in s.keys && (s.keys[id].trust == Trusted || s.keys[id].trust == Legacy)
  }

  lemma VouchedBefore(p: Primitives, s: Store, e: KeyWhitelist.Event, id: string)
    requires Agree(false, s) && Fair(s, e) && Vouched(KeyWhitelist.Step(p, s, e), id)
    ensures Vouched(s, id) || Attests(p, e, id)
  {
    hide KeyIdOf, Save, Agree, Reload, FileName, Good, Lists, Load;
    match e
    case Reloaded(order, clock) =>
      ReloadLike(false, s, order, clock);
      assert Like(false, Reload(s, order, clock).keys[id], s.keys[id]);
    case Attested(k, _) => if k in s.keys { GoodAt(false, s, k); }
    case _ =>
  }

  lemma {:induction false} VouchedWasAttested(
      sys: Auth.System, ok: string -> bool, ds: seq<Daemon>, es: seq<Happening>, i: nat, id: string) returns (g: nat)
    requires IsRun(sys, ok, ds, es) && Policy(false, ok) && i <= |es| && Vouched(StoreOf(ds[i]), id)
    ensures g < i && es[g].cause.Managed? && Attests(sys.p, es[g].cause.change, id)
  {
    hide Agree, Policy, Next, Proper, KeyWhitelist.Step, Fair, Named, Vouched, Auth.Authenticate;
    if i == 0 {
      NoneVouched(id);
      assert false;
    } else {
      var d, e := ds[i - 1], es[i - 1];
      assert ds[i] == Next(sys, d, e);
      RunAgrees(sys, ok, ds, es, i - 1);
      WhitelistRefines(sys, ok, d, e);
      var w := WhitelistEvent(sys, d, e);
      if w.Some? { VouchedBefore(sys.p, StoreOf(d), w.value, id); }
      if w.Some? && Attests(sys.p, w.value, id) {
        g := i - 1;
      } else {
        g := VouchedWasAttested(sys, ok, ds, es, i - 1, id);
      }
    }
  }

  lemma NoneVouched(id: string)
    ensures !Vouched(EMPTY, id)
  {}

  /** In every run with harmless package names: an OK with a key of the whitelist comes after a genuine attestation
      of that key. */
  lemma OkKeyWasAttested(
      sys: Auth.System, ok: string -> bool, ds: seq<Daemon>, es: seq<Happening>, k: nat, id: string) returns (g: nat)
    requires IsRun(sys, ok, ds, es) && Policy(false, ok) && k < |es| && OkWith(sys, ds[k], es[k], id) && id != ""
    ensures g < k && es[g].cause.Managed? && Attests(sys.p, es[g].cause.change, id)
  {
    hide Policy, Next, Proper, OkWith;
    assert Proper(sys, ok, ds[k], es[k]);
    OkKeyMayEnter(sys, ok, ds[k], es[k], id);
    g := VouchedWasAttested(sys, ok, ds, es, k, id);
  }
}
