/** Per-uid authorization with trust on first use (daemon/core/auth/uid_whitelist.cpp and .h). Writes of the
    whitelist file succeed; `order` is the order in which the map of apps is listed when it is saved. */
module UidWhitelist {
  import opened Bytes
  import opened Text
  import opened UidFile
  import Crypto

  const UNKNOWN := 0
  const PENDING := 1
  const AUTHORIZED := 2
  const DENIED := 3
  const REVOKED := 4

  datatype Config = Config(timeout: int, maxPending: nat)

  datatype Request = Request(pid: int, package: string, at: int, reason: string)

  type Requests = map<int, Request>

  datatype Store = Store(apps: Apps, pending: Requests, file: Option<string>)

  const EMPTY := Store(map[], map[], None)

  const BLANK_APP := App(0, UNKNOWN, "", "", 0, 0, 0, 0, [], 0)

  // ---- Operations -----------------------------------------------------------------------------

  function AppOf(apps: Apps, uid: int): App { if uid in apps then apps[uid] else BLANK_APP }

  /** A 32-bit counter. */
  function Increment(n: int): int { if n == INT32 - 1 then -INT32 else n + 1 }

  /** `check_authorization`: an expired request is dropped when asked about. */
  function Check(c: Config, s: Store, uid: int, now: int): (int, Store) {
    if uid in s.apps then (s.apps[uid].status, s)
    else if uid !in s.pending then (UNKNOWN, s)
    else if now - s.pending[uid].at > c.timeout then (UNKNOWN, s.(pending := s.pending - {uid}))
    else (PENDING, s)
  }

  /** `is_authorized`: access is counted, but not saved. */
  function Access(s: Store, uid: int, now: int): (bool, Store) {
    if uid !in s.apps || s.apps[uid].status != AUTHORIZED then (false, s)
    else (true, s.(apps := s.apps[uid := s.apps[uid].(lastAccess := now, count := Increment(s.apps[uid].count))]))
  }

  predicate Decided(apps: Apps, uid: int) {
    uid in apps && (apps[uid].status == AUTHORIZED || apps[uid].status == DENIED)
  }

  function RequestAuthorization(c: Config, s: Store, uid: int, r: Request): (bool, Store) {
    if Decided(s.apps, uid) || uid in s.pending || |s.pending| >= c.maxPending then (false, s)
    else (true, s.(pending := s.pending[uid := r]))
  }

  function Authorize(s: Store, uid: int, name: string, now: int): Store {
    var package := if uid in s.pending then s.pending[uid].package else "";
    var a := AppOf(s.apps, uid);
    s.(pending := s.pending - {uid},
       apps := s.apps[uid := a.(uid := uid, package := package, appLabel := if name == "" then package else name,
                                firstSeen := if a.firstSeen == 0 then now else a.firstSeen,
                                authorizedAt := now, lastAccess := now, status := AUTHORIZED)])
  }

  function Deny(s: Store, uid: int, now: int): Store {
    s.(pending := s.pending - {uid},
       apps := s.apps[uid := AppOf(s.apps, uid).(uid := uid, status := DENIED, authorizedAt := now)])
  }

  function Revoke(s: Store, uid: int): Store {
    if uid in s.apps then s.(apps := s.apps[uid := s.apps[uid].(status := REVOKED)]) else s
  }

  /** Whether `register_public_key` takes the key as a first one. */
  predicate FirstKey(s: Store, uid: int) {
    uid in s.apps && s.apps[uid].status == AUTHORIZED && s.apps[uid].key == []
  }

  function Register(s: Store, uid: int, key: seq<byte>, now: int): (bool, Store) {
    if uid !in s.apps || s.apps[uid].status != AUTHORIZED then (false, s)
    else if s.apps[uid].key != [] then (s.apps[uid].key == key, s)
    else (true, s.(apps := s.apps[uid := s.apps[uid].(key := key, keyTime := now)]))
  }

  function Live(c: Config, pending: Requests, now: int): Requests {
    map uid | uid in pending && now - pending[uid].at <= c.timeout :: pending[uid]
  }

  function LoadFrom(file: Option<string>): (r: Apps)
    ensures forall uid :: uid in r ==> InRange(r[uid]) && r[uid].uid == uid
  {
    if file.None? then map[] else Load(file.value)
  }

  // ---- Runs -----------------------------------------------------------------------------------

  /** `Restarted(true)` is a shutdown and start, `Restarted(false)` a crash and start. */
  datatype Action =
    | Asked(uid: int)
    | Accessed(uid: int)
    | Requested(uid: int, request: Request)
    | Authorized(uid: int, name: string)
    | Denied(uid: int)
    | Revoked(uid: int)
    | Registered(uid: int, key: seq<byte>)
    | CleanedUp
    | Restarted(clean: bool)

  datatype Event = Event(at: int, action: Action, order: seq<int>)

  /** The step without the save or load that ends it. */
  function Change(c: Config, s: Store, e: Event): Store {
    match e.action
    case Asked(uid) => Check(c, s, uid, e.at).1
    case Accessed(uid) => Access(s, uid, e.at).1
    case Requested(uid, request) => RequestAuthorization(c, s, uid, request).1
    case Authorized(uid, name) => Authorize(s, uid, name, e.at)
    case Denied(uid) => Deny(s, uid, e.at)
    case Revoked(uid) => Revoke(s, uid)
    case Registered(uid, key) => Register(s, uid, key, e.at).1
    case CleanedUp => s.(pending := Live(c, s.pending, e.at))
    case Restarted(_) => s
  }

  predicate Saves(s: Store, e: Event) {
    match e.action
    case Authorized(_, _) => true
    case Denied(_) => true
    case Revoked(uid) => uid in s.apps
    case Registered(uid, _) => FirstKey(s, uid)
    case Restarted(clean) => clean && s.apps != map[]
    case _ => false
  }

  /** The only demand on a step: a save lists the map. */
  ghost predicate Possible(c: Config, s: Store, e: Event) { Lists(e.order, Change(c, s, e).apps) }

  function Step(c: Config, s: Store, e: Event): Store
    requires Possible(c, s, e)
  {
    var t := Change(c, s, e);
    var file := if Saves(s, e) then Some(FileText(t.apps, e.order)) else t.file;
    if e.action.Restarted? then Store(LoadFrom(file), map[], file) else t.(file := file)
  }

  ghost predicate IsRun(c: Config, states: seq<Store>, es: seq<Event>) {
    && |states| == |es| + 1 && states[0] == EMPTY
    && forall i :: 0 <= i < |es| ==> Possible(c, states[i], es[i]) && states[i + 1] == Step(c, states[i], es[i])
  }

  /** Uids and times are values of their C++ types. */
  predicate Typed(e: Event) {
    0 <= e.at < INT64 && (!e.action.CleanedUp? && !e.action.Restarted? ==> 0 <= e.action.uid < UINT32)
  }

  /** The names an event brings in satisfy `ok`. */
  predicate Named(ok: string -> bool, e: Event) {
    (e.action.Requested? ==> ok(e.action.request.package)) && (e.action.Authorized? ==> ok(e.action.name))
  }

  /** A step with typed values and names the file can hold. */
  ghost predicate Fair(c: Config, s: Store, e: Event) {
    Possible(c, s, e) && Typed(e) && Named(Plain, e)
  }

  // ---- Pending requests -----------------------------------------------------------------------

  ghost predicate PendingSound(c: Config, s: Store) {
    |s.pending| <= c.maxPending && forall uid :: uid in s.pending ==> !Decided(s.apps, uid)
  }

  lemma {:induction false} SubsetSize(a: set<int>, b: set<int>)
    requires a <= b
    ensures |a| <= |b|
    decreases b
  {
    if b != {} {
      assert (forall x :: x !in b) ==> b == {};
      var x :| x in b;
      SubsetSize(a - {x}, b - {x});
    }
  }

  lemma ChangeShrinks(c: Config, s: Store, e: Event)
    ensures !e.action.Requested? ==> |Change(c, s, e).pending| <= |s.pending|
  {
    hide Access, Register, Revoke;
    var t := Change(c, s, e);
    if !e.action.Requested? {
      assert t.pending.Keys <= s.pending.Keys by {
        assert e.action.Accessed? ==> t.pending == s.pending by { AccessPending(s, e); }
        assert e.action.Registered? || e.action.Revoked? ==> t.pending == s.pending by { OtherPending(c, s, e); }
      }
      SubsetSize(t.pending.Keys, s.pending.Keys);
    }
  }

  lemma AccessPending(s: Store, e: Event)
    ensures e.action.Accessed? ==> Access(s, e.action.uid, e.at).1.pending == s.pending
  {}

  lemma OtherPending(c: Config, s: Store, e: Event)
    ensures e.action.Registered? || e.action.Revoked? ==> Change(c, s, e).pending == s.pending
  {}

  lemma StepPending(c: Config, s: Store, e: Event)
    requires PendingSound(c, s) && Possible(c, s, e)
    ensures PendingSound(c, Step(c, s, e))
  {
    hide Lists, Increment, FileText;
    ChangeShrinks(c, s, e);
  }

  /** In every run, whatever the names, uids and times, and restarts included: never more pending requests
      than the limit, and none of a uid that is authorized or denied. */
  lemma {:induction false} PendingWithinLimit(c: Config, states: seq<Store>, es: seq<Event>, i: nat)
    requires IsRun(c, states, es) && i <= |es|
    ensures |states[i].pending| <= c.maxPending
    ensures forall uid :: uid in states[i].pending ==> !Decided(states[i].apps, uid)
  {
    hide Step, Possible;
    if i > 0 {
      PendingWithinLimit(c, states, es, i - 1);
      StepPending(c, states[i - 1], es[i - 1]);
    }
  }

  // ---- The invariant --------------------------------------------------------------------------

  /** Equal but for the access statistics and the time of key registration. */
  ghost predicate Alike(a: App, b: App) {
    a.(lastAccess := 0, count := 0, keyTime := 0) == b.(lastAccess := 0, count := 0, keyTime := 0)
  }

  ghost predicate Agree(saved: Apps, apps: Apps) {
    saved.Keys == apps.Keys && forall uid :: uid in apps ==> Alike(saved[uid], apps[uid])
  }

  ghost predicate PlainPending(s: Store) { forall uid :: uid in s.pending ==> Plain(s.pending[uid].package) }

  ghost predicate Inv(s: Store) {
    AllStorable(s.apps) && PlainPending(s) && Agree(LoadFrom(s.file), s.apps)
  }

  lemma UpdateStorable(apps: Apps, uid: int, a: App)
    requires AllStorable(apps) && Storable(a) && a.uid == uid
    ensures AllStorable(apps[uid := a])
  {
    hide Storable;
  }

  lemma EntryStorable(apps: Apps, uid: int)
    requires AllStorable(apps)
    ensures Storable(AppOf(apps, uid)) && (uid in apps ==> apps[uid].uid == uid)
  {
    assert uid in apps ==> Storable(apps[uid]);
  }

  lemma PendingPlain(s: Store, uid: int)
    requires PlainPending(s)
    ensures uid in s.pending ==> Plain(s.pending[uid].package)
    ensures Plain("")
  {}

  lemma AuthorizeStorable(s: Store, uid: int, name: string, now: int)
    requires AllStorable(s.apps) && PlainPending(s) && 0 <= now < INT64 && 0 <= uid < UINT32 && Plain(name)
    ensures AllStorable(Authorize(s, uid, name, now).apps)
  {
    hide AllStorable, PlainPending, Plain;
    EntryStorable(s.apps, uid);
    PendingPlain(s, uid);
    UpdateStorable(s.apps, uid, Authorize(s, uid, name, now).apps[uid]);
  }

  lemma DenyStorable(s: Store, uid: int, now: int)
    requires AllStorable(s.apps) && 0 <= now < INT64 && 0 <= uid < UINT32
    ensures AllStorable(Deny(s, uid, now).apps)
  {
    hide AllStorable, Plain;
    EntryStorable(s.apps, uid);
    UpdateStorable(s.apps, uid, Deny(s, uid, now).apps[uid]);
  }

  lemma OtherStorable(s: Store, uid: int, key: seq<byte>, now: int)
    requires AllStorable(s.apps) && 0 <= now < INT64
    ensures AllStorable(Access(s, uid, now).1.apps)
    ensures AllStorable(Revoke(s, uid).apps)
    ensures AllStorable(Register(s, uid, key, now).1.apps)
  {
    hide AllStorable, Plain;
    EntryStorable(s.apps, uid);
    if uid in s.apps {
      var a := s.apps[uid];
      UpdateStorable(s.apps, uid, a.(lastAccess := now, count := Increment(a.count)));
      UpdateStorable(s.apps, uid, a.(status := REVOKED));
      UpdateStorable(s.apps, uid, a.(key := key, keyTime := now));
    }
  }

  lemma ChangeStorable(c: Config, s: Store, e: Event)
    requires AllStorable(s.apps) && PlainPending(s) && Fair(c, s, e)
    ensures AllStorable(Change(c, s, e).apps)
  {
    hide AllStorable, PlainPending, Lists, Plain, Live, Authorize, Deny, Access, Revoke, Register;
    match e.action
    case Authorized(uid, name) => AuthorizeStorable(s, uid, name, e.at);
    case Denied(uid) => DenyStorable(s, uid, e.at);
    case Accessed(uid) => OtherStorable(s, uid, [], e.at);
    case Revoked(uid) => OtherStorable(s, uid, [], e.at);
    case Registered(uid, key) => OtherStorable(s, uid, key, e.at);
    case _ =>
  }

  lemma ChangePlain(c: Config, s: Store, e: Event)
    requires PlainPending(s) && Fair(c, s, e)
    ensures PlainPending(Change(c, s, e))
  {
    hide Lists, Plain, Increment;
  }

  /** A change that is not saved touches access statistics only. */
  lemma UnsavedAlike(c: Config, s: Store, e: Event)
    requires !Saves(s, e)
    ensures Change(c, s, e).file == s.file && Agree(s.apps, Change(c, s, e).apps)
  {}

  lemma SavedAgree(apps: Apps, order: seq<int>)
    requires AllStorable(apps) && Lists(order, apps)
    ensures Agree(Load(FileText(apps, order)), apps)
  {
    FileLoads(apps, order);
    hide Load, FileText;
  }

  lemma AgreeTransitive(a: Apps, b: Apps, d: Apps)
    requires Agree(a, b) && Agree(b, d)
    ensures Agree(a, d)
  {}

  /** After the change and the save, if any, the file agrees with memory. */
  lemma FileAgrees(c: Config, s: Store, e: Event)
    requires Inv(s) && Fair(c, s, e)
    ensures var t := Change(c, s, e);
            Agree(LoadFrom(if Saves(s, e) then Some(FileText(t.apps, e.order)) else t.file), t.apps)
  {
    hide Change, Saves, Load, FileText, Alike, Plain, Storable;
    ChangeStorable(c, s, e);
    if Saves(s, e) {
      SavedAgree(Change(c, s, e).apps, e.order);
    } else {
      UnsavedAlike(c, s, e);
      AgreeTransitive(LoadFrom(s.file), s.apps, Change(c, s, e).apps);
    }
  }

  lemma LoadedStorable(saved: Apps, apps: Apps)
    requires AllStorable(apps) && Agree(saved, apps)
    requires forall uid :: uid in saved ==> InRange(saved[uid]) && saved[uid].uid == uid
    ensures AllStorable(saved)
  {
    hide InRange, Plain;
    forall uid | uid in saved ensures Storable(saved[uid]) && saved[uid].uid == uid {
      assert uid in apps && Alike(saved[uid], apps[uid]);
    }
  }

  lemma StepKeeps(c: Config, s: Store, e: Event)
    requires Inv(s) && Fair(c, s, e)
    ensures Inv(Step(c, s, e))
  {
    hide Change, Saves, Load, FileText, Alike, Plain, Storable, Typed, Named, InRange;
    ChangeStorable(c, s, e);
    ChangePlain(c, s, e);
    FileAgrees(c, s, e);
    var t := Step(c, s, e);
    if e.action.Restarted? {
      LoadedStorable(t.apps, Change(c, s, e).apps);
      assert Agree(t.apps, t.apps) by { AgreeSelf(t.apps); }
    }
  }

  lemma AgreeSelf(apps: Apps)
    ensures Agree(apps, apps)
  {}

  /** In every typed run with plain names, memory and file agree throughout. */
  lemma {:induction false} RunKeeps(c: Config, states: seq<Store>, es: seq<Event>, i: nat)
    requires IsRun(c, states, es) && i <= |es| && forall e :: e in es ==> Typed(e) && Named(Plain, e)
    ensures Inv(states[i])
  {
    hide Inv, Step, Possible, Named, Typed;
    if i == 0 {
      EmptyInv();
    } else {
      RunKeeps(c, states, es, i - 1);
      assert es[i - 1] in es;
      StepKeeps(c, states[i - 1], es[i - 1]);
    }
  }

  lemma EmptyInv()
    ensures Inv(EMPTY)
  {}

  // ---- Restarts -------------------------------------------------------------------------------

  /** Values of their C++ types, whatever the names. */
  ghost predicate TypedApps(apps: Apps) {
    forall uid :: uid in apps ==> InRange(apps[uid]) && apps[uid].uid == uid
  }

  lemma StepTyped(c: Config, s: Store, e: Event)
    requires Possible(c, s, e) && Typed(e) && TypedApps(s.apps)
    ensures TypedApps(Step(c, s, e).apps)
  {
    hide Lists, Load, FileText;
  }

  lemma {:induction false} RunTyped(c: Config, states: seq<Store>, es: seq<Event>, i: nat)
    requires IsRun(c, states, es) && i <= |es| && forall e :: e in es ==> Typed(e)
    ensures TypedApps(states[i].apps)
  {
    hide Step, Possible, Typed;
    if i > 0 {
      RunTyped(c, states, es, i - 1);
      assert es[i - 1] in es;
      StepTyped(c, states[i - 1], es[i - 1]);
    }
  }

  /** In every typed run, whatever the names: a shutdown and start gives back every app, but for the time of
      key registration, exactly when no name holds a separator or a newline. */
  lemma CleanRestartIff(c: Config, states: seq<Store>, es: seq<Event>, i: nat)
    requires IsRun(c, states, es) && i < |es| && es[i].action == Restarted(true)
    requires states[i].apps != map[] && forall e :: e in es ==> Typed(e)
    ensures states[i + 1].apps == Kept(states[i].apps) <==> PlainNames(states[i].apps)
  {
    hide Load, FileText, PlainNames, InRange;
    RunTyped(c, states, es, i);
    FileLoadsIff(states[i].apps, es[i].order);
  }

  /** With plain names, a start after a shutdown or a crash gives back every app; only after a crash can
      access statistics be older, and the time of key registration is not kept. */
  lemma RestartKeeps(c: Config, s: Store, e: Event)
    requires Inv(s) && Fair(c, s, e) && e.action.Restarted?
    ensures Agree(Step(c, s, e).apps, s.apps)
    ensures e.action.clean ==> Step(c, s, e).apps == Kept(s.apps)
  {
    hide Load, FileText, Alike, Storable;
    FileAgrees(c, s, e);
    if e.action.clean && s.apps != map[] { FileLoads(s.apps, e.order); }
  }

  // ---- Registered keys ------------------------------------------------------------------------

  ghost predicate HasKey(s: Store, uid: int, key: seq<byte>) { uid in s.apps && s.apps[uid].key == key }

  lemma ChangeKeepsKey(c: Config, s: Store, e: Event, uid: int, key: seq<byte>)
    requires HasKey(s, uid, key) && key != []
    ensures HasKey(Change(c, s, e), uid, key)
  {}

  lemma StepKeepsKey(c: Config, s: Store, e: Event, uid: int, key: seq<byte>)
    requires Inv(s) && Fair(c, s, e) && HasKey(s, uid, key) && key != []
    ensures HasKey(Step(c, s, e), uid, key)
  {
    hide Load, FileText, Typed, Named, Inv, Change, Saves;
    ChangeKeepsKey(c, s, e, uid, key);
    if e.action.Restarted? {
      RestartKeeps(c, s, e);
      assert Alike(Step(c, s, e).apps[uid], s.apps[uid]);
    }
  }

  /** In every typed run with plain names, restarts included, a registered nonempty key never changes. */
  lemma {:induction false} KeyNeverChanges(
    c: Config, states: seq<Store>, es: seq<Event>, i: nat, j: nat, uid: int, key: seq<byte>)
    requires IsRun(c, states, es) && forall e :: e in es ==> Typed(e) && Named(Plain, e)
    requires i <= j <= |es| && HasKey(states[i], uid, key) && key != []
    ensures HasKey(states[j], uid, key)
    decreases j - i
  {
    hide Inv, Step, Possible, Typed, Named, HasKey;
    if i < j {
      RunKeeps(c, states, es, i);
      assert es[i] in es;
      StepKeepsKey(c, states[i], es[i], uid, key);
      KeyNeverChanges(c, states, es, i + 1, j, uid, key);
    }
  }

  // ---- Names that lose keys -------------------------------------------------------------------

  /** Every typed run whose names satisfy `ok` keeps every registered nonempty key. */
  ghost predicate KeysKept(c: Config, ok: string -> bool) {
    forall states, es, i, j, uid, key ::
      && IsRun(c, states, es) && (forall e :: e in es ==> Typed(e) && Named(ok, e))
      && 0 <= i <= j <= |es| && HasKey(states[i], uid, key) && key != []
      ==> HasKey(states[j], uid, key)
  }

  /** A first authorization, at time 1. */
  lemma FirstAuthorized(c: Config, s: Store, uid: int, name: string, order: seq<int>)
    requires uid !in s.apps && uid !in s.pending && Lists(order, s.apps[uid := BLANK_APP])
    ensures var e, a := Event(1, Authorized(uid, name), order), Fresh(uid, AUTHORIZED, name, []).(keyTime := 0);
            && Possible(c, s, e) && Step(c, s, e).apps == s.apps[uid := a] && Step(c, s, e).pending == s.pending
            && Step(c, s, e).file == Some(FileText(s.apps[uid := a], order))
  {
    hide FileText;
  }

  lemma FirstRegistered(c: Config, s: Store, uid: int, name: string, key: seq<byte>, order: seq<int>)
    requires Lists(order, s.apps) && uid in s.apps && s.apps[uid] == Fresh(uid, AUTHORIZED, name, []).(keyTime := 0)
    ensures var e, a := Event(1, Registered(uid, key), order), Fresh(uid, AUTHORIZED, name, key);
            && Possible(c, s, e) && Step(c, s, e).apps == s.apps[uid := a] && Step(c, s, e).pending == s.pending
            && Step(c, s, e).file == Some(FileText(s.apps[uid := a], order))
  {
    hide FileText;
  }

  lemma Crashed(c: Config, s: Store, order: seq<int>)
    requires Lists(order, s.apps)
    ensures var e := Event(1, Restarted(false), order); Possible(c, s, e) && Step(c, s, e).apps == LoadFrom(s.file)
  {
    hide FileText, Load;
  }

  /** Authorize, register and crash: what comes back is what the file of that one app loads as. */
  lemma OneAppRun(c: Config, uid: int, name: string, key: seq<byte>) returns (states: seq<Store>, es: seq<Event>)
    requires 0 <= uid < UINT32 && name != "" && key != []
    ensures IsRun(c, states, es) && |es| == 3
    ensures forall e :: e in es ==> Typed(e) && (e.action.Authorized? ==> e.action.name == name) && !e.action.Requested?
    ensures HasKey(states[2], uid, key)
    ensures Lists([uid], map[uid := Fresh(uid, AUTHORIZED, name, key)])
    ensures states[3].apps == Load(FileText(map[uid := Fresh(uid, AUTHORIZED, name, key)], [uid]))
  {
    hide FileText, Load, Step, Possible;
    var e0, e1 := Event(1, Authorized(uid, name), [uid]), Event(1, Registered(uid, key), [uid]);
    var e2 := Event(1, Restarted(false), [uid]);
    FirstAuthorized(c, EMPTY, uid, name, [uid]);
    var s1 := Step(c, EMPTY, e0);
    FirstRegistered(c, s1, uid, name, key, [uid]);
    var s2 := Step(c, s1, e1);
    assert s2.apps == map[uid := Fresh(uid, AUTHORIZED, name, key)];
    Crashed(c, s2, [uid]);
    var s3 := Step(c, s2, e2);
    states, es := [EMPTY, s1, s2, s3], [e0, e1, e2];
  }

  /** Under any name with a separator or a newline, a registered key is lost at the next start. */
  lemma AwkwardNameLosesKey(c: Config, name: string)
    returns (states: seq<Store>, es: seq<Event>, uid: int, key: seq<byte>)
    requires !Plain(name)
    ensures IsRun(c, states, es) && |es| == 3
    ensures forall e :: e in es ==> Typed(e) && (e.action.Authorized? ==> e.action.name == name) && !e.action.Requested?
    ensures key != [] && HasKey(states[2], uid, key) && !HasKey(states[3], uid, key)
  {
    hide FileText, Load, IsRun;
    uid, key := UnreadableKey(AUTHORIZED, name);
    states, es := OneAppRun(c, uid, name, key);
  }

  /** Registered keys survive every run exactly when no name that is let in holds a separator or a newline. */
  lemma KeysKeptIff(c: Config, ok: string -> bool)
    ensures KeysKept(c, ok) <==> forall s :: ok(s) ==> Plain(s)
  {
    hide Step, Possible, HasKey, Plain, Typed;
    if forall s :: ok(s) ==> Plain(s) {
      forall states, es, i, j, uid, key |
        && IsRun(c, states, es) && (forall e :: e in es ==> Typed(e) && Named(ok, e))
        && 0 <= i <= j <= |es| && HasKey(states[i], uid, key) && key != []
        ensures HasKey(states[j], uid, key)
      {
        KeyNeverChanges(c, states, es, i, j, uid, key);
      }
    } else {
      var name :| ok(name) && !Plain(name);
      var states, es, uid, key := AwkwardNameLosesKey(c, name);
      assert forall e :: e in es ==> Typed(e) && Named(ok, e);
    }
  }

  lemma ListsTwo(apps: Apps, a: int, b: int, x: App)
    requires apps.Keys == {a}
    ensures Lists([a, b], apps[b := x])
  {}

  const OTHER := App(7, AUTHORIZED, "p", "l", 0, 0, 0, 0, [255], 0)

  /** A concrete run: the label of app 8 holds a line that reads as app 7, and the next start gives app 7 the
      key of that line in place of the one it registered. */
  lemma LabelReplacesKey(c: Config) returns (states: seq<Store>, es: seq<Event>)
    ensures IsRun(c, states, es) && |es| == 4 && forall e :: e in es ==> Typed(e)
    ensures es[2].action == Authorized(8, "x\n" + Line(OTHER))
    ensures HasKey(states[2], 7, [1]) && HasKey(states[4], 7, [255])
  {
    hide FileText, Load, Line, Step, Possible;
    var name := "x\n" + Line(OTHER);
    var e0, e1 := Event(1, Authorized(7, ""), [7]), Event(1, Registered(7, [1]), [7]);
    var e2, e3 := Event(1, Authorized(8, name), [7, 8]), Event(1, Restarted(false), [7, 8]);
    var a7, a8 := Fresh(7, AUTHORIZED, "", [1]), Fresh(8, AUTHORIZED, name, []).(keyTime := 0);
    FirstAuthorized(c, EMPTY, 7, "", [7]);
    var s1 := Step(c, EMPTY, e0);
    FirstRegistered(c, s1, 7, "", [1], [7]);
    var s2 := Step(c, s1, e1);
    assert s2.apps == map[7 := a7];
    ListsTwo(s2.apps, 7, 8, BLANK_APP);
    ListsTwo(s2.apps, 7, 8, a8);
    FirstAuthorized(c, s2, 8, name, [7, 8]);
    var s3 := Step(c, s2, e2);
    assert s3.apps == map[7 := a7, 8 := a8];
    Crashed(c, s3, [7, 8]);
    var s4 := Step(c, s3, e3);
    LastLineWins(map[7 := a7, 8 := a8], [7, 8], "x", OTHER);
    states, es := [EMPTY, s1, s2, s3, s4], [e0, e1, e2, e3];
  }

  // ---- The code -------------------------------------------------------------------------------

  class Whitelist {
    const config: Config
    var apps: Apps
    var pending: Requests
    var file: Option<string>

    ghost function View(): Store
      reads this
    {
      Store(apps, pending, file)
    }

    constructor (config: Config)
      ensures this.config == config && View() == EMPTY
    {
      this.config := config;
      apps, pending, file := map[], map[], None;
    }

    method CheckAuthorization(uid: int, now: int) returns (status: int)
      modifies this
      ensures (status, View()) == Check(config, old(View()), uid, now)
    {
      if uid in apps { return apps[uid].status; }
      if uid !in pending { return UNKNOWN; }
      if now - pending[uid].at > config.timeout {
        pending := pending - {uid};
        return UNKNOWN;
      }
      status := PENDING;
    }

    method IsAuthorized(uid: int, now: int) returns (ok: bool)
      modifies this
      ensures (ok, View()) == Access(old(View()), uid, now)
    {
      if uid !in apps { return false; }
      if apps[uid].status != AUTHORIZED { return false; }
      apps := apps[uid := apps[uid].(lastAccess := now, count := Increment(apps[uid].count))];
      ok := true;
    }

    method Request(uid: int, r: Request) returns (ok: bool)
      modifies this
      ensures (ok, View()) == RequestAuthorization(config, old(View()), uid, r)
    {
      if uid in apps {
        if apps[uid].status == AUTHORIZED { return false; }
        if apps[uid].status == DENIED { return false; }
      }
      if uid in pending { return false; }
      if |pending| >= config.maxPending { return false; }
      pending := pending[uid := r];
      ok := true;
    }

    method CleanupExpired(now: int)
      modifies this`pending
      ensures pending == Live(config, old(pending), now)
    {
      var todo := pending.Keys;
      while todo != {}
        invariant todo <= old(pending).Keys
        invariant pending == map uid | uid in old(pending)
                    && (uid in todo || now - old(pending)[uid].at <= config.timeout) :: old(pending)[uid]
        decreases |todo|
      {
        assert (forall x :: x !in todo) ==> todo == {};
        var uid :| uid in todo;
        todo := todo - {uid};
        if now - pending[uid].at > config.timeout { pending := pending - {uid}; }
      }
    }

    method Save(order: seq<int>)
      requires Lists(order, apps)
      modifies this`file
      ensures file == Some(FileText(apps, order))
    {
      var text := SaveFile(apps, order);
      file := Some(text);
    }

    method AuthorizeUid(uid: int, name: string, order: seq<int>, now: int)
      requires Possible(config, View(), Event(now, Authorized(uid, name), order))
      modifies this
      ensures View() == Step(config, old(View()), Event(now, Authorized(uid, name), order))
    {
      hide FileText, Lists, Plain;
      var package := "";
      if uid in pending {
        package := pending[uid].package;
        pending := pending - {uid};
      }
      var a := AppOf(apps, uid);
      a := a.(uid := uid, package := package, appLabel := if name == "" then package else name);
      if a.firstSeen == 0 { a := a.(firstSeen := now); }
      a := a.(authorizedAt := now, lastAccess := now, status := AUTHORIZED);
      apps := apps[uid := a];
      assert pending == old(pending) - {uid};
      Save(order);
    }

    method DenyUid(uid: int, order: seq<int>, now: int)
      requires Possible(config, View(), Event(now, Denied(uid), order))
      modifies this
      ensures View() == Step(config, old(View()), Event(now, Denied(uid), order))
    {
      hide FileText, Lists;
      pending := pending - {uid};
      apps := apps[uid := AppOf(apps, uid).(uid := uid, status := DENIED, authorizedAt := now)];
      Save(order);
    }

    method RevokeUid(uid: int, order: seq<int>, now: int)
      requires Possible(config, View(), Event(now, Revoked(uid), order))
      modifies this
      ensures View() == Step(config, old(View()), Event(now, Revoked(uid), order))
    {
      hide FileText, Lists;
      if uid in apps {
        apps := apps[uid := apps[uid].(status := REVOKED)];
        Save(order);
      }
    }

    method RegisterPublicKey(uid: int, key: seq<byte>, order: seq<int>, now: int) returns (ok: bool)
      requires Possible(config, View(), Event(now, Registered(uid, key), order))
      modifies this
      ensures View() == Step(config, old(View()), Event(now, Registered(uid, key), order))
      ensures ok == Register(old(View()), uid, key, now).0
    {
      hide FileText, Lists;
      if uid !in apps { return false; }
      if apps[uid].status != AUTHORIZED { return false; }
      if apps[uid].key != [] {
        ok := Crypto.ConstantTimeCompare(apps[uid].key, key);
        return;
      }
      apps := apps[uid := apps[uid].(key := key, keyTime := now)];
      Save(order);
      ok := true;
    }

    /** `shutdown`, or a crash, followed by `initialize`. */
    method Restart(clean: bool, order: seq<int>, now: int)
      requires Possible(config, View(), Event(now, Restarted(clean), order))
      modifies this
      ensures View() == Step(config, old(View()), Event(now, Restarted(clean), order))
    {
      hide FileText, Load;
      if clean && apps != map[] { Save(order); }
      apps, pending := map[], map[];
      if file.Some? { apps := LoadFile(file.value); }
    }
  }
}
