/** Authentication: challenges, signatures, the rate limiter and the session composed
    (daemon/core/auth/auth_manager.cpp, and the guard of daemon/ipc/futon_daemon_impl.cpp). Caller, device
    and pin checks are inputs of a step; each operation is one step of a sequential run. */
module Auth {
  import opened Bytes
  import opened Crypto
  import opened KeyFile
  import Sessions
  import Limits = RateLimiter
  import KeyWhitelist

  datatype Config = Config(required: bool, limiting: bool, verifyCallers: bool, pinning: bool, limits: Limits.Config)

  /** What does not change while the daemon runs. */
  datatype System = System(p: Primitives, config: Config, key: Digest)

  datatype State = State(
    sessions: Sessions.State, attempts: Limits.Attempts, keys: map<string, Entry>, publicKey: seq<byte>)

  datatype Result =
    | Ok(keyId: string)
    | RateLimited | DeviceMismatch | NoChallenge | NoKey | Tampered | BadSignature | Conflict

  /** One attempt: `pick` is the whitelisted key found for the signature, `deviceOk` and `pinOk` the
      verdicts on the device and on the pinned key. */
  datatype Attempt = Attempt(
    uid: int, sig: seq<byte>, instance: string, pick: Option<string>, deviceOk: bool, pinOk: bool, clock: nat)

  // ---- Operations -----------------------------------------------------------------------------

  function Admit(sys: System, m: Limits.Attempts, uid: int, now: int): (bool, Limits.Attempts) {
    if !sys.config.limiting then (true, m)
    else
      var (v, n) := Limits.Check(sys.config.limits, m, uid, now);
      (v.Allowed?, n)
  }

  function Failed(sys: System, s: State, uid: int, now: int): State {
    if sys.config.limiting then s.(attempts := Limits.Fail(sys.config.limits, s.attempts, uid, now)) else s
  }

  function Succeeded(sys: System, s: State, uid: int): State {
    if sys.config.limiting then s.(attempts := Limits.Succeed(s.attempts, uid)) else s
  }

  function Consumed(s: State, uid: int): State { s.(sessions := Sessions.ClearChallenge(s.sessions, uid)) }

  function MarkUsed(s: State, a: Attempt): State {
    if a.pick.Some? && a.pick.value in s.keys
    then s.(keys := s.keys[a.pick.value := s.keys[a.pick.value].(lastUsedAt := a.clock)]) else s
  }

  /** The signature is accepted: use up the challenge and open or refresh the session. */
  function Finish(sys: System, s: State, a: Attempt, keyId: string, now: int): (Result, State) {
    var t := Consumed(s, a.uid);
    var (ok, x) := Sessions.Create(t.sessions, a.instance, a.uid, now);
    if !ok then (Conflict, t) else (Ok(keyId), Succeeded(sys, t.(sessions := x), a.uid))
  }

  /** Judge the signature over the pending challenge: a whitelisted key first, then the legacy key. */
  function Judge(sys: System, s: State, a: Attempt, challenge: seq<byte>, now: int): (Result, State) {
    var t := MarkUsed(s, a);
    var keyId := if a.pick.Some? then a.pick.value else "";
    if keyId != "" then Finish(sys, t, a, keyId, now)
    else if s.publicKey == [] then (NoKey, Failed(sys, t, a.uid, now))
    else if sys.config.pinning && !a.pinOk then (Tampered, t)
    else if !VerifyAny(sys.p, s.publicKey, challenge, a.sig) then
      (BadSignature, Failed(sys, Consumed(t, a.uid), a.uid, now))
    else Finish(sys, t, a, keyId, now)
  }

  /** `authenticate`. */
  function Authenticate(sys: System, s: State, a: Attempt, now: int): (Result, State) {
    if !sys.config.required then
      var (ok, x) := Sessions.Create(s.sessions, a.instance, a.uid, now);
      (if ok then Ok("") else Conflict, s.(sessions := x))
    else
      var (allowed, m) := Admit(sys, s.attempts, a.uid, now);
      var t := s.(attempts := m);
      if !allowed then (RateLimited, t)
      else if !a.deviceOk then (DeviceMismatch, t)
      else
        var c := Sessions.PendingChallenge(sys.p, sys.key, s.sessions, a.uid, now);
        if c.None? then (NoChallenge, Failed(sys, t, a.uid, now)) else Judge(sys, t, a, c.value, now)
  }

  /** `check_authenticated`. */
  function Call(sys: System, s: State, uid: int, callerOk: bool, now: int): (bool, State) {
    if !sys.config.required then (true, s)
    else
      var (allowed, m) := Admit(sys, s.attempts, uid, now);
      var t := s.(attempts := m);
      if !allowed || (sys.config.verifyCallers && !callerOk) then (false, t)
      else
        var x := Sessions.Active(s.sessions, now);
        if x.None? || x.value.uid != uid then (false, t)
        else
          var (ok, y) := Sessions.Validate(s.sessions, x.value.instance, uid, now);
          (ok, t.(sessions := if ok then Sessions.Touch(y, x.value.instance, now) else y))
  }

  // ---- Runs -----------------------------------------------------------------------------------

  datatype Action =
    | Issued(uid: int, challenge: seq<byte>, nonce: seq<byte>)
    | Attempted(attempt: Attempt)
    | Called(uid: int, callerOk: bool)
    | StatusAsked(instance: string, uid: int)
    | Ended(instance: string)
    | AllEnded
    | CleanedUp
    | LimitLifted(uid: int)
    | KeysChanged(keys: map<string, Entry>)
    | PublicKeyChanged(publicKey: seq<byte>)

  datatype Event = Event(at: int, action: Action)

  function Next(sys: System, s: State, e: Event): State {
    match e.action
    case Issued(uid, challenge, nonce) =>
      if !sys.config.required then s
      else s.(sessions := Sessions.CreateChallenge(sys.p, sys.key, s.sessions, uid, challenge, nonce, e.at))
    case Attempted(a) => Authenticate(sys, s, a, e.at).1
    case Called(uid, callerOk) => Call(sys, s, uid, callerOk, e.at).1
    case StatusAsked(instance, uid) => s.(sessions := Sessions.CheckStatus(s.sessions, instance, uid, e.at).1)
    case Ended(instance) => s.(sessions := Sessions.Invalidate(s.sessions, instance))
    case AllEnded => s.(sessions := Sessions.EMPTY)
    case CleanedUp =>
      s.(sessions := Sessions.Cleanup(s.sessions, e.at),
         attempts := Limits.Cleanup(sys.config.limits, s.attempts, e.at))
    case LimitLifted(uid) => s.(attempts := s.attempts - {uid})
    case KeysChanged(keys) => s.(keys := keys)
    case PublicKeyChanged(publicKey) => s.(publicKey := publicKey)
  }

  /** The whitelist search, if the attempt gets that far, picks a key that accepts the signature when there
      is one, in any order. */
  ghost predicate FairPick(sys: System, s: State, a: Attempt, now: int) {
    var c := Sessions.PendingChallenge(sys.p, sys.key, s.sessions, a.uid, now);
    sys.config.required && Admit(sys, s.attempts, a.uid, now).0 && a.deviceOk && c.Some? ==>
      && (a.pick.Some? ==> KeyWhitelist.Accepts(sys.p, s.keys, a.pick.value, c.value, a.sig))
      && (a.pick.None? ==> forall id :: !KeyWhitelist.Accepts(sys.p, s.keys, id, c.value, a.sig))
  }

  ghost predicate Steps(sys: System, s: State, e: Event, t: State) {
    && t == Next(sys, s, e)
    && (e.action.Attempted? ==> FairPick(sys, s, e.action.attempt, e.at))
  }

  /** The states of a daemon from its start, one before each event and one at the end. Keys may be
      present from the start. */
  ghost predicate IsRun(sys: System, states: seq<State>, es: seq<Event>) {
    && |states| == |es| + 1
    && states[0].sessions == Sessions.EMPTY && states[0].attempts == map[]
    && (forall i :: 0 <= i < |es| ==> Steps(sys, states[i], es[i], states[i + 1]))
    && (forall i :: 0 <= i < |es| ==> es[i].at > 0)
    && (forall i, j :: 0 <= i <= j < |es| ==> es[i].at <= es[j].at)
  }

  function ResultOf(sys: System, s: State, e: Event): Result
    requires e.action.Attempted?
  {
    Authenticate(sys, s, e.action.attempt, e.at).0
  }

  ghost predicate Succeeds(sys: System, s: State, e: Event) { e.action.Attempted? && ResultOf(sys, s, e).Ok? }

  ghost predicate Passes(sys: System, s: State, e: Event) {
    e.action.Called? && Call(sys, s, e.action.uid, e.action.callerOk, e.at).0
  }

  // ---- What one attempt does ------------------------------------------------------------------

  predicate Verdict(r: Result) { r.Ok? || r.BadSignature? || r.Conflict? }

  /** The challenges left, given the verdict. */
  function PendingAfter(s: State, uid: int, r: Result): map<int, Sessions.Pending> {
    if Verdict(r) then s.sessions.pending - {uid} else s.sessions.pending
  }

  function SessionAfter(s: State, a: Attempt, r: Result, now: int): Option<Sessions.Session> {
    if r.Ok? then Sessions.Create(s.sessions, a.instance, a.uid, now).1.session else s.sessions.session
  }

  lemma FinishEffect(sys: System, s: State, a: Attempt, keyId: string, now: int)
    ensures var (r, t) := Finish(sys, s, a, keyId, now);
            && (r == Conflict || r == Ok(keyId)) && (r.Ok? <==> Sessions.Create(s.sessions, a.instance, a.uid, now).0)
            && t.sessions == Sessions.State(SessionAfter(s, a, r, now), PendingAfter(s, a.uid, r))
            && t.attempts == (if sys.config.limiting && r.Ok? then Limits.Succeed(s.attempts, a.uid) else s.attempts)
  {
    hide Limits.Succeed, Sessions.Expired;
  }

  lemma JudgeEffect(sys: System, s: State, a: Attempt, challenge: seq<byte>, now: int)
    ensures var (r, t) := Judge(sys, s, a, challenge, now);
            && !(r.RateLimited? || r.DeviceMismatch? || r.NoChallenge?)
            && (r.Ok? ==> Sessions.Create(s.sessions, a.instance, a.uid, now).0)
            && t.sessions == Sessions.State(SessionAfter(s, a, r, now), PendingAfter(s, a.uid, r))
            && t.attempts == LimitAfter(sys, s.attempts, a.uid, r, now)
  {
    hide Limits.Succeed, Limits.Fail, Finish, Sessions.Create, VerifyAny;
    FinishEffect(sys, MarkUsed(s, a), a, if a.pick.Some? then a.pick.value else "", now);
    CreateDepends(s.sessions, MarkUsed(s, a).sessions, a, now);
  }

  lemma CreateDepends(s: Sessions.State, t: Sessions.State, a: Attempt, now: int)
    requires s.session == t.session
    ensures Sessions.Create(s, a.instance, a.uid, now).0 == Sessions.Create(t, a.instance, a.uid, now).0
    ensures Sessions.Create(s, a.instance, a.uid, now).1.session == Sessions.Create(t, a.instance, a.uid, now).1.session
  {}

  /** The limiter's entries after a verdict, the check before it not counted. */
  function LimitAfter(sys: System, m: Limits.Attempts, uid: int, r: Result, now: int): Limits.Attempts {
    if !sys.config.limiting then m
    else if r.Ok? then Limits.Succeed(m, uid)
    else if r.NoChallenge? || r.NoKey? || r.BadSignature? then Limits.Fail(sys.config.limits, m, uid, now)
    else m
  }

  lemma AuthenticateEffect(sys: System, s: State, a: Attempt, now: int)
    requires sys.config.required
    ensures var (r, t) := Authenticate(sys, s, a, now);
            && (r.Ok? ==> Sessions.Create(s.sessions, a.instance, a.uid, now).0)
            && t.sessions == Sessions.State(SessionAfter(s, a, r, now), PendingAfter(s, a.uid, r))
            && (!r.RateLimited? <==> Admit(sys, s.attempts, a.uid, now).0)
            && t.attempts == LimitAfter(sys, Admit(sys, s.attempts, a.uid, now).1, a.uid, r, now)
  {
    hide Limits.Succeed, Limits.Fail, Judge, Sessions.Create, Sessions.PendingChallenge, Admit;
    var c := Sessions.PendingChallenge(sys.p, sys.key, s.sessions, a.uid, now);
    if c.Some? { JudgeEffect(sys, s.(attempts := Admit(sys, s.attempts, a.uid, now).1), a, c.value, now); }
  }

  // ---- A challenge is used at most once -------------------------------------------------------

  predicate Issues(e: Event, uid: int) {
    e.action.Issued? && e.action.uid == uid && e.action.challenge != [] && e.action.nonce != []
  }

  /** An attempt that reaches a verdict on the signature uses up the challenge. */
  ghost predicate Spends(sys: System, s: State, e: Event, uid: int) {
    && e.action.Attempted? && e.action.attempt.uid == uid
    && Verdict(ResultOf(sys, s, e))
  }

  ghost predicate LatestIssue(es: seq<Event>, j: nat, i: nat, uid: int)
    requires i <= |es|
  {
    j < i && Issues(es[j], uid) && forall k :: j < k < i ==> !Issues(es[k], uid)
  }

  function Stored(sys: System, e: Event): Sessions.Pending
    requires e.action.Issued?
  {
    Sessions.Pending(Sessions.Mask(sys.p, sys.key, e.action.challenge, e.action.nonce), e.action.nonce, e.at)
  }

  /** The pending challenge of `uid` before event `i` is the one issued last, at `j`, and neither spent nor dropped
      with all sessions. */
  ghost predicate Unspent(sys: System, states: seq<State>, es: seq<Event>, i: nat, uid: int, j: nat)
    requires |states| == |es| + 1 && i <= |es| && uid in states[i].sessions.pending
  {
    && LatestIssue(es, j, i, uid)
    && states[i].sessions.pending[uid] == Stored(sys, es[j])
    && forall k :: j < k < i ==> !Spends(sys, states[k], es[k], uid) && !es[k].action.AllEnded?
  }

  /** One step: a challenge still pending was pending before, unless just issued, and was not spent. */
  lemma PendingKept(sys: System, s: State, e: Event, uid: int)
    requires sys.config.required && !Issues(e, uid) && uid in Next(sys, s, e).sessions.pending
    ensures uid in s.sessions.pending && Next(sys, s, e).sessions.pending[uid] == s.sessions.pending[uid]
    ensures !Spends(sys, s, e, uid) && !e.action.AllEnded?
  {
    hide Authenticate, Limits.Cleanup, Admit, Sessions.Mask, LimitAfter, Sessions.Create;
    if e.action.Attempted? { AuthenticateEffect(sys, s, e.action.attempt, e.at); }
  }

  lemma {:induction false} PendingUnspent(
      sys: System, states: seq<State>, es: seq<Event>, i: nat, uid: int) returns (j: nat)
    requires IsRun(sys, states, es) && sys.config.required && i <= |es| && uid in states[i].sessions.pending
    ensures Unspent(sys, states, es, i, uid, j)
  {
    hide Next, Spends, FairPick, Stored;
    assert i > 0;
    assert Steps(sys, states[i - 1], es[i - 1], states[i]);
    if Issues(es[i - 1], uid) {
      j := i - 1;
      IssueStores(sys, states[i - 1], es[i - 1]);
    } else {
      PendingKept(sys, states[i - 1], es[i - 1], uid);
      j := PendingUnspent(sys, states, es, i - 1, uid);
    }
  }

  lemma IssueStores(sys: System, s: State, e: Event)
    requires sys.config.required && e.action.Issued? && Issues(e, e.action.uid)
    ensures var m := Next(sys, s, e).sessions.pending; e.action.uid in m && m[e.action.uid] == Stored(sys, e)
  {}

  /** Reaching a verdict needs a pending challenge that has not expired. */
  lemma SpendNeedsPending(sys: System, s: State, e: Event, uid: int)
    requires sys.config.required && Spends(sys, s, e, uid)
    ensures uid in s.sessions.pending && !Sessions.ChallengeExpired(s.sessions.pending[uid], e.at)
  {
    hide Limits.Check, VerifyAny, Judge;
  }

  ghost predicate Signed(sys: System, s: State, keyId: string, challenge: seq<byte>, sig: seq<byte>) {
    if keyId == "" then s.publicKey != [] && VerifyAny(sys.p, s.publicKey, challenge, sig)
    else KeyWhitelist.Accepts(sys.p, s.keys, keyId, challenge, sig)
  }

  /** An OK needs a signature over the pending challenge. */
  lemma OkNeedsSignature(sys: System, s: State, e: Event)
    requires sys.config.required && Succeeds(sys, s, e) && FairPick(sys, s, e.action.attempt, e.at)
    ensures var c := Sessions.PendingChallenge(sys.p, sys.key, s.sessions, e.action.attempt.uid, e.at);
            c.Some? && Signed(sys, s, ResultOf(sys, s, e).keyId, c.value, e.action.attempt.sig)
  {
    hide Limits.Check, Limits.Succeed, VerifyAny, Sessions.Mask, KeyWhitelist.Accepts, Sessions.Create;
  }

  /** In every run: an OK means that the signature verifies over exactly the bytes of the challenge
      issued last to that uid, at most 30 seconds before, which no earlier attempt had used up. */
  lemma OkMeansFreshSignature(sys: System, states: seq<State>, es: seq<Event>, i: nat) returns (j: nat)
    requires IsRun(sys, states, es) && sys.config.required && i < |es| && Succeeds(sys, states[i], es[i])
    ensures LatestIssue(es, j, i, es[i].action.attempt.uid)
    ensures es[i].at - es[j].at <= 30000
    ensures var keyId := ResultOf(sys, states[i], es[i]).keyId;
            Signed(sys, states[i], keyId, es[j].action.challenge, es[i].action.attempt.sig)
    ensures forall k :: j < k < i ==> !Spends(sys, states[k], es[k], es[i].action.attempt.uid)
  {
    hide Next, FairPick, Authenticate, Signed, Sessions.Mask;
    var uid := es[i].action.attempt.uid;
    SpendNeedsPending(sys, states[i], es[i], uid);
    j := PendingUnspent(sys, states, es, i, uid);
    assert Steps(sys, states[i], es[i], states[i + 1]);
    OkNeedsSignature(sys, states[i], es[i]);
    Sessions.MaskInvolutive(sys.p, sys.key, es[j].action.challenge, es[j].action.nonce);
  }

  /** No issued challenge is used up twice, by an OK, a bad signature or a session conflict: between two
      such attempts of one uid there is a new challenge. */
  lemma ChallengeSpentOnce(sys: System, states: seq<State>, es: seq<Event>, i: nat, k: nat, uid: int) returns (j: nat)
    requires IsRun(sys, states, es) && sys.config.required && i < k < |es|
    requires Spends(sys, states[i], es[i], uid) && Spends(sys, states[k], es[k], uid)
    ensures i < j < k && Issues(es[j], uid)
  {
    hide Next, FairPick, Spends, Stored;
    SpendNeedsPending(sys, states[k], es[k], uid);
    j := PendingUnspent(sys, states, es, k, uid);
    if j <= i { AttemptIsNotIssue(sys, states[i], es[i], uid); }
  }

  lemma AttemptIsNotIssue(sys: System, s: State, e: Event, uid: int)
    requires Spends(sys, s, e, uid)
    ensures !Issues(e, uid)
  {}

  // ---- Who may call ---------------------------------------------------------------------------

  ghost predicate SameSession(s: State, t: State) {
    && s.sessions.session.Some? && t.sessions.session.Some?
    && var x, y := s.sessions.session.value, t.sessions.session.value;
      x.instance == y.instance && x.uid == y.uid && x.createdAt == y.createdAt
  }

  /** No session stands in the way: there is none, or one of another instance that has expired. */
  ghost predicate Vacant(s: State, instance: string, now: int) {
    s.sessions.session.None?
    || (s.sessions.session.value.instance != instance && Sessions.Expired(s.sessions.session.value, now))
  }

  /** Event `e` is a successful authentication that opens the session of `t`. */
  ghost predicate Opens(sys: System, s: State, e: Event, t: State) {
    && Succeeds(sys, s, e) && Vacant(s, e.action.attempt.instance, e.at)
    && t.sessions.session.Some?
    && var a, x := e.action.attempt, t.sessions.session.value;
      x.uid == a.uid && x.instance == a.instance && x.createdAt == e.at
  }

  /** One step: the session afterwards is the one before, with the same owner, or was opened by this very
      step, a successful authentication of its owner. */
  lemma SessionKept(sys: System, s: State, e: Event)
    requires sys.config.required && Next(sys, s, e).sessions.session.Some?
    ensures SameSession(s, Next(sys, s, e)) || Opens(sys, s, e, Next(sys, s, e))
  {
    hide Authenticate, Limits.Cleanup, Admit, Sessions.Mask, LimitAfter, Sessions.Live;
    if e.action.Attempted? { AuthenticateEffect(sys, s, e.action.attempt, e.at); }
  }

  /** The session before event `i` was opened at `k` and has been the same since. */
  ghost predicate OpenSince(sys: System, states: seq<State>, es: seq<Event>, k: nat, i: nat)
    requires |states| == |es| + 1 && i <= |es|
  {
    k < i && Opens(sys, states[k], es[k], states[i]) && forall m :: k < m <= i ==> SameSession(states[m], states[i])
  }

  lemma {:induction false} SessionOpened(sys: System, states: seq<State>, es: seq<Event>, i: nat) returns (k: nat)
    requires IsRun(sys, states, es) && sys.config.required && i <= |es| && states[i].sessions.session.Some?
    ensures OpenSince(sys, states, es, k, i)
  {
    hide Next, FairPick, Succeeds, Vacant;
    assert i > 0;
    assert Steps(sys, states[i - 1], es[i - 1], states[i]);
    SessionKept(sys, states[i - 1], es[i - 1]);
    if Opens(sys, states[i - 1], es[i - 1], states[i]) {
      k := i - 1;
    } else {
      k := SessionOpened(sys, states, es, i - 1);
    }
  }

  lemma PassNeedsOwner(sys: System, s: State, e: Event)
    requires sys.config.required && Passes(sys, s, e)
    ensures s.sessions.session.Some? && s.sessions.session.value.uid == e.action.uid
    ensures !Sessions.Expired(s.sessions.session.value, e.at)
  {
    hide Limits.Check;
  }

  /** In every run: a call that passes the guard comes from a uid that itself authenticated earlier; that
      attempt opened the session, which is still live and has not changed hands since. */
  lemma CallerAuthenticated(sys: System, states: seq<State>, es: seq<Event>, i: nat) returns (k: nat)
    requires IsRun(sys, states, es) && sys.config.required && i < |es| && Passes(sys, states[i], es[i])
    ensures OpenSince(sys, states, es, k, i) && es[k].action.attempt.uid == es[i].action.uid
    ensures es[i].at - states[i].sessions.session.value.lastActivity <= 300000
  {
    hide Next, FairPick, Passes;
    PassNeedsOwner(sys, states[i], es[i]);
    k := SessionOpened(sys, states, es, i);
  }

  // ---- The limiter in place -------------------------------------------------------------------

  /** What a step asks of the rate limiter. Every failure it records follows an allowed check. */
  function LimiterEvents(sys: System, s: State, e: Event): seq<Limits.Event> {
    if e.action.CleanedUp? then [Limits.Event(e.at, Limits.CleanedUp)]
    else if e.action.LimitLifted? then [Limits.Event(e.at, Limits.UidReset(e.action.uid))]
    else if !sys.config.required || !sys.config.limiting then []
    else if e.action.Called? then [Limits.Event(e.at, Limits.Checked(e.action.uid))]
    else if e.action.Attempted? then
      var uid, r := e.action.attempt.uid, ResultOf(sys, s, e);
      if r.NoChallenge? || r.NoKey? || r.BadSignature? then [Limits.Event(e.at, Limits.Attempted(uid))]
      else if r.Ok? then [Limits.Event(e.at, Limits.Checked(uid)), Limits.Event(e.at, Limits.Succeeded(uid))]
      else [Limits.Event(e.at, Limits.Checked(uid))]
    else []
  }

  lemma LimiterRefines(sys: System, s: State, e: Event)
    ensures Next(sys, s, e).attempts == Limits.Run(sys.config.limits, s.attempts, LimiterEvents(sys, s, e))
  {
    hide Limits.Check, Limits.Fail, Limits.Succeed, Limits.Cleanup, Authenticate, Call, Sessions.Mask, Limits.Run;
    var c, m, ls := sys.config.limits, s.attempts, LimiterEvents(sys, s, e);
    RunShort(c, m, ls);
    if e.action.Attempted? && sys.config.required { AuthenticateEffect(sys, s, e.action.attempt, e.at); }
    if e.action.Attempted? && !sys.config.required { OffAttempts(sys, s, e.action.attempt, e.at); }
    if e.action.Called? { CallAttempts(sys, s, e.action.uid, e.action.callerOk, e.at); }
  }

  lemma OffAttempts(sys: System, s: State, a: Attempt, now: int)
    requires !sys.config.required
    ensures Authenticate(sys, s, a, now).1.attempts == s.attempts
  {}

  lemma CallAttempts(sys: System, s: State, uid: int, callerOk: bool, now: int)
    ensures Call(sys, s, uid, callerOk, now).1.attempts
         == if sys.config.required then Admit(sys, s.attempts, uid, now).1 else s.attempts
  {
    hide Limits.Check, Sessions.Validate, Sessions.Touch;
  }

  lemma RunShort(c: Limits.Config, m: Limits.Attempts, ls: seq<Limits.Event>)
    ensures ls == [] ==> Limits.Run(c, m, ls) == m
    ensures |ls| == 1 ==> Limits.Run(c, m, ls) == Limits.Step(c, m, ls[0])
    ensures |ls| == 2 ==> Limits.Run(c, m, ls) == Limits.Step(c, Limits.Step(c, m, ls[0]), ls[1])
  {
    hide Limits.Step;
    if |ls| == 2 {
      var m1 := Limits.Step(c, m, ls[0]);
      assert Limits.Run(c, m1, ls[1..]) == Limits.Step(c, m1, ls[1..][0]);
    }
  }

  /** In every run, no uid ever has more failures on record than the maximum. */
  lemma {:induction false} FailuresWithinLimit(sys: System, states: seq<State>, es: seq<Event>, i: nat)
    requires IsRun(sys, states, es) && Limits.Sound(sys.config.limits) && i <= |es|
    ensures Limits.StateSound(sys.config.limits, states[i].attempts, if i == 0 then 1 else es[i - 1].at)
  {
    hide Next, FairPick, LimiterEvents, Limits.StateSound, Limits.Run;
    if i == 0 {
      EmptySound(sys.config.limits);
    } else {
      var s, e := states[i - 1], es[i - 1];
      var now := if i == 1 then 1 else es[i - 2].at;
      FailuresWithinLimit(sys, states, es, i - 1);
      assert Steps(sys, s, e, states[i]);
      LimiterRefines(sys, s, e);
      EventsTimed(sys, s, e, now);
      Limits.RunSound(sys.config.limits, s.attempts, now, LimiterEvents(sys, s, e));
      StateSoundLater(sys.config.limits, states[i].attempts, Limits.EndTime(now, LimiterEvents(sys, s, e)), e.at);
    }
  }

  lemma EmptySound(c: Limits.Config)
    ensures Limits.StateSound(c, map[], 1)
  {}

  lemma StateSoundLater(c: Limits.Config, m: Limits.Attempts, now: int, later: int)
    requires Limits.StateSound(c, m, now) && now <= later
    ensures Limits.StateSound(c, m, later)
  {}

  lemma EventsTimed(sys: System, s: State, e: Event, now: int)
    requires now <= e.at
    ensures Limits.Timed(now, LimiterEvents(sys, s, e)) && Limits.EndTime(now, LimiterEvents(sys, s, e)) <= e.at
  {
    hide Authenticate;
    var ls := LimiterEvents(sys, s, e);
    assert |ls| == 2 ==> Limits.Timed(e.at, ls[1..][1..]);
    assert |ls| == 2 ==> Limits.Timed(e.at, ls[1..]);
  }

  /** A uid out of attempts is refused, both at authentication and at the guard, and stays so. */
  lemma StepLockedOut(sys: System, s: State, e: Event, uid: int, last: int)
    requires sys.config.required && sys.config.limiting && sys.config.limits.maxFailures >= 1
    requires Limits.Exhausted(sys.config.limits, s.attempts, uid, last)
    requires e.action != LimitLifted(uid) && e.at - last <= sys.config.limits.resetWindow
    ensures Limits.Exhausted(sys.config.limits, Next(sys, s, e).attempts, uid, last)
    ensures e.action.Attempted? && e.action.attempt.uid == uid ==> ResultOf(sys, s, e) == RateLimited
    ensures Passes(sys, s, e) ==> e.action.uid != uid
  {
    hide Next, Limits.Exhausted, Limits.Check, Limits.Run, Limits.Step, Authenticate, LimitAfter, Sessions.Validate;
    var c, m, ls := sys.config.limits, s.attempts, LimiterEvents(sys, s, e);
    Limits.StepExhausted(c, m, uid, last, Limits.Event(e.at, Limits.Checked(uid)));
    if e.action.Attempted? { AuthenticateEffect(sys, s, e.action.attempt, e.at); }
    LimiterRefines(sys, s, e);
    ExhaustedRun(c, m, uid, last, ls);
  }

  lemma {:induction false} ExhaustedRun(
      c: Limits.Config, m: Limits.Attempts, uid: int, last: int, es: seq<Limits.Event>)
    requires c.maxFailures >= 1 && Limits.Exhausted(c, m, uid, last)
    requires forall e :: e in es ==> !Limits.Frees(e.action, uid) && e.at - last <= c.resetWindow
    ensures Limits.Exhausted(c, Limits.Run(c, m, es), uid, last)
    decreases |es|
  {
    hide Limits.Exhausted, Limits.Step, Limits.Frees, Limits.Check;
    if es != [] {
      assert es[0] in es;
      Limits.StepExhausted(c, m, uid, last, es[0]);
      assert forall e :: e in es[1..] ==> e in es;
      ExhaustedRun(c, Limits.Step(c, m, es[0]), uid, last, es[1..]);
    }
  }

  /** In every run: once a uid has used up its failures, every attempt it makes is refused as rate limited
      and every call of its fails, until the limit is lifted or the reset window has passed. */
  lemma {:induction false} LockedOut(
      sys: System, states: seq<State>, es: seq<Event>, i: nat, k: nat, uid: int, last: int)
    requires IsRun(sys, states, es) && sys.config.required && sys.config.limiting && sys.config.limits.maxFailures >= 1
    requires i <= k < |es| && Limits.Exhausted(sys.config.limits, states[i].attempts, uid, last)
    requires forall m :: i <= m <= k ==> es[m].action != LimitLifted(uid)
    requires es[k].at - last <= sys.config.limits.resetWindow
    ensures es[k].action.Attempted? && es[k].action.attempt.uid == uid ==>
              ResultOf(sys, states[k], es[k]) == RateLimited
    ensures Passes(sys, states[k], es[k]) ==> es[k].action.uid != uid
    decreases k - i
  {
    hide Next, FairPick, Limits.Exhausted, Authenticate, Passes;
    StepLockedOut(sys, states[i], es[i], uid, last);
    if i < k {
      assert Steps(sys, states[i], es[i], states[i + 1]);
      LockedOut(sys, states, es, i + 1, k, uid, last);
    }
  }

  // ---- The code -------------------------------------------------------------------------------

  class AuthManager {
    const sys: System
    const sessions: Sessions.SessionManager
    const limiter: Limits.Limiter
    var keys: map<string, Entry>
    var publicKey: seq<byte>

    ghost predicate Valid() {
      sessions.primitives == sys.p && sessions.key == sys.key && limiter.config == sys.config.limits
    }

    ghost function View(): State
      reads this, sessions, limiter
    {
      State(sessions.View(), limiter.attempts, keys, publicKey)
    }

    constructor (sys: System, keys: map<string, Entry>, publicKey: seq<byte>)
      ensures Valid() && this.sys == sys && fresh(sessions) && fresh(limiter)
      ensures View() == State(Sessions.EMPTY, map[], keys, publicKey)
    {
      this.sys, this.keys, this.publicKey := sys, keys, publicKey;
      sessions := new Sessions.SessionManager(sys.p, sys.key);
      limiter := new Limits.Limiter(sys.config.limits);
    }

    method CheckRate(uid: int, now: int) returns (allowed: bool)
      requires Valid()
      modifies limiter
      ensures (allowed, limiter.attempts) == Admit(sys, old(limiter.attempts), uid, now)
    {
      hide Limits.Check;
      if !sys.config.limiting { return true; }
      var v := limiter.CheckAllowed(uid, now);
      allowed := v.Allowed?;
    }

    method RecordFailure(uid: int, now: int)
      requires Valid()
      modifies limiter
      ensures View() == Failed(sys, old(View()), uid, now)
    {
      hide Limits.Fail;
      if sys.config.limiting { limiter.RecordFailure(uid, now); }
    }

    method FinishAttempt(a: Attempt, keyId: string, now: int) returns (r: Result)
      requires Valid()
      modifies sessions, limiter
      ensures (r, View()) == Finish(sys, old(View()), a, keyId, now)
    {
      hide Limits.Succeed, Sessions.Create;
      sessions.ConsumeChallenge(a.uid);
      var ok := sessions.CreateSession(a.instance, a.uid, now);
      if !ok {
        RefusedCreate(Sessions.ClearChallenge(old(sessions.View()), a.uid), a, now);
        return Conflict;
      }
      if sys.config.limiting { limiter.RecordSuccess(a.uid); }
      r := Ok(keyId);
    }

    method JudgeAttempt(a: Attempt, challenge: seq<byte>, now: int) returns (r: Result)
      requires Valid()
      modifies this, sessions, limiter
      ensures (r, View()) == Judge(sys, old(View()), a, challenge, now)
    {
      hide Finish, Failed, VerifyAny;
      if a.pick.Some? && a.pick.value in keys {
        keys := keys[a.pick.value := keys[a.pick.value].(lastUsedAt := a.clock)];
      }
      var keyId := if a.pick.Some? then a.pick.value else "";
      if keyId == "" {
        if publicKey == [] {
          RecordFailure(a.uid, now);
          return NoKey;
        }
        if sys.config.pinning && !a.pinOk { return Tampered; }
        if !VerifyAny(sys.p, publicKey, challenge, a.sig) {
          sessions.ConsumeChallenge(a.uid);
          RecordFailure(a.uid, now);
          return BadSignature;
        }
      }
      r := FinishAttempt(a, keyId, now);
    }

    /** `authenticate`: the attempt `a` that it makes carries the whitelisted key it found. */
    method AuthenticateClient(
        uid: int, sig: seq<byte>, instance: string, deviceOk: bool, pinOk: bool, clock: nat, now: int)
      returns (r: Result, a: Attempt)
      requires Valid()
      modifies this, sessions, limiter
      ensures a == Attempt(uid, sig, instance, a.pick, deviceOk, pinOk, clock)
      ensures (r, View()) == Authenticate(sys, old(View()), a, now)
      ensures FairPick(sys, old(View()), a, now)
    {
      hide Judge, Admit, Failed, Sessions.Create, KeyWhitelist.Accepts, Sessions.PendingChallenge;
      a := Attempt(uid, sig, instance, None, deviceOk, pinOk, clock);
      if !sys.config.required {
        var ok := sessions.CreateSession(instance, uid, now);
        return if ok then Ok("") else Conflict, a;
      }
      var allowed := CheckRate(uid, now);
      if !allowed { return RateLimited, a; }
      if !deviceOk { return DeviceMismatch, a; }
      var c := sessions.GetPendingChallenge(uid, now);
      if c.None? {
        RecordFailure(uid, now);
        return NoChallenge, a;
      }
      var pick := KeyWhitelist.VerifySignature(sys.p, keys, c.value, sig);
      a := a.(pick := pick);
      r := JudgeAttempt(a, c.value, now);
    }

    /** `check_authenticated`. */
    method CheckAuthenticated(uid: int, callerOk: bool, now: int) returns (ok: bool)
      requires Valid()
      modifies sessions, limiter
      ensures (ok, View()) == Call(sys, old(View()), uid, callerOk, now)
    {
      hide Admit;
      if !sys.config.required { return true; }
      var allowed := CheckRate(uid, now);
      if !allowed { return false; }
      if sys.config.verifyCallers && !callerOk { return false; }
      var x := sessions.GetActiveSession(now);
      if x.None? { return false; }
      if x.value.uid != uid { return false; }
      ok := sessions.ValidateSession(x.value.instance, uid, now);
      if ok { sessions.UpdateActivity(x.value.instance, now); }
    }
  }

  lemma RefusedCreate(s: Sessions.State, a: Attempt, now: int)
    requires !Sessions.Create(s, a.instance, a.uid, now).0
    ensures Sessions.Create(s, a.instance, a.uid, now).1 == s
  {}
}
