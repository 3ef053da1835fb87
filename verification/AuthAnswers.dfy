/** What an authentication attempt and a guarded call are answered, both ways, from the events of a run
    (daemon/core/auth/auth_manager.cpp, and the guard of daemon/ipc/futon_daemon_impl.cpp). */
module AuthAnswers {
  import opened Bytes
  import opened Crypto
  import opened Auth
  import Sessions
  import Limits = RateLimiter
  import KeyWhitelist

  // ---- The challenge an attempt answers -------------------------------------------------------

  /** At `i`, the challenge issued to `uid` at `j` can be answered: it is the latest, at most 30 seconds old, and no
      attempt has used it up since, nor were all sessions ended. */
  ghost predicate Awaits(sys: System, states: seq<State>, es: seq<Event>, j: nat, i: nat, uid: int)
    requires |states| == |es| + 1 && i < |es|
  {
    && LatestIssue(es, j, i, uid) && es[i].at - es[j].at <= 30000
    && forall k :: j < k < i ==> !Spends(sys, states[k], es[k], uid) && !es[k].action.AllEnded?
  }

  lemma PendingStays(sys: System, s: State, e: Event, uid: int)
    requires sys.config.required && uid in s.sessions.pending && !Issues(e, uid) && !Spends(sys, s, e, uid)
    requires !e.action.AllEnded? && e.at - s.sessions.pending[uid].createdAt <= 30000
    ensures uid in Next(sys, s, e).sessions.pending
    ensures Next(sys, s, e).sessions.pending[uid] == s.sessions.pending[uid]
  {
    hide Authenticate, Limits.Cleanup, Admit, Sessions.Mask, LimitAfter, Sessions.Create;
    if e.action.Attempted? { AuthenticateEffect(sys, s, e.action.attempt, e.at); }
  }

  lemma {:induction false} AwaitedIsPending(
      sys: System, states: seq<State>, es: seq<Event>, j: nat, m: nat, i: nat, uid: int)
    requires IsRun(sys, states, es) && sys.config.required && j < m <= i < |es| && Awaits(sys, states, es, j, i, uid)
    ensures uid in states[m].sessions.pending && states[m].sessions.pending[uid] == Stored(sys, es[j])
    decreases m
  {
    hide Next, FairPick, Spends, Sessions.Mask;
    assert Steps(sys, states[m - 1], es[m - 1], states[m]);
    if m == j + 1 {
      IssueStores(sys, states[j], es[j]);
    } else {
      AwaitedIsPending(sys, states, es, j, m - 1, i, uid);
      assert es[m - 1].at <= es[i].at;
      PendingStays(sys, states[m - 1], es[m - 1], uid);
    }
  }

  /** The challenge that an attempt is judged by is the awaited one. */
  lemma AwaitedChallenge(sys: System, states: seq<State>, es: seq<Event>, i: nat, uid: int)
    requires IsRun(sys, states, es) && sys.config.required && i < |es|
    ensures var c := Sessions.PendingChallenge(sys.p, sys.key, states[i].sessions, uid, es[i].at);
            && (c.None? <==> forall j :: 0 <= j < i ==> !Awaits(sys, states, es, j, i, uid))
            && forall j :: 0 <= j < i && Awaits(sys, states, es, j, i, uid) ==> c == Some(es[j].action.challenge)
  {
    hide Next, FairPick, Spends, Sessions.Mask;
    var s := states[i].sessions;
    forall j | 0 <= j < i && Awaits(sys, states, es, j, i, uid)
      ensures Sessions.PendingChallenge(sys.p, sys.key, s, uid, es[i].at) == Some(es[j].action.challenge)
    {
      AwaitedIsPending(sys, states, es, j, i, i, uid);
      IssuedBytes(es, j, i, uid);
      Sessions.MaskInvolutive(sys.p, sys.key, es[j].action.challenge, es[j].action.nonce);
    }
    if Sessions.PendingChallenge(sys.p, sys.key, s, uid, es[i].at).Some? {
      var j := PendingUnspent(sys, states, es, i, uid);
      IssuedBytes(es, j, i, uid);
      assert Awaits(sys, states, es, j, i, uid);
    }
  }

  lemma IssuedBytes(es: seq<Event>, j: nat, i: nat, uid: int)
    requires i <= |es| && LatestIssue(es, j, i, uid)
    ensures j < i && es[j].action.Issued?
  {}

  // ---- The answer to an attempt ---------------------------------------------------------------

  /** A whitelisted key accepts the signature over the bytes. */
  ghost predicate KeyAccepts(sys: System, s: State, a: Attempt, bytes: seq<byte>) {
    exists id :: KeyWhitelist.Accepts(sys.p, s.keys, id, bytes, a.sig)
  }

  /** The pinned key was found changed. */
  predicate PinBroken(sys: System, a: Attempt) { sys.config.pinning && !a.pinOk }

  /** The legacy key verifies the signature: one of 32 bytes as Ed25519, any other as ECDSA. */
  predicate LegacyVerifies(p: Primitives, key: seq<byte>, bytes: seq<byte>, sig: seq<byte>) {
    && (|key| == 32 ==> p.ed25519(key, bytes, sig))
    && (|key| != 32 ==> p.ecdsa(key, bytes, sig))
  }

  /** There is no session, one of the same instance, or one idle for more than five minutes. */
  predicate Free(s: State, instance: string, now: int) {
    var x := s.sessions.session;
    x.None? || x.value.instance == instance || now - x.value.lastActivity > 300000
  }

  /** What a signature over the awaited bytes is answered. */
  ghost predicate Judged(sys: System, s: State, a: Attempt, bytes: seq<byte>, now: int, r: Result) {
    var key := KeyAccepts(sys, s, a, bytes);
    var legacy := s.publicKey != [] && !PinBroken(sys, a) && LegacyVerifies(sys.p, s.publicKey, bytes, a.sig);
    && (r.Ok? <==> (key || legacy) && Free(s, a.instance, now))
    && (r.Conflict? <==> (key || legacy) && !Free(s, a.instance, now))
    && (r.NoKey? <==> !key && s.publicKey == [])
    && (r.Tampered? <==> !key && s.publicKey != [] && PinBroken(sys, a))
    && (r.BadSignature? <==> !key && s.publicKey != [] && !PinBroken(sys, a)
                             && !LegacyVerifies(sys.p, s.publicKey, bytes, a.sig))
    && (r.Ok? ==> if key then KeyWhitelist.Accepts(sys.p, s.keys, r.keyId, bytes, a.sig) else r.keyId == "")
  }

  lemma JudgeAnswers(sys: System, s: State, a: Attempt, bytes: seq<byte>, now: int)
    requires "" !in s.keys
    requires a.pick.Some? ==> KeyWhitelist.Accepts(sys.p, s.keys, a.pick.value, bytes, a.sig)
    requires a.pick.None? ==> forall id :: !KeyWhitelist.Accepts(sys.p, s.keys, id, bytes, a.sig)
    ensures Judged(sys, s, a, bytes, now, Judge(sys, s, a, bytes, now).0)
  {
    hide KeyWhitelist.VerifyWith, Limits.Fail, Limits.Succeed;
    if a.pick.Some? { assert a.pick.value != ""; }
  }

  lemma JudgedDepends(sys: System, s: State, t: State, a: Attempt, bytes: seq<byte>, now: int, r: Result)
    requires Judged(sys, t, a, bytes, now, r)
    requires s.keys == t.keys && s.publicKey == t.publicKey && s.sessions.session == t.sessions.session
    ensures Judged(sys, s, a, bytes, now, r)
  {
    hide LegacyVerifies, KeyWhitelist.Accepts;
  }

  /** The answer to an attempt in every run: refused while limited, or for a wrong device, or without an awaited
      challenge, and in no other case; and otherwise judged by the signature over just the bytes of that challenge. */
  lemma AttemptAnswer(sys: System, states: seq<State>, es: seq<Event>, i: nat)
    requires IsRun(sys, states, es) && sys.config.required && i < |es| && es[i].action.Attempted?
    requires "" !in states[i].keys
    ensures var s, a, r := states[i], es[i].action.attempt, ResultOf(sys, states[i], es[i]);
            var admitted := Admit(sys, s.attempts, a.uid, es[i].at).0;
            && (r.RateLimited? <==> !admitted)
            && (r.DeviceMismatch? <==> admitted && !a.deviceOk)
            && (r.NoChallenge? <==> admitted && a.deviceOk
                                    && forall j :: 0 <= j < i ==> !Awaits(sys, states, es, j, i, a.uid))
            && forall j :: 0 <= j < i && admitted && a.deviceOk && Awaits(sys, states, es, j, i, a.uid) ==>
                Judged(sys, s, a, es[j].action.challenge, es[i].at, r)
  {
    hide Admit, Judge, Judged, Awaits, Sessions.PendingChallenge, KeyWhitelist.Accepts, Next;
    var s, a, now := states[i], es[i].action.attempt, es[i].at;
    AwaitedChallenge(sys, states, es, i, a.uid);
    assert Steps(sys, s, es[i], states[i + 1]);
    var c := Sessions.PendingChallenge(sys.p, sys.key, s.sessions, a.uid, now);
    var (admitted, m) := Admit(sys, s.attempts, a.uid, now);
    if admitted && a.deviceOk && c.Some? {
      var t := s.(attempts := m);
      JudgeAnswers(sys, t, a, c.value, now);
      JudgeEffect(sys, t, a, c.value, now);
      JudgedDepends(sys, s, t, a, c.value, now, Judge(sys, t, a, c.value, now).0);
    }
  }

  /** A good signature is let in: the limiter admits the uid, the device is its own, the signature over the awaited
      challenge is one that a whitelisted key accepts or the legacy key verifies, and no other instance has a live
      session. The attempt ends in an OK, and the uid owns the session if this opened it. */
  lemma GoodSignatureOk(sys: System, states: seq<State>, es: seq<Event>, j: nat, i: nat)
    requires IsRun(sys, states, es) && sys.config.required && j < i < |es| && es[i].action.Attempted?
    requires var s, a := states[i], es[i].action.attempt;
             && "" !in s.keys && Admit(sys, s.attempts, a.uid, es[i].at).0 && a.deviceOk
             && Awaits(sys, states, es, j, i, a.uid) && Free(s, a.instance, es[i].at)
    requires var s, a, bytes := states[i], es[i].action.attempt, es[j].action.challenge;
             || KeyAccepts(sys, s, a, bytes)
             || (s.publicKey != [] && !PinBroken(sys, a) && LegacyVerifies(sys.p, s.publicKey, bytes, a.sig))
    ensures Succeeds(sys, states[i], es[i])
    ensures var a, x := es[i].action.attempt, states[i + 1].sessions.session;
            && x.Some? && x.value.instance == a.instance && x.value.lastActivity == es[i].at
            && (Vacant(states[i], a.instance, es[i].at) ==> x.value.uid == a.uid && x.value.createdAt == es[i].at)
  {
    hide Authenticate, Next, Awaits, Admit, KeyAccepts, LegacyVerifies, FairPick;
    AttemptAnswer(sys, states, es, i);
    assert Steps(sys, states[i], es[i], states[i + 1]);
    SessionFate(sys, states[i], es[i]);
  }

  // ---- Who is admitted ------------------------------------------------------------------------

  /** All that the steps before `i` have asked of the rate limiter. */
  function LimiterLog(sys: System, states: seq<State>, es: seq<Event>, i: nat): seq<Limits.Event>
    requires |states| == |es| + 1 && i <= |es|
  {
    if i == 0 then [] else LimiterLog(sys, states, es, i - 1) + LimiterEvents(sys, states[i - 1], es[i - 1])
  }

  lemma {:induction false} LogRuns(sys: System, states: seq<State>, es: seq<Event>, i: nat)
    requires IsRun(sys, states, es) && i <= |es|
    ensures var log := LimiterLog(sys, states, es, i);
            && states[i].attempts == Limits.Run(sys.config.limits, map[], log)
            && Limits.Timed(1, log) && Limits.EndTime(1, log) <= if i == 0 then 1 else es[i - 1].at
  {
    hide Next, FairPick, LimiterEvents, Limits.Step;
    if i > 0 {
      var s, e := states[i - 1], es[i - 1];
      LogRuns(sys, states, es, i - 1);
      assert Steps(sys, s, e, states[i]);
      LimiterRefines(sys, s, e);
      var log, more := LimiterLog(sys, states, es, i - 1), LimiterEvents(sys, s, e);
      EventsTimed(sys, s, e, Limits.EndTime(1, log));
      hide Limits.Run, Limits.Timed;
      Limits.RunAppend(sys.config.limits, map[], log, more);
      Limits.TimedAppend(1, log, more);
    }
  }

  /** In every run, a uid is admitted exactly while fewer failures of its count than the maximum, if limiting is on. */
  lemma AdmittedIff(sys: System, states: seq<State>, es: seq<Event>, i: nat, uid: int)
    requires IsRun(sys, states, es) && i < |es| && sys.config.limits.maxFailures >= 1
    ensures Admit(sys, states[i].attempts, uid, es[i].at).0
       <==> (sys.config.limiting ==>
               Limits.Count(sys.config.limits, LimiterLog(sys, states, es, i), uid, es[i].at)
               < sys.config.limits.maxFailures)
  {
    hide Next, FairPick, LimiterLog, Limits.Run, Limits.Check, Limits.Count, Limits.LockedUntil, Limits.Timed;
    LogRuns(sys, states, es, i);
    Limits.AnswerIsDue(sys.config.limits, LimiterLog(sys, states, es, i), uid, es[i].at);
  }

  // ---- The session ----------------------------------------------------------------------------

  /** What becomes of the session in a step: an OK opens it or renews it, a call that passes renews it, being asked
      about or a cleanup ends it if it has been idle for more than five minutes, it ends when asked to, and nothing else
      changes it. */
  lemma SessionFate(sys: System, s: State, e: Event)
    requires sys.config.required
    ensures var x, y := s.sessions.session, Next(sys, s, e).sessions.session;
            var idle := x.Some? && e.at - x.value.lastActivity > 300000;
            if Succeeds(sys, s, e) then
              var a := e.action.attempt;
              if x.Some? && x.value.instance == a.instance then y == Some(x.value.(lastActivity := e.at))
              else (x.None? || idle) && y == Some(Sessions.Session(a.instance, e.at, e.at, a.uid))
            else if Passes(sys, s, e) then x.Some? && !idle && y == Some(x.value.(lastActivity := e.at))
            else if e.action.StatusAsked? || e.action.CleanedUp? then y == if idle then None else x
            else if e.action.Ended? then y == if x.Some? && x.value.instance == e.action.instance then None else x
            else if e.action.AllEnded? then y == None
            else y == x
  {
    hide Authenticate, Limits.Cleanup, Admit, Sessions.Mask, LimitAfter, Sessions.Live;
    if e.action.Attempted? { AuthenticateEffect(sys, s, e.action.attempt, e.at); }
  }

  /** A call passes exactly when the limiter admits the uid, its caller is trusted where that is asked for, and the uid
      owns a session that has been idle for no more than five minutes. */
  lemma CallPassesIff(sys: System, s: State, e: Event)
    requires sys.config.required && e.action.Called?
    ensures var x := s.sessions.session;
            Passes(sys, s, e)
            <==> && Admit(sys, s.attempts, e.action.uid, e.at).0 && (sys.config.verifyCallers ==> e.action.callerOk)
                 && x.Some? && x.value.uid == e.action.uid && e.at - x.value.lastActivity <= 300000
  {
    hide Admit;
  }

  /** The event uses the session of the instance: an OK of it, or a call that passes. */
  ghost predicate Uses(sys: System, s: State, e: Event, instance: string) {
    (Succeeds(sys, s, e) && e.action.attempt.instance == instance) || Passes(sys, s, e)
  }

  /** In every run, the session has been idle since the last event that used it. */
  lemma {:induction false} IdleSinceUse(sys: System, states: seq<State>, es: seq<Event>, i: nat) returns (m: nat)
    requires IsRun(sys, states, es) && sys.config.required && i <= |es| && states[i].sessions.session.Some?
    ensures var x := states[i].sessions.session.value;
            && m < i && Uses(sys, states[m], es[m], x.instance) && x.lastActivity == es[m].at
            && forall k :: m < k < i ==> !Uses(sys, states[k], es[k], x.instance)
  {
    hide Next, FairPick, Succeeds, Passes;
    assert i > 0;
    var s, e := states[i - 1], es[i - 1];
    assert Steps(sys, s, e, states[i]);
    SessionFate(sys, s, e);
    if Uses(sys, s, e, states[i].sessions.session.value.instance) {
      m := i - 1;
      if Succeeds(sys, s, e) { SucceedsIsAttempt(sys, s, e); }
    } else {
      if Succeeds(sys, s, e) { SucceedsIsAttempt(sys, s, e); }
      m := IdleSinceUse(sys, states, es, i - 1);
    }
  }

  lemma SucceedsIsAttempt(sys: System, s: State, e: Event)
    requires Succeeds(sys, s, e)
    ensures e.action.Attempted? && !Passes(sys, s, e)
  {}
}
