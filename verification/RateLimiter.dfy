/** Per-uid limiting of authentication attempts (daemon/core/auth/rate_limiter.cpp). Time is a positive
    millisecond count passed to each operation. */
module RateLimiter {
  import opened Numbers

  datatype Config = Config(maxFailures: int, initialBackoff: int, maxBackoff: int, resetWindow: int, multiplier: real)

  datatype Attempt = Attempt(failed: int, firstFailure: int, lastAttempt: int, lockoutUntil: int)

  const BLANK := Attempt(0, 0, 0, 0)

  type Attempts = map<int, Attempt>

  datatype Verdict = Allowed(remaining: int) | Refused(retryAfter: int)

  // ---- Operations -----------------------------------------------------------------------------

  function Pow(x: real, n: nat): real { if n == 0 then 1.0 else x * Pow(x, n - 1) }

  function RawBackoff(c: Config, n: nat): real { c.initialBackoff as real * Pow(c.multiplier, n) }

  function Cap(x: real, max: real): real { if x < max then x else max }

  /** Exponential backoff with a cap; `failures` starts at one. */
  function Backoff(c: Config, failures: int): int {
    if failures <= 0 then 0
    else Truncate(Cap(RawBackoff(c, failures - 1), c.maxBackoff as real))
  }

  predicate Stale(c: Config, a: Attempt, now: int) { a.lastAttempt > 0 && now - a.lastAttempt > c.resetWindow }

  /** What `check_allowed` answers for an entry, and the entry it leaves. */
  function CheckEntry(c: Config, a: Attempt, now: int): (Verdict, Attempt) {
    if Stale(c, a, now) then (Allowed(c.maxFailures), BLANK)
    else if a.lockoutUntil > now then (Refused(a.lockoutUntil - now), a)
    else if a.failed >= c.maxFailures then
      var b := Backoff(c, a.failed);
      (Refused(b), a.(lockoutUntil := now + b))
    else (Allowed(c.maxFailures - a.failed), a)
  }

  function Check(c: Config, m: Attempts, uid: int, now: int): (Verdict, Attempts) {
    if uid !in m then (Allowed(c.maxFailures), m)
    else
      var (v, a) := CheckEntry(c, m[uid], now);
      (v, m[uid := a])
  }

  function FailEntry(c: Config, a: Attempt, now: int): Attempt {
    var failed := a.failed + 1;
    Attempt(failed, if a.failed == 0 then now else a.firstFailure, now,
            if failed >= c.maxFailures then now + Backoff(c, failed) else a.lockoutUntil)
  }

  function Fail(c: Config, m: Attempts, uid: int, now: int): Attempts {
    m[uid := FailEntry(c, if uid in m then m[uid] else BLANK, now)]
  }

  function Succeed(m: Attempts, uid: int): Attempts { if uid in m then m[uid := BLANK] else m }

  function Cleanup(c: Config, m: Attempts, now: int): Attempts {
    map uid | uid in m && m[uid].lastAttempt >= now - c.resetWindow :: m[uid]
  }

  class Limiter {
    const config: Config
    var attempts: Attempts

    constructor (config: Config)
      ensures this.config == config && attempts == map[]
    {
      this.config := config;
      attempts := map[];
    }

    method CheckAllowed(uid: int, now: int) returns (v: Verdict)
      modifies this
      ensures (v, attempts) == Check(config, old(attempts), uid, now)
    {
      if uid !in attempts { return Allowed(config.maxFailures); }
      var a := attempts[uid];
      if a.lastAttempt > 0 && now - a.lastAttempt > config.resetWindow {
        attempts := attempts[uid := BLANK];
        return Allowed(config.maxFailures);
      }
      if a.lockoutUntil > now { assert attempts == attempts[uid := a]; return Refused(a.lockoutUntil - now); }
      if a.failed >= config.maxFailures {
        var b := Backoff(config, a.failed);
        attempts := attempts[uid := a.(lockoutUntil := now + b)];
        return Refused(b);
      }
      assert attempts == attempts[uid := a];
      v := Allowed(config.maxFailures - a.failed);
    }

    method RecordSuccess(uid: int)
      modifies this
      ensures attempts == Succeed(old(attempts), uid)
    {
      if uid in attempts { attempts := attempts[uid := BLANK]; }
    }

    method RecordFailure(uid: int, now: int)
      modifies this
      ensures attempts == Fail(config, old(attempts), uid, now)
    {
      var a := if uid in attempts then attempts[uid] else BLANK;
      if a.failed == 0 { a := a.(firstFailure := now); }
      a := a.(failed := a.failed + 1, lastAttempt := now);
      if a.failed >= config.maxFailures { a := a.(lockoutUntil := now + Backoff(config, a.failed)); }
      attempts := attempts[uid := a];
    }

    method ResetUid(uid: int)
      modifies this
      ensures attempts == old(attempts) - {uid}
    {
      attempts := attempts - {uid};
    }

    method CleanupExpired(now: int)
      modifies this
      ensures attempts == Cleanup(config, old(attempts), now)
    {
      var threshold := now - config.resetWindow;
      var todo := attempts.Keys;
      while todo != {}
        invariant todo <= old(attempts).Keys
        invariant attempts == map uid | uid in old(attempts)
                    && (uid in todo || old(attempts)[uid].lastAttempt >= threshold) :: old(attempts)[uid]
        decreases |todo|
      {
        assert (forall x :: x !in todo) ==> todo == {};
        var uid :| uid in todo;
        todo := todo - {uid};
        if attempts[uid].lastAttempt < threshold { attempts := attempts - {uid}; }
      }
    }
  }

  // ---- Runs -----------------------------------------------------------------------------------

  /** `Attempted` is an attempt that fails if it is allowed: `check_allowed`, and then `record_failure`
      at the same time, as `authenticate` does it. */
  datatype Action =
    | Checked(uid: int) | Attempted(uid: int) | Succeeded(uid: int) | UidReset(uid: int) | AllReset | CleanedUp

  datatype Event = Event(at: int, action: Action)

  function Step(c: Config, m: Attempts, e: Event): Attempts {
    match e.action
    case Checked(uid) => Check(c, m, uid, e.at).1
    case Attempted(uid) =>
      var (v, n) := Check(c, m, uid, e.at);
      if v.Allowed? then Fail(c, n, uid, e.at) else n
    case Succeeded(uid) => Succeed(m, uid)
    case UidReset(uid) => m - {uid}
    case AllReset => map[]
    case CleanedUp => Cleanup(c, m, e.at)
  }

  /** What the caller of an event is told. */
  function Answer(c: Config, m: Attempts, e: Event): seq<Verdict> {
    if e.action.Checked? || e.action.Attempted? then [Check(c, m, e.action.uid, e.at).0] else []
  }

  function Run(c: Config, m: Attempts, es: seq<Event>): Attempts
    decreases |es|
  {
    if es == [] then m else Run(c, Step(c, m, es[0]), es[1..])
  }

  function Answers(c: Config, m: Attempts, es: seq<Event>): seq<Verdict>
    decreases |es|
  {
    if es == [] then [] else Answer(c, m, es[0]) + Answers(c, Step(c, m, es[0]), es[1..])
  }

  ghost predicate Timed(start: int, es: seq<Event>)
    decreases |es|
  {
    es == [] || (start <= es[0].at && Timed(es[0].at, es[1..]))
  }

  function WithoutCleanups(es: seq<Event>): seq<Event> {
    if es == [] then []
    else if es[0].action.CleanedUp? then WithoutCleanups(es[1..])
    else [es[0]] + WithoutCleanups(es[1..])
  }

  // ---- Cleanup is invisible -------------------------------------------------------------------

  /** An entry as `check_allowed` sees it at time `now`: absent and stale entries count as blank. */
  function Seen(c: Config, m: Attempts, uid: int, now: int): Attempt {
    if uid !in m || Stale(c, m[uid], now) then BLANK else m[uid]
  }

  ghost predicate Alike(c: Config, m: Attempts, n: Attempts, now: int) {
    forall uid :: Seen(c, m, uid, now) == Seen(c, n, uid, now)
  }

  /** Checking depends on the seen entry only. */
  lemma CheckSees(c: Config, m: Attempts, uid: int, now: int)
    requires c.maxFailures >= 1 && now > 0
    ensures Check(c, m, uid, now).0 == CheckEntry(c, Seen(c, m, uid, now), now).0
    ensures Seen(c, Check(c, m, uid, now).1, uid, now) == CheckEntry(c, Seen(c, m, uid, now), now).1
    ensures forall u :: u != uid ==> Seen(c, Check(c, m, uid, now).1, u, now) == Seen(c, m, u, now)
  {
    hide Backoff;
  }

  /** Failing after an allowed check depends on the seen entry only. */
  lemma FailSees(c: Config, m: Attempts, uid: int, now: int)
    requires uid in m ==> !Stale(c, m[uid], now)
    ensures Fail(c, m, uid, now)[uid] == FailEntry(c, Seen(c, m, uid, now), now)
    ensures forall u :: u != uid ==> Seen(c, Fail(c, m, uid, now), u, now) == Seen(c, m, u, now)
  {
    hide Backoff;
  }

  lemma CheckFreshens(c: Config, m: Attempts, uid: int, now: int)
    ensures var n := Check(c, m, uid, now).1; uid in n ==> !Stale(c, n[uid], now)
  {
    hide Backoff;
  }

  lemma AlikeLater(c: Config, m: Attempts, n: Attempts, now: int, later: int)
    requires Alike(c, m, n, now) && now <= later
    ensures Alike(c, m, n, later)
  {
    forall uid ensures Seen(c, m, uid, later) == Seen(c, n, uid, later) {
      assert Seen(c, m, uid, now) == Seen(c, n, uid, now);
    }
  }

  /** Equal-looking states stay equal-looking under every event but cleanup, and answer alike. */
  lemma StepAlike(c: Config, m: Attempts, n: Attempts, e: Event)
    requires c.maxFailures >= 1 && e.at > 0 && Alike(c, m, n, e.at) && !e.action.CleanedUp?
    ensures Answer(c, m, e) == Answer(c, n, e)
    ensures Alike(c, Step(c, m, e), Step(c, n, e), e.at)
  {
    hide Backoff, CheckEntry, FailEntry;
    if e.action.Checked? || e.action.Attempted? {
      var uid, now := e.action.uid, e.at;
      assert Seen(c, m, uid, now) == Seen(c, n, uid, now);
      CheckSees(c, m, uid, now);
      CheckSees(c, n, uid, now);
      CheckFreshens(c, m, uid, now);
      CheckFreshens(c, n, uid, now);
      var (v, m1) := Check(c, m, uid, now);
      var (w, n1) := Check(c, n, uid, now);
      hide Check, Seen;
      assert Alike(c, m1, n1, now) by {
        forall u ensures Seen(c, m1, u, now) == Seen(c, n1, u, now) {
          assert Seen(c, m, u, now) == Seen(c, n, u, now);
        }
      }
      if e.action.Attempted? && v.Allowed? { FailAlike(c, m1, n1, uid, now); }
    } else {
      OtherAlike(c, m, n, e);
    }
  }

  lemma FailAlike(c: Config, m: Attempts, n: Attempts, uid: int, now: int)
    requires Alike(c, m, n, now)
    requires uid in m ==> !Stale(c, m[uid], now)
    requires uid in n ==> !Stale(c, n[uid], now)
    ensures Alike(c, Fail(c, m, uid, now), Fail(c, n, uid, now), now)
  {
    hide Backoff, FailEntry;
    FailSees(c, m, uid, now);
    FailSees(c, n, uid, now);
    assert Seen(c, m, uid, now) == Seen(c, n, uid, now);
    var m1, n1 := Fail(c, m, uid, now), Fail(c, n, uid, now);
    forall u ensures Seen(c, m1, u, now) == Seen(c, n1, u, now) {
      assert Seen(c, m, u, now) == Seen(c, n, u, now);
    }
  }

  lemma OtherAlike(c: Config, m: Attempts, n: Attempts, e: Event)
    requires Alike(c, m, n, e.at)
    requires e.action.Succeeded? || e.action.UidReset? || e.action.AllReset?
    ensures Alike(c, Step(c, m, e), Step(c, n, e), e.at)
  {
    var m1, n1 := Step(c, m, e), Step(c, n, e);
    forall u ensures Seen(c, m1, u, e.at) == Seen(c, n1, u, e.at) {
      assert Seen(c, m, u, e.at) == Seen(c, n, u, e.at);
    }
  }

  /** Entries carry a time unless they have been reset. */
  ghost predicate Dated(m: Attempts) {
    forall uid :: uid in m && m[uid].lastAttempt <= 0 ==> m[uid] == BLANK
  }

  lemma StepDated(c: Config, m: Attempts, e: Event)
    requires Dated(m) && e.at > 0 && c.maxFailures >= 1
    ensures Dated(Step(c, m, e))
  {
    hide Backoff;
  }

  lemma {:induction false} AlikeAnswers(c: Config, m: Attempts, n: Attempts, now: int, es: seq<Event>)
    requires c.maxFailures >= 1 && now > 0 && Timed(now, es) && Dated(m) && Alike(c, m, n, now)
    ensures Answers(c, m, es) == Answers(c, n, WithoutCleanups(es))
    decreases |es|
  {
    if es != [] {
      var e := es[0];
      AlikeLater(c, m, n, now, e.at);
      StepDated(c, m, e);
      hide Alike, Dated, Step, Answer;
      if e.action.CleanedUp? {
        CleanupStep(c, m, n, e.at);
        AlikeAnswers(c, Step(c, m, e), n, e.at, es[1..]);
        assert Answer(c, m, e) == [] by { CleanupSilent(c, m, e); }
      } else {
        StepAlike(c, m, n, e);
        AlikeAnswers(c, Step(c, m, e), Step(c, n, e), e.at, es[1..]);
        var rest := WithoutCleanups(es[1..]);
        assert ([e] + rest)[1..] == rest;
      }
    }
  }

  lemma CleanupSilent(c: Config, m: Attempts, e: Event)
    requires e.action.CleanedUp?
    ensures Answer(c, m, e) == []
  {}

  lemma CleanupStep(c: Config, m: Attempts, n: Attempts, now: int)
    requires Dated(m) && Alike(c, m, n, now)
    ensures Alike(c, Step(c, m, Event(now, CleanedUp)), n, now)
  {
    var k := Cleanup(c, m, now);
    forall uid ensures Seen(c, k, uid, now) == Seen(c, n, uid, now) {
      assert Seen(c, m, uid, now) == Seen(c, n, uid, now);
    }
  }

  ghost predicate CleanupInvisible(c: Config) {
    forall es :: Timed(1, es) ==> Answers(c, map[], es) == Answers(c, map[], WithoutCleanups(es))
  }

  /** Wherever cleanups happen, no check is answered differently: exactly when at least one failure is
      allowed. With none allowed, a reset entry is refused where an erased one is not. */
  lemma CleanupInvisibleIff(c: Config)
    ensures CleanupInvisible(c) <==> c.maxFailures >= 1
  {
    if c.maxFailures >= 1 {
      forall es | Timed(1, es) ensures Answers(c, map[], es) == Answers(c, map[], WithoutCleanups(es)) {
        AlikeAnswers(c, map[], map[], 1, es);
      }
    } else {
      CleanupVisible(c);
    }
  }

  lemma CleanupVisible(c: Config)
    requires c.maxFailures < 1
    ensures !CleanupInvisible(c)
  {
    hide Answers, WithoutCleanups, Step, Answer, Timed;
    var T := if c.resetWindow > 0 then c.resetWindow + 2 else 2;
    var a, b, d, e := Event(1, Attempted(7)), Event(T, Checked(7)), Event(T, CleanedUp), Event(T, Checked(7));
    var m1 := Step(c, map[], a);
    var m2 := Step(c, m1, b);
    StaleEntry(c, T);
    OneAnswer(c, map[], e);
    OneAnswer(c, m2, e);
    AnswersCons(c, m2, d, [e]);
    AnswersCons(c, m1, b, [d, e]);
    AnswersCons(c, m1, b, [e]);
    AnswersCons(c, map[], a, [b, d, e]);
    AnswersCons(c, map[], a, [b, e]);
    var es := [a, b, d, e];
    DropCleanup(a, b, d, e);
    TimedFour(a, b, d, e);
    var x, y := Answer(c, map[], a), Answer(c, m1, b);
    assert Answers(c, map[], es) == x + (y + [Allowed(c.maxFailures)]);
    assert Answers(c, map[], [a, b, e]) == x + (y + [Refused(0)]);
    assert (x + (y + [Allowed(c.maxFailures)]))[|x| + |y|] != (x + (y + [Refused(0)]))[|x| + |y|];
  }

  /** With no failure allowed, a check clears a stale entry but leaves it, and cleanup removes it. */
  lemma StaleEntry(c: Config, T: int)
    requires c.maxFailures < 1 && T > 1 && T > c.resetWindow + 1
    ensures var m2 := Step(c, Step(c, map[], Event(1, Attempted(7))), Event(T, Checked(7)));
            && Step(c, m2, Event(T, CleanedUp)) == map[]
            && Answer(c, m2, Event(T, CleanedUp)) == []
            && Answer(c, map[], Event(T, Checked(7))) == [Allowed(c.maxFailures)]
            && Answer(c, m2, Event(T, Checked(7))) == [Refused(0)]
  {
    hide Backoff;
    BackoffZero(c);
    var m1 := Step(c, map[], Event(1, Attempted(7)));
    assert Stale(c, m1[7], T);
    var m2 := Step(c, m1, Event(T, Checked(7)));
    assert m2 == map[7 := BLANK];
    assert Step(c, m2, Event(T, CleanedUp)) == map[];
  }

  lemma BackoffZero(c: Config)
    ensures Backoff(c, 0) == 0
  {}

  lemma OneAnswer(c: Config, m: Attempts, e: Event)
    ensures Answers(c, m, [e]) == Answer(c, m, e)
  {
    assert [e][1..] == [];
  }

  lemma AnswersCons(c: Config, m: Attempts, e: Event, es: seq<Event>)
    ensures Answers(c, m, [e] + es) == Answer(c, m, e) + Answers(c, Step(c, m, e), es)
  {
    assert ([e] + es)[1..] == es;
  }

  lemma DropCleanup(a: Event, b: Event, d: Event, e: Event)
    requires !a.action.CleanedUp? && !b.action.CleanedUp? && d.action.CleanedUp? && !e.action.CleanedUp?
    ensures WithoutCleanups([a, b, d, e]) == [a, b, e]
    ensures [a, b, d, e] == [a] + [b, d, e] && [b, d, e] == [b] + [d, e] && [d, e] == [d] + [e]
    ensures [a, b, e] == [a] + [b, e] && [b, e] == [b] + [e]
  {
    assert [a, b, d, e][1..] == [b, d, e] && [b, d, e][1..] == [d, e] && [d, e][1..] == [e] && [e][1..] == [];
    assert WithoutCleanups([e]) == [e];
    assert WithoutCleanups([b, d, e]) == [b] + WithoutCleanups([d, e]);
  }

  lemma TimedFour(a: Event, b: Event, d: Event, e: Event)
    requires 1 <= a.at <= b.at <= d.at <= e.at
    ensures Timed(1, [a, b, d, e])
  {
    assert [a, b, d, e][1..] == [b, d, e] && [b, d, e][1..] == [d, e] && [d, e][1..] == [e] && [e][1..] == [];
    assert Timed(b.at, [d, e]);
  }

  // ---- Lockout --------------------------------------------------------------------------------

  ghost predicate Sound(c: Config) {
    c.maxFailures >= 1 && c.initialBackoff >= 1 && c.maxBackoff >= 1 && c.multiplier >= 1.0
  }

  lemma {:induction false} PowAtLeastOne(x: real, n: nat)
    requires x >= 1.0
    ensures Pow(x, n) >= 1.0
  {
    if n > 0 {
      PowAtLeastOne(x, n - 1);
      assert x * Pow(x, n - 1) >= 1.0 * Pow(x, n - 1);
    }
  }

  lemma PowStep(x: real, n: nat)
    requires x >= 1.0
    ensures Pow(x, n) <= Pow(x, n + 1)
  {
    PowAtLeastOne(x, n);
    assert x * Pow(x, n) >= 1.0 * Pow(x, n);
  }

  lemma RawBackoffStep(c: Config, n: nat)
    requires Sound(c)
    ensures 1.0 <= RawBackoff(c, n) <= RawBackoff(c, n + 1)
  {
    PowStep(c.multiplier, n);
    PowAtLeastOne(c.multiplier, n);
    hide Pow;
    ScaleMono(c.initialBackoff as real, Pow(c.multiplier, n), Pow(c.multiplier, n + 1));
    ScaleMono(c.initialBackoff as real, 1.0, Pow(c.multiplier, n));
  }

  lemma BackoffWithin(c: Config, failures: int)
    requires Sound(c) && failures >= 1
    ensures 1 <= Backoff(c, failures) <= c.maxBackoff
  {
    hide RawBackoff;
    RawBackoffStep(c, failures - 1);
  }

  lemma BackoffStep(c: Config, n: int)
    requires Sound(c) && n >= 1
    ensures Backoff(c, n) <= Backoff(c, n + 1)
  {
    hide RawBackoff, Truncate;
    RawBackoffStep(c, n - 1);
    TruncateMonotone(Cap(RawBackoff(c, n - 1), c.maxBackoff as real), Cap(RawBackoff(c, n), c.maxBackoff as real));
  }

  /** More failures never mean a shorter wait. */
  lemma {:induction false} BackoffMonotone(c: Config, m: int, n: int)
    requires Sound(c) && 0 <= m <= n
    ensures Backoff(c, m) <= Backoff(c, n)
    decreases n - m
  {
    if m < n {
      BackoffMonotone(c, m, n - 1);
      BackoffWithin(c, n);
      if n > 1 { BackoffStep(c, n - 1); }
    }
  }

  ghost predicate EntrySound(c: Config, a: Attempt, now: int) {
    && 0 <= a.failed <= c.maxFailures
    && a.lastAttempt <= now
    && a.lockoutUntil <= now + c.maxBackoff
    && (a.failed > 0 ==> a.lastAttempt > 0)
  }

  ghost predicate StateSound(c: Config, m: Attempts, now: int) {
    forall uid :: uid in m ==> EntrySound(c, m[uid], now)
  }

  lemma CheckEntrySound(c: Config, a: Attempt, now: int)
    requires Sound(c) && now > 0 && EntrySound(c, a, now)
    ensures var (v, b) := CheckEntry(c, a, now);
            && EntrySound(c, b, now)
            && (v.Allowed? ==> b.failed < c.maxFailures && EntrySound(c, FailEntry(c, b, now), now))
            && (v.Refused? ==> 0 < v.retryAfter <= c.maxBackoff)
  {
    if a.failed >= 1 { BackoffWithin(c, a.failed); }
    BackoffWithin(c, a.failed + 1);
    BackoffWithin(c, 1);
    hide Backoff;
  }

  /** Failures never exceed the maximum between resets, and every refusal names a wait within the
      cap. */
  lemma StepSound(c: Config, m: Attempts, now: int, e: Event)
    requires Sound(c) && 0 < now <= e.at && StateSound(c, m, now)
    ensures StateSound(c, Step(c, m, e), e.at)
    ensures forall v :: v in Answer(c, m, e) && v.Refused? ==> 0 < v.retryAfter <= c.maxBackoff
  {
    assert StateSound(c, m, e.at);
    BackoffWithin(c, 1);
    if e.action.Checked? || e.action.Attempted? {
      var uid := e.action.uid;
      CheckEntrySound(c, if uid in m then m[uid] else BLANK, e.at);
    }
    hide Backoff;
  }

  function EndTime(now: int, es: seq<Event>): int { if es == [] then now else es[|es| - 1].at }

  lemma {:induction false} RunSound(c: Config, m: Attempts, now: int, es: seq<Event>)
    requires Sound(c) && 0 < now && Timed(now, es) && StateSound(c, m, now)
    ensures StateSound(c, Run(c, m, es), EndTime(now, es))
    ensures forall v :: v in Answers(c, m, es) && v.Refused? ==> 0 < v.retryAfter <= c.maxBackoff
    decreases |es|
  {
    if es != [] {
      StepSound(c, m, now, es[0]);
      hide StateSound, Step, Answer;
      RunSound(c, Step(c, m, es[0]), es[0].at, es[1..]);
    }
  }

  /** In every run from the empty limiter: no more failures than the maximum for any uid, and every
      wait in (0, maxBackoff]. */
  lemma RunsStayWithinLimits(c: Config, es: seq<Event>)
    requires Sound(c) && Timed(1, es)
    ensures forall uid :: uid in Run(c, map[], es) ==> 0 <= Run(c, map[], es)[uid].failed <= c.maxFailures
    ensures forall v :: v in Answers(c, map[], es) && v.Refused? ==> 0 < v.retryAfter <= c.maxBackoff
  {
    hide Run, Answers;
    RunSound(c, map[], 1, es);
  }

  /** `uid` has used up its failures, the last one at time `last`. */
  ghost predicate Exhausted(c: Config, m: Attempts, uid: int, last: int) {
    uid in m && m[uid].failed >= c.maxFailures && m[uid].lastAttempt == last
  }

  lemma StepExhausted(c: Config, m: Attempts, uid: int, last: int, e: Event)
    requires c.maxFailures >= 1 && Exhausted(c, m, uid, last) && !Frees(e.action, uid) && e.at - last <= c.resetWindow
    ensures Exhausted(c, Step(c, m, e), uid, last)
    ensures Check(c, m, uid, e.at).0.Refused?
  {
    hide Backoff;
  }

  /** Once a uid has used up its failures it is refused at every moment until a success, a manual
      reset, or more than the reset window since its last failure, whatever else happens. */
  lemma {:induction false} LockedOutUntilFreed(c: Config, m: Attempts, uid: int, last: int, es: seq<Event>, now: int)
    requires c.maxFailures >= 1 && Exhausted(c, m, uid, last)
    requires forall e :: e in es ==> !Frees(e.action, uid) && e.at - last <= c.resetWindow
    requires now - last <= c.resetWindow
    ensures Check(c, Run(c, m, es), uid, now).0.Refused?
    decreases |es|
  {
    if es == [] {
      StepExhausted(c, m, uid, last, Event(now, Checked(uid)));
    } else {
      assert es[0] in es;
      StepExhausted(c, m, uid, last, es[0]);
      hide Step, Check, Exhausted, Frees;
      assert forall e :: e in es[1..] ==> e in es;
      LockedOutUntilFreed(c, Step(c, m, es[0]), uid, last, es[1..], now);
    }
  }

  // ---- The answers, from the events alone -----------------------------------------------------

  ghost predicate Frees(a: Action, uid: int) {
    a == Succeeded(uid) || a == UidReset(uid) || a == AllReset
  }

  /** The failures of a uid that count at time `now`: its allowed attempts since it was last freed and since the last
      gap above the reset window. */
  ghost function Count(c: Config, es: seq<Event>, uid: int, now: int): nat
    decreases |es|
  {
    if es == [] then 0
    else
      var n := |es| - 1;
      var e := es[n];
      if Frees(e.action, uid) then 0
      else if e.action == Attempted(uid) && Count(c, es[..n], uid, e.at) < c.maxFailures then
        if now - e.at > c.resetWindow then 0 else Count(c, es[..n], uid, e.at) + 1
      else Count(c, es[..n], uid, now)
  }

  /** Until when a uid with no failures left has to wait: the last failure starts a wait, and so does being refused
      once a wait is over. */
  ghost function LockedUntil(c: Config, es: seq<Event>, uid: int): int
    decreases |es|
  {
    if es == [] then 0
    else
      var n := |es| - 1;
      var e, before := es[n], LockedUntil(c, es[..n], uid);
      if e.action != Attempted(uid) && e.action != Checked(uid) then before
      else
        var k := Count(c, es[..n], uid, e.at);
        var last := if e.action == Attempted(uid) then c.maxFailures - 1 else c.maxFailures;
        if k < last || (k >= c.maxFailures && before > e.at) then before else e.at + Backoff(c, c.maxFailures)
  }

  /** When the first of the failures that count happened. */
  ghost function FirstOf(c: Config, es: seq<Event>, uid: int, now: int): int
    decreases |es|
  {
    if es == [] then 0
    else
      var n := |es| - 1;
      var e, k := es[n], Count(c, es[..n], uid, es[n].at);
      if e.action == Attempted(uid) && k < c.maxFailures then if k == 0 then e.at else FirstOf(c, es[..n], uid, e.at)
      else FirstOf(c, es[..n], uid, now)
  }

  /** What a check is to be told. */
  ghost function Due(c: Config, es: seq<Event>, uid: int, now: int): Verdict {
    var n, until := Count(c, es, uid, now), LockedUntil(c, es, uid);
    if n < c.maxFailures then Allowed(c.maxFailures - n)
    else Refused(if until > now then until - now else Backoff(c, c.maxFailures))
  }

  /** The entry of a uid says what the events say. */
  ghost predicate Tells(c: Config, a: Attempt, es: seq<Event>, uid: int, now: int) {
    && a.failed == Count(c, es, uid, now) <= c.maxFailures
    && a.lockoutUntil == (if a.failed < c.maxFailures then 0 else LockedUntil(c, es, uid))
    && a.firstFailure == if a.failed == 0 then 0 else FirstOf(c, es, uid, now)
  }

  lemma {:induction false} RunAppend(c: Config, m: Attempts, a: seq<Event>, b: seq<Event>)
    ensures Run(c, m, a + b) == Run(c, Run(c, m, a), b)
    decreases |a|
  {
    hide Step;
    if a == [] {
      assert a + b == b;
    } else {
      assert (a + b)[1..] == a[1..] + b;
      RunAppend(c, Step(c, m, a[0]), a[1..], b);
    }
  }

  lemma RunOne(c: Config, m: Attempts, e: Event)
    ensures Run(c, m, [e]) == Step(c, m, e)
  {
    hide Step;
    assert [e][1..] == [];
  }

  lemma {:induction false} TimedAppend(start: int, a: seq<Event>, b: seq<Event>)
    requires Timed(start, a) && Timed(EndTime(start, a), b)
    ensures Timed(start, a + b) && EndTime(start, a + b) == EndTime(EndTime(start, a), b)
    decreases |a|
  {
    if a == [] {
      assert a + b == b;
    } else {
      assert (a + b)[1..] == a[1..] + b;
      TimedAppend(a[0].at, a[1..], b);
    }
  }

  lemma {:induction false} TimedSnoc(start: int, es: seq<Event>, e: Event)
    requires Timed(start, es + [e])
    ensures Timed(start, es) && start <= EndTime(start, es) <= e.at
    decreases |es|
  {
    if es == [] {
      assert es + [e] == [e];
    } else {
      assert (es + [e])[1..] == es[1..] + [e];
      TimedSnoc(es[0].at, es[1..], e);
    }
  }

  /** An entry as it looks later. */
  function Later(c: Config, a: Attempt, now: int): Attempt { if Stale(c, a, now) then BLANK else a }

  /** The entry `a` says at time `at`, and will say at `now`, what the events say. */
  ghost predicate Follows(c: Config, a: Attempt, es: seq<Event>, uid: int, at: int, now: int) {
    && c.maxFailures >= 1 && 0 < at <= now && !Stale(c, a, at)
    && Tells(c, a, es, uid, at) && Tells(c, Later(c, a, now), es, uid, now)
  }

  lemma CheckTells(c: Config, a: Attempt, es: seq<Event>, uid: int, at: int, now: int)
    requires Follows(c, a, es, uid, at, now)
    ensures CheckEntry(c, a, at).0 == Due(c, es, uid, at)
    ensures Tells(c, Later(c, CheckEntry(c, a, at).1, now), es + [Event(at, Checked(uid))], uid, now)
  {
    hide Backoff;
    var more := es + [Event(at, Checked(uid))];
    assert more[..|es|] == es;
  }

  /** An attempt: a check, and a failure if it was allowed. */
  function AttemptEntry(c: Config, a: Attempt, at: int): Attempt {
    var (v, b) := CheckEntry(c, a, at);
    if v.Allowed? then FailEntry(c, b, at) else b
  }

  lemma AttemptTells(c: Config, a: Attempt, es: seq<Event>, uid: int, at: int, now: int)
    requires Follows(c, a, es, uid, at, now)
    ensures Tells(c, Later(c, AttemptEntry(c, a, at), now), es + [Event(at, Attempted(uid))], uid, now)
  {
    hide Backoff;
    var more := es + [Event(at, Attempted(uid))];
    assert more[..|es|] == es;
  }

  lemma OtherTells(c: Config, a: Attempt, es: seq<Event>, e: Event, uid: int, now: int)
    requires e.action != Checked(uid) && e.action != Attempted(uid)
    requires if Frees(e.action, uid) then a == BLANK && c.maxFailures >= 1 else Tells(c, a, es, uid, now)
    ensures Tells(c, a, es + [e], uid, now)
  {
    hide Backoff;
    assert (es + [e])[..|es|] == es;
  }

  /** What a step does to the entry of a uid, as it looks later. */
  lemma SeenStep(c: Config, m: Attempts, e: Event, uid: int, now: int)
    requires c.maxFailures >= 1 && 0 < e.at <= now && Dated(m)
    ensures var a, b := Seen(c, m, uid, e.at), Seen(c, Step(c, m, e), uid, now);
            && !Stale(c, a, e.at) && Seen(c, m, uid, now) == Later(c, a, now)
            && (e.action == Checked(uid) ==> b == Later(c, CheckEntry(c, a, e.at).1, now))
            && (e.action == Attempted(uid) ==> b == Later(c, AttemptEntry(c, a, e.at), now))
            && (Frees(e.action, uid) ==> b == BLANK)
            && (e.action != Checked(uid) && e.action != Attempted(uid) && !Frees(e.action, uid) ==>
                  b == Later(c, a, now))
  {
    hide Backoff;
    if e.action.CleanedUp? && uid in m { assert m[uid].lastAttempt <= 0 ==> m[uid] == BLANK; }
  }

  /** In every run the entry of every uid says what the events say. */
  lemma {:induction false} RunTells(c: Config, es: seq<Event>, uid: int, now: int)
    requires c.maxFailures >= 1 && Timed(1, es) && EndTime(1, es) <= now
    ensures Dated(Run(c, map[], es)) && Tells(c, Seen(c, Run(c, map[], es), uid, now), es, uid, now)
    decreases |es|
  {
    if es != [] {
      var n := |es| - 1;
      var before, e := es[..n], es[n];
      assert es == before + [e];
      hide Run, Step, Dated, Seen, Tells, CheckEntry, AttemptEntry, Timed;
      TimedSnoc(1, before, e);
      RunAppend(c, map[], before, [e]);
      RunOne(c, Run(c, map[], before), e);
      RunTells(c, before, uid, e.at);
      RunTells(c, before, uid, now);
      var m := Run(c, map[], before);
      StepDated(c, m, e);
      SeenStep(c, m, e, uid, now);
      var a := Seen(c, m, uid, e.at);
      if e.action == Checked(uid) {
        CheckTells(c, a, before, uid, e.at, now);
      } else if e.action == Attempted(uid) {
        AttemptTells(c, a, before, uid, e.at, now);
      } else {
        OtherTells(c, Seen(c, Step(c, m, e), uid, now), before, e, uid, now);
      }
    }
  }

  /** Every check, in every run from the empty limiter, is told what the events say. */
  ghost predicate AnswersAsDue(c: Config) {
    forall es, uid, now :: Timed(1, es) && EndTime(1, es) <= now ==>
      Check(c, Run(c, map[], es), uid, now).0 == Due(c, es, uid, now)
  }

  lemma AnswerIsDue(c: Config, es: seq<Event>, uid: int, now: int)
    requires c.maxFailures >= 1 && Timed(1, es) && EndTime(1, es) <= now
    ensures Check(c, Run(c, map[], es), uid, now).0 == Due(c, es, uid, now)
  {
    hide Run, Due, Tells, CheckEntry, Check;
    RunTells(c, es, uid, now);
    EndsLate(1, es);
    var m := Run(c, map[], es);
    CheckSees(c, m, uid, now);
    SeenStep(c, m, Event(now, CleanedUp), uid, now);
    CheckTells(c, Seen(c, m, uid, now), es, uid, now, now);
  }

  lemma {:induction false} EndsLate(start: int, es: seq<Event>)
    requires Timed(start, es)
    ensures start <= EndTime(start, es)
    decreases |es|
  {
    if es != [] { EndsLate(es[0].at, es[1..]); }
  }

  /** In every run, a check is allowed, with what is left of the maximum, exactly while fewer failures than the
      maximum count, and otherwise refused for what is left of the wait: exactly when at least one failure is allowed.
      With none allowed, a uid without an entry is let in all the same. */
  lemma AnswersAsDueIff(c: Config)
    ensures AnswersAsDue(c) <==> c.maxFailures >= 1
  {
    if c.maxFailures >= 1 {
      forall es, uid, now | Timed(1, es) && EndTime(1, es) <= now
        ensures Check(c, Run(c, map[], es), uid, now).0 == Due(c, es, uid, now)
      {
        AnswerIsDue(c, es, uid, now);
      }
    } else {
      assert Timed(1, []) && EndTime(1, []) <= 1;
      assert Check(c, Run(c, map[], []), 7, 1).0 == Allowed(c.maxFailures);
      assert Due(c, [], 7, 1).Refused?;
    }
  }

  // ---- The length of a wait -------------------------------------------------------------------

  /** The first wait is the initial one, and every further one longer by the multiplier. */
  function Grown(c: Config, n: nat): real
    requires n >= 1
  {
    if n == 1 then c.initialBackoff as real else Grown(c, n - 1) * c.multiplier
  }

  lemma {:induction false} RawIsGrown(c: Config, n: nat)
    requires n >= 1
    ensures RawBackoff(c, n - 1) == Grown(c, n)
  {
    if n > 1 {
      RawIsGrown(c, n - 1);
      Regroup(c.initialBackoff as real, c.multiplier, Pow(c.multiplier, n - 2));
    }
  }

  lemma Regroup(i: real, x: real, p: real)
    ensures i * (x * p) == i * p * x
  {}

  /** A wait is the grown one in whole milliseconds, or the cap. */
  lemma BackoffIsGrown(c: Config, n: nat)
    requires Sound(c) && n >= 1
    ensures Grown(c, n) >= c.maxBackoff as real ==> Backoff(c, n) == c.maxBackoff
    ensures Grown(c, n) < c.maxBackoff as real ==>
              Backoff(c, n) as real <= Grown(c, n) < Backoff(c, n) as real + 1.0
  {
    hide RawBackoff, Grown;
    RawIsGrown(c, n);
    RawBackoffStep(c, n - 1);
  }
}
