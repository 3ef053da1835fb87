/** The uid whitelist after any run, told from the events: who is pending, who is authorized, denied or revoked, under
    what names, and with which key (daemon/core/auth/uid_whitelist.cpp). */
module UidHistory {
  import opened Bytes
  import opened Text
  import opened UidFile
  import opened UidWhitelist

  // ---- What the events make of a uid ----------------------------------------------------------

  predicate Authorizes(a: Action, uid: int) { a.Authorized? && a.uid == uid }

  /** The status of a uid is that of the last decision about it. */
  function NextStatus(a: Action, uid: int, status: int): int {
    if Authorizes(a, uid) then AUTHORIZED
    else if a == Denied(uid) then DENIED
    else if a == Revoked(uid) && status != UNKNOWN then REVOKED
    else status
  }

  /** The key of a uid is the first that is registered while it is authorized. */
  function NextKey(a: Action, uid: int, status: int, key: seq<byte>): seq<byte> {
    if a.Registered? && a.uid == uid && status == AUTHORIZED && key == [] then a.key else key
  }

  /** What is kept of the decisions about a uid. */
  datatype Decision = Decision(package: string, appLabel: string, firstSeen: int, decidedAt: int)

  const UNDECIDED := Decision("", "", 0, 0)

  /** The package is that of the request that is authorized, and the label the one given, or else the package. */
  function NextDecision(e: Event, uid: int, d: Decision, request: Option<Request>): Decision {
    if Authorizes(e.action, uid) then
      var package := if request.Some? then request.value.package else "";
      Decision(package, if e.action.name == "" then package else e.action.name,
               if d.firstSeen == 0 then e.at else d.firstSeen, e.at)
    else if e.action == Denied(uid) then d.(decidedAt := e.at)
    else d
  }

  /** The event settles or drops a request of the uid: a decision about it, a restart, or after the timeout a cleanup,
      or a question while nothing is known of the uid. */
  predicate Settles(c: Config, e: Event, uid: int, r: Request, status: int) {
    || Authorizes(e.action, uid) || e.action == Denied(uid) || e.action.Restarted?
    || ((e.action.CleanedUp? || (e.action == Asked(uid) && status == UNKNOWN)) && e.at - r.at > c.timeout)
  }

  /** A request becomes pending if there is none and no decision, and there is `room`; and stays until it is settled. */
  function NextRequest(
      c: Config, e: Event, uid: int, request: Option<Request>, status: int, room: bool): Option<Request>
  {
    if request.Some? then if Settles(c, e, uid, request.value, status) then None else request
    else if e.action.Requested? && e.action.uid == uid && status != AUTHORIZED && status != DENIED && room
    then Some(e.action.request) else None
  }

  datatype Story = Story(status: int, key: seq<byte>, decision: Decision, request: Option<Request>)

  /** The story of a uid in the events before `i`. */
  ghost function StoryOf(c: Config, states: seq<Store>, es: seq<Event>, i: nat, uid: int): Story
    requires |states| == |es| + 1 && i <= |es|
  {
    if i == 0 then Story(UNKNOWN, [], UNDECIDED, None)
    else NextStory(c, es[i - 1], uid, StoryOf(c, states, es, i - 1, uid), |states[i - 1].pending| < c.maxPending)
  }

  function NextStory(c: Config, e: Event, uid: int, x: Story, room: bool): Story {
    Story(NextStatus(e.action, uid, x.status), NextKey(e.action, uid, x.status, x.key),
          NextDecision(e, uid, x.decision, x.request), NextRequest(c, e, uid, x.request, x.status, room))
  }

  // ---- The store tells it ---------------------------------------------------------------------

  ghost predicate TellsRequest(pending: Requests, uid: int, x: Story) {
    (uid in pending <==> x.request.Some?) && (uid in pending ==> pending[uid] == x.request.value)
  }

  /** All of an app but its access statistics and the time of key registration. */
  ghost predicate TellsApp(apps: Apps, uid: int, x: Story) {
    var d := x.decision;
    && (uid in apps <==> x.status != UNKNOWN)
    && (uid in apps ==>
          Alike(apps[uid], App(uid, x.status, d.package, d.appLabel, d.firstSeen, d.decidedAt, 0, 0, x.key, 0)))
    && (uid !in apps ==> d == UNDECIDED && x.key == [])
  }

  lemma RequestStep(c: Config, s: Store, e: Event, uid: int, x: Story)
    requires !e.action.Restarted? && TellsRequest(s.pending, uid, x) && TellsApp(s.apps, uid, x)
    ensures TellsRequest(Change(c, s, e).pending, uid, NextStory(c, e, uid, x, |s.pending| < c.maxPending))
  {
    hide Increment, Register, Revoke, NextStatus, NextKey, NextDecision;
    if e.action.Registered? || e.action.Revoked? { OtherPending(c, s, e); }
  }

  lemma AppStep(c: Config, s: Store, e: Event, uid: int, x: Story)
    requires TellsRequest(s.pending, uid, x) && TellsApp(s.apps, uid, x)
    ensures TellsApp(Change(c, s, e).apps, uid, NextStory(c, e, uid, x, |s.pending| < c.maxPending))
  {
    hide Change, NextStory, TellsApp;
    match e.action
    case Authorized(_, _) => AuthorizeStep(c, s, e, uid, x);
    case Denied(_) => DenyStep(c, s, e, uid, x);
    case Accessed(_) => EntryStep(c, s, e, uid, x);
    case Revoked(_) => EntryStep(c, s, e, uid, x);
    case Registered(_, _) => EntryStep(c, s, e, uid, x);
    case _ => IdleStep(c, s, e, uid, x);
  }

  lemma AuthorizeStep(c: Config, s: Store, e: Event, uid: int, x: Story)
    requires e.action.Authorized? && TellsRequest(s.pending, uid, x) && TellsApp(s.apps, uid, x)
    ensures TellsApp(Change(c, s, e).apps, uid, NextStory(c, e, uid, x, |s.pending| < c.maxPending))
  {
    hide NextRequest;
  }

  lemma DenyStep(c: Config, s: Store, e: Event, uid: int, x: Story)
    requires e.action.Denied? && TellsApp(s.apps, uid, x)
    ensures TellsApp(Change(c, s, e).apps, uid, NextStory(c, e, uid, x, |s.pending| < c.maxPending))
  {
    hide NextRequest;
  }

  lemma EntryStep(c: Config, s: Store, e: Event, uid: int, x: Story)
    requires e.action.Accessed? || e.action.Revoked? || e.action.Registered?
    requires TellsApp(s.apps, uid, x)
    ensures TellsApp(Change(c, s, e).apps, uid, NextStory(c, e, uid, x, |s.pending| < c.maxPending))
  {
    hide NextRequest, Increment;
  }

  lemma IdleStep(c: Config, s: Store, e: Event, uid: int, x: Story)
    requires e.action.Asked? || e.action.Requested? || e.action.CleanedUp? || e.action.Restarted?
    requires TellsApp(s.apps, uid, x)
    ensures TellsApp(Change(c, s, e).apps, uid, NextStory(c, e, uid, x, |s.pending| < c.maxPending))
  {
    hide NextRequest, Live;
    assert Change(c, s, e).apps == s.apps;
  }

  lemma RestartStep(c: Config, s: Store, e: Event, uid: int, x: Story)
    requires Inv(s) && Fair(c, s, e) && e.action.Restarted? && TellsApp(s.apps, uid, x)
    ensures var t, y := Step(c, s, e), NextStory(c, e, uid, x, |s.pending| < c.maxPending);
            TellsRequest(t.pending, uid, y) && TellsApp(t.apps, uid, y)
  {
    hide Inv, LoadFrom, FileText, Lists, Saves, Typed, Named;
    RestartKeeps(c, s, e);
    if uid in s.apps { assert Alike(Step(c, s, e).apps[uid], s.apps[uid]); }
  }

  lemma StepChanges(c: Config, s: Store, e: Event)
    requires Possible(c, s, e) && !e.action.Restarted?
    ensures var t := Step(c, s, e); t.apps == Change(c, s, e).apps && t.pending == Change(c, s, e).pending
  {
    hide Change, FileText, Saves;
  }

  lemma StoryStart(uid: int)
    ensures var x := Story(UNKNOWN, [], UNDECIDED, None);
            TellsRequest(EMPTY.pending, uid, x) && TellsApp(EMPTY.apps, uid, x)
  {}

  lemma StoryStep(c: Config, s: Store, e: Event, uid: int, x: Story)
    requires TellsRequest(s.pending, uid, x) && TellsApp(s.apps, uid, x)
    requires Possible(c, s, e) && !e.action.Restarted?
    ensures var y := NextStory(c, e, uid, x, |s.pending| < c.maxPending);
            TellsRequest(Step(c, s, e).pending, uid, y) && TellsApp(Step(c, s, e).apps, uid, y)
  {
    hide Step, TellsRequest, TellsApp, NextStory, Change, Possible;
    RequestStep(c, s, e, uid, x);
    AppStep(c, s, e, uid, x);
    StepChanges(c, s, e);
  }

  /** In every typed run with plain names, restarts and crashes included: a uid is pending with the request that it made
      and that nothing has settled since; it is known exactly when there was a decision about it, with the status of the
      last one, the names and times of its authorization, and the first key registered while it was authorized. */
  lemma {:induction false} UidsTellStories(c: Config, states: seq<Store>, es: seq<Event>, i: nat, uid: int)
    requires IsRun(c, states, es) && i <= |es| && forall e :: e in es ==> Typed(e) && Named(Plain, e)
    ensures var x := StoryOf(c, states, es, i, uid);
            TellsRequest(states[i].pending, uid, x) && TellsApp(states[i].apps, uid, x)
  {
    hide Typed, Named, Possible, Step, Inv, TellsRequest, TellsApp, NextStory, Change;
    if i == 0 {
      StoryStart(uid);
    } else {
      var s, e, x := states[i - 1], es[i - 1], StoryOf(c, states, es, i - 1, uid);
      UidsTellStories(c, states, es, i - 1, uid);
      assert Possible(c, s, e) && states[i] == Step(c, s, e);
      assert e in es;
      if e.action.Restarted? {
        RunKeeps(c, states, es, i - 1);
        RestartStep(c, s, e, uid, x);
      } else {
        StoryStep(c, s, e, uid, x);
      }
    }
  }

  // ---- What a caller is told ------------------------------------------------------------------

  /** In every such run: access is granted exactly to a uid whose last decision was an authorization; a key is taken
      exactly from such a uid, as its first or as the same again; a request is taken exactly while none is pending,
      nothing was decided and there is room; a question is answered by the last decision, or else by the request that
      is pending. */
  lemma AnswersTellStories(
      c: Config, states: seq<Store>, es: seq<Event>, i: nat, uid: int, key: seq<byte>, r: Request, now: int)
    requires IsRun(c, states, es) && i <= |es| && forall e :: e in es ==> Typed(e) && Named(Plain, e)
    ensures var x := StoryOf(c, states, es, i, uid);
            var waiting := x.request.Some? && now - x.request.value.at <= c.timeout;
            && (Access(states[i], uid, now).0 <==> x.status == AUTHORIZED)
            && (Register(states[i], uid, key, now).0 <==> x.status == AUTHORIZED && (x.key == [] || x.key == key))
            && (RequestAuthorization(c, states[i], uid, r).0
                <==> x.request.None? && x.status !in {AUTHORIZED, DENIED} && |states[i].pending| < c.maxPending)
            && (x.status != UNKNOWN ==> Check(c, states[i], uid, now).0 == x.status)
            && (x.status == UNKNOWN ==> Check(c, states[i], uid, now).0 == if waiting then PENDING else UNKNOWN)
  {
    hide IsRun, Typed, Named, StoryOf, Increment;
    UidsTellStories(c, states, es, i, uid);
  }

  /** An access that is granted is counted, in 32 bits, with its time, until the next restart. */
  lemma AccessIsCounted(c: Config, states: seq<Store>, es: seq<Event>, i: nat, uid: int)
    requires IsRun(c, states, es) && i < |es| && !es[i].action.Restarted? && uid in states[i].apps
    ensures uid in states[i + 1].apps
    ensures var a, b, e := states[i].apps[uid], states[i + 1].apps[uid], es[i];
            var granted := e.action == Accessed(uid) && a.status == AUTHORIZED;
            && (b.count - a.count - (if granted then 1 else 0)) % 0x1_0000_0000 == 0
            && (-0x8000_0000 <= a.count < 0x8000_0000 ==> -0x8000_0000 <= b.count < 0x8000_0000)
            && b.lastAccess == if granted || Authorizes(e.action, uid) then e.at else a.lastAccess
  {
    hide Lists, FileText, Live;
    assert Possible(c, states[i], es[i]) && states[i + 1] == Step(c, states[i], es[i]);
  }
}
