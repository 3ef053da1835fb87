/** Pending challenges and the single active session (daemon/core/auth/session_manager.cpp and .h).
    The session key, the random bytes and the time are inputs. */
module Sessions {
  import opened Bytes
  import opened Crypto

  datatype Session = Session(instance: string, createdAt: int, lastActivity: int, uid: int)

  datatype Pending = Pending(masked: seq<byte>, nonce: seq<byte>, createdAt: int)

  datatype State = State(session: Option<Session>, pending: map<int, Pending>)

  const EMPTY := State(None, map[])

  const SESSION_TIMEOUT := 300000
  const CHALLENGE_TIMEOUT := 30000

  predicate Expired(s: Session, now: int) { now - s.lastActivity > SESSION_TIMEOUT }

  predicate ChallengeExpired(c: Pending, now: int) { now - c.createdAt > CHALLENGE_TIMEOUT }

  // ---- Challenges -----------------------------------------------------------------------------

  /** Exclusive-or with the stream derived from the session key and a nonce. */
  function Mask(p: Primitives, key: Digest, data: seq<byte>, nonce: seq<byte>): seq<byte> {
    var stream := p.sha256(key + nonce);
    seq(|data|, i requires 0 <= i < |data| => Xor(data[i], stream[i % 32]))
  }

  lemma MaskInvolutive(p: Primitives, key: Digest, data: seq<byte>, nonce: seq<byte>)
    ensures Mask(p, key, Mask(p, key, data, nonce), nonce) == data
  {
    hide Xor;
    var stream := p.sha256(key + nonce);
    forall i | 0 <= i < |data| ensures Xor(Xor(data[i], stream[i % 32]), stream[i % 32]) == data[i] {
      XorInvolutive(data[i], stream[i % 32]);
    }
  }

  /** What is stored differs from what was issued by just the hash of session key and nonce, over and over. */
  lemma MaskIsHash(p: Primitives, key: Digest, data: seq<byte>, nonce: seq<byte>, i: nat)
    requires i < |data|
    ensures |Mask(p, key, data, nonce)| == |data|
    ensures Xor(Mask(p, key, data, nonce)[i], data[i]) == p.sha256(key + nonce)[i % 32]
  {
    hide Xor;
    XorShows(data[i], p.sha256(key + nonce)[i % 32]);
  }

  /** `create_challenge`; random bytes that could not be generated are empty. */
  function CreateChallenge(
      p: Primitives, key: Digest, s: State, uid: int, challenge: seq<byte>, nonce: seq<byte>, now: int): State
  {
    if challenge == [] || nonce == [] then s
    else s.(pending := s.pending[uid := Pending(Mask(p, key, challenge, nonce), nonce, now)])
  }

  function PendingChallenge(p: Primitives, key: Digest, s: State, uid: int, now: int): Option<seq<byte>> {
    if uid !in s.pending || ChallengeExpired(s.pending[uid], now) then None
    else Some(Mask(p, key, s.pending[uid].masked, s.pending[uid].nonce))
  }

  function ClearChallenge(s: State, uid: int): State { s.(pending := s.pending - {uid}) }

  /** The challenge handed out is the one read back, until it expires. */
  lemma ChallengeComesBack(
      p: Primitives, key: Digest, s: State, uid: int, challenge: seq<byte>, nonce: seq<byte>, now: int, later: int)
    requires challenge != [] && nonce != []
    ensures PendingChallenge(p, key, CreateChallenge(p, key, s, uid, challenge, nonce, now), uid, later)
         == if later - now > CHALLENGE_TIMEOUT then None else Some(challenge)
  {
    MaskInvolutive(p, key, challenge, nonce);
    hide Mask;
  }

  /** `validate_challenge`: an expired challenge is dropped. */
  function ValidateChallenge(
      p: Primitives, key: Digest, s: State, uid: int, challenge: seq<byte>, now: int): (bool, State)
  {
    if uid !in s.pending then (false, s)
    else if ChallengeExpired(s.pending[uid], now) then (false, ClearChallenge(s, uid))
    else
      var c := Mask(p, key, s.pending[uid].masked, s.pending[uid].nonce);
      (c != [] && c == challenge, s)
  }

  /** The only challenge that validates is the one handed out, until it expires. */
  lemma OnlyIssuedValidates(
      p: Primitives, key: Digest, s: State, uid: int, issued: seq<byte>, nonce: seq<byte>, now: int,
      offered: seq<byte>, later: int)
    requires issued != [] && nonce != []
    ensures ValidateChallenge(p, key, CreateChallenge(p, key, s, uid, issued, nonce, now), uid, offered, later).0
       <==> later - now <= CHALLENGE_TIMEOUT && offered == issued
  {
    MaskInvolutive(p, key, issued, nonce);
    hide Mask;
  }

  // ---- Sessions -------------------------------------------------------------------------------

  /** `create_session`: the same instance refreshes its session, whoever asks; another instance is
      refused while the session lives. */
  function Create(s: State, instance: string, uid: int, now: int): (bool, State) {
    if s.session.Some? && s.session.value.instance == instance then
      (true, s.(session := Some(s.session.value.(lastActivity := now))))
    else if s.session.Some? && !Expired(s.session.value, now) then (false, s)
    else (true, s.(session := Some(Session(instance, now, now, uid))))
  }

  function Validate(s: State, instance: string, uid: int, now: int): (bool, State) {
    if s.session.None? || s.session.value.instance != instance || s.session.value.uid != uid then (false, s)
    else if Expired(s.session.value, now) then (false, s.(session := None))
    else (true, s)
  }

  function Touch(s: State, instance: string, now: int): State {
    if s.session.Some? && s.session.value.instance == instance
    then s.(session := Some(s.session.value.(lastActivity := now))) else s
  }

  function Invalidate(s: State, instance: string): State {
    if s.session.Some? && s.session.value.instance == instance then s.(session := None) else s
  }

  datatype Status = Status(active: bool, own: bool, remaining: int)

  function CheckStatus(s: State, instance: string, uid: int, now: int): (Status, State) {
    if s.session.None? then (Status(false, false, 0), s)
    else
      var x := s.session.value;
      if Expired(x, now) then (Status(false, false, 0), s.(session := None))
      else
        var left := SESSION_TIMEOUT - (now - x.lastActivity);
        (Status(true, x.instance == instance && x.uid == uid, if left > 0 then left else 0), s)
  }

  function Active(s: State, now: int): Option<Session> {
    if s.session.Some? && !Expired(s.session.value, now) then s.session else None
  }

  /** What a status tells: whether there is a live session, whether validation would pass, and for how much longer
      the session lives if nothing touches it. An expired session is gone afterwards. */
  lemma StatusMeans(s: State, instance: string, uid: int, now: int, d: int)
    ensures var (status, t) := CheckStatus(s, instance, uid, now);
            && (status.active <==> Active(s, now).Some?) && t == s.(session := Active(s, now))
            && (status.own <==> Validate(s, instance, uid, now).0)
            && (status.active ==> (d <= status.remaining <==> Active(s, now + d).Some?))
  {}

  function Live(pending: map<int, Pending>, now: int): map<int, Pending> {
    map uid | uid in pending && !ChallengeExpired(pending[uid], now) :: pending[uid]
  }

  function Cleanup(s: State, now: int): State {
    State(Active(s, now), Live(s.pending, now))
  }

  // ---- The code -------------------------------------------------------------------------------

  method MaskBytes(p: Primitives, key: Digest, data: seq<byte>, nonce: seq<byte>) returns (r: seq<byte>)
    ensures r == Mask(p, key, data, nonce)
  {
    hide Xor;
    var stream := p.sha256(key + nonce);
    r := [];
    for i := 0 to |data|
      invariant r == Mask(p, key, data, nonce)[..i]
    {
      r := r + [Xor(data[i], stream[i % |stream|])];
    }
  }

  /** Erase the expired challenges one by one, in any order. */
  method DropExpired(pending: map<int, Pending>, now: int) returns (r: map<int, Pending>)
    ensures r == Live(pending, now)
  {
    r := pending;
    var todo := pending.Keys;
    while todo != {}
      invariant todo <= pending.Keys
      invariant r == map uid | uid in pending && (uid in todo || !ChallengeExpired(pending[uid], now)) :: pending[uid]
      decreases |todo|
    {
      assert (forall x :: x !in todo) ==> todo == {};
      var uid :| uid in todo;
      todo := todo - {uid};
      if ChallengeExpired(r[uid], now) { r := r - {uid}; }
    }
  }

  class SessionManager {
    const primitives: Primitives
    const key: Digest
    var session: Option<Session>
    var pending: map<int, Pending>

    ghost function View(): State
      reads this
    {
      State(session, pending)
    }

    constructor (primitives: Primitives, key: Digest)
      ensures this.primitives == primitives && this.key == key && View() == EMPTY
    {
      this.primitives, this.key := primitives, key;
      session, pending := None, map[];
    }

    method IssueChallenge(uid: int, challenge: seq<byte>, nonce: seq<byte>, now: int) returns (r: seq<byte>)
      modifies this
      ensures View() == CreateChallenge(primitives, key, old(View()), uid, challenge, nonce, now)
      ensures r == if nonce == [] then [] else challenge
    {
      if challenge == [] || nonce == [] { return []; }
      var masked := MaskBytes(primitives, key, challenge, nonce);
      pending := pending[uid := Pending(masked, nonce, now)];
      r := challenge;
    }

    method GetPendingChallenge(uid: int, now: int) returns (r: Option<seq<byte>>)
      ensures r == PendingChallenge(primitives, key, View(), uid, now)
    {
      if uid !in pending || ChallengeExpired(pending[uid], now) { return None; }
      var c := MaskBytes(primitives, key, pending[uid].masked, pending[uid].nonce);
      r := Some(c);
    }

    method CheckChallenge(uid: int, challenge: seq<byte>, now: int) returns (ok: bool)
      modifies this
      ensures (ok, View()) == ValidateChallenge(primitives, key, old(View()), uid, challenge, now)
    {
      hide Mask;
      if uid !in pending { return false; }
      if ChallengeExpired(pending[uid], now) {
        pending := pending - {uid};
        return false;
      }
      var c := MaskBytes(primitives, key, pending[uid].masked, pending[uid].nonce);
      if c == [] { return false; }
      ok := ConstantTimeCompare(c, challenge);
    }

    method ConsumeChallenge(uid: int)
      modifies this
      ensures View() == ClearChallenge(old(View()), uid)
    {
      pending := pending - {uid};
    }

    method CreateSession(instance: string, uid: int, now: int) returns (ok: bool)
      modifies this
      ensures (ok, View()) == Create(old(View()), instance, uid, now)
    {
      if session.Some? {
        if session.value.instance == instance {
          session := Some(session.value.(lastActivity := now));
          return true;
        }
        if !Expired(session.value, now) { return false; }
      }
      session := Some(Session(instance, now, now, uid));
      ok := true;
    }

    method ValidateSession(instance: string, uid: int, now: int) returns (ok: bool)
      modifies this
      ensures (ok, View()) == Validate(old(View()), instance, uid, now)
    {
      if session.None? { return false; }
      if session.value.instance != instance { return false; }
      if session.value.uid != uid { return false; }
      if Expired(session.value, now) {
        session := None;
        return false;
      }
      ok := true;
    }

    method UpdateActivity(instance: string, now: int)
      modifies this
      ensures View() == Touch(old(View()), instance, now)
    {
      if session.Some? && session.value.instance == instance {
        session := Some(session.value.(lastActivity := now));
      }
    }

    method InvalidateSession(instance: string)
      modifies this
      ensures View() == Invalidate(old(View()), instance)
    {
      if session.Some? && session.value.instance == instance { session := None; }
    }

    method InvalidateAllSessions()
      modifies this
      ensures View() == EMPTY
    {
      session, pending := None, map[];
    }

    method CheckSession(instance: string, uid: int, now: int) returns (r: Status)
      modifies this
      ensures (r, View()) == CheckStatus(old(View()), instance, uid, now)
    {
      if session.None? { return Status(false, false, 0); }
      var x := session.value;
      if Expired(x, now) {
        session := None;
        return Status(false, false, 0);
      }
      var left := SESSION_TIMEOUT - (now - x.lastActivity);
      r := Status(true, x.instance == instance && x.uid == uid, if left > 0 then left else 0);
    }

    method GetActiveSession(now: int) returns (r: Option<Session>)
      ensures r == Active(View(), now)
    {
      if session.None? { return None; }
      if Expired(session.value, now) { return None; }
      r := session;
    }

    method CleanupExpired(now: int)
      modifies this
      ensures View() == Cleanup(old(View()), now)
    {
      if session.Some? && Expired(session.value, now) { session := None; }
      pending := DropExpired(pending, now);
    }
  }
}
