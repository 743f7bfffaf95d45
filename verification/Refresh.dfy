/**
 Refresh-token rotation with whole calls atomic and a store that does not fail: the
 Manager as its callers see it, the grace window, and the end of a session.

 `AloneRunAgrees` ties this level to the store-step machine of module RefreshSteps.
 */
module Refresh {
  import opened Options
  import opened TokenStore
  import opened RefreshSteps

  /** A secret the manager draws is new: its hash has no row. */
  ghost predicate Fresh(rows: Table, next: Hash) { next !in rows }

  // ---------- one Rotate call ----------

  /** A token revoked by a rotation no older than the grace, from this address, in a living session. */
  predicate InGrace(rows: Table, t: Token, ip: string, now: Time) {
    GraceLooksRight(t, ip, now) && FamilyActive(rows, t.family, now)
  }

  /** The answer to a presentation. */
  function RotateAnswer(rows: Table, h: Hash, ip: string, now: Time, next: Hash): Answer {
    if h !in rows then Invalid
    else if rows[h].Live() then if now > rows[h].expiresAt then Invalid else Renewed(next, rows[h].user)
    else if InGrace(rows, rows[h], ip, now) then Renewed(next, rows[h].user)
    else ReuseDetected
  }

  /** The table a presentation leaves. */
  function RotateTable(rows: Table, h: Hash, ip: string, now: Time, next: Hash, expiresAt: Time): Table {
    match RotateAnswer(rows, h, ip, now, next)
    case Renewed(_, user) => Created(MarkedRotated(rows, h, now, ip), next, user, rows[h].family, expiresAt)
    case ReuseDetected => if h in rows then FamilyRevoked(rows, rows[h].family, now) else rows
    case _ => rows
  }

  class Manager {
    const store: DB
    const ttl: Time

    constructor (store: DB, ttl: Time)
      ensures this.store == store && this.ttl == ttl
    {
      this.store := store;
      this.ttl := ttl;
    }

    /** Issue: the first token of a new session.  `family` and `next` are what the random source draws. */
    method Issue(user: User, family: Family, next: Hash, now: Time) returns (r: Answer)
      requires Fresh(store.rows, next)
      modifies store
      ensures r == Renewed(next, user)
      ensures store.rows == Created(old(store.rows), next, user, family, now + ttl)
    {
      r := IssueInFamily(user, family, next, now);
    }

    method IssueInFamily(user: User, family: Family, next: Hash, now: Time) returns (r: Answer)
      modifies store
      ensures next !in old(store.rows) ==>
                r == Renewed(next, user) && store.rows == Created(old(store.rows), next, user, family, now + ttl)
      ensures next in old(store.rows) ==> r == StoreError && store.rows == old(store.rows)
    {
      var ok := store.Create(next, user, family, now + ttl);
      r := if ok then Renewed(next, user) else StoreError;
    }

    method CheckGrace(t: Token, ip: string, now: Time) returns (grace: bool)
      requires !t.Live()
      ensures grace <==> InGrace(store.rows, t, ip, now)
    {
      if t.rotatedAt.None? || t.revokedAt.value != t.rotatedAt.value || now - t.rotatedAt.value > ROTATION_GRACE {
        return false;
      }
      if ip == "" || t.rotatedIp != ip {
        return false;
      }
      grace := store.IsFamilyActive(t.family, now);
    }

    /**
     The conditional UPDATE of a token read as live.  The winner keeps what it read; a loser
     reads the row again, and what it finds is judged like any revoked token.
     */
    method Race(h: Hash, ip: string, now: Time, seen: Token) returns (t: Token)
      modifies store
      ensures store.rows == MarkedRotated(old(store.rows), h, now, ip)
      ensures WinsRotation(old(store.rows), h) ==> t == seen
      ensures !WinsRotation(old(store.rows), h) ==>
                t == if h in old(store.rows) then old(store.rows)[h] else NO_TOKEN
    {
      t := seen;
      var won := store.MarkRotated(h, now, ip);
      if !won {
        var again := store.FindByHash(h);
        t := if again.Some? then again.value else NO_TOKEN;
      }
    }

    /** `now` is the clock when the call decides, `later` when it dates the new token. */
    method Rotate(h: Hash, ip: string, now: Time, later: Time, next: Hash) returns (r: Answer)
      requires Fresh(store.rows, next)
      modifies store
      ensures r == RotateAnswer(old(store.rows), h, ip, now, next)
      ensures store.rows == RotateTable(old(store.rows), h, ip, now, next, later + ttl)
    {
      var lookup := store.FindByHash(h);
      if lookup.None? {
        return Invalid;
      }
      var found := lookup.value;
      if found.revokedAt.None? {
        if now > found.expiresAt {
          return Invalid;
        }
        found := Race(h, ip, now, found);
      }
      if found.revokedAt.Some? {
        var grace := CheckGrace(found, ip, now);
        if !grace {
          store.RevokeFamily(found.family, now);
          return ReuseDetected;
        }
      }
      r := IssueInFamily(found.user, found.family, next, later);
    }

    /** Logout: never an error, and the whole family ends. */
    method Revoke(h: Hash, now: Time)
      modifies store
      ensures h !in old(store.rows) ==> store.rows == old(store.rows)
      ensures h in old(store.rows) ==> store.rows == FamilyRevoked(old(store.rows), old(store.rows)[h].family, now)
    {
      var lookup := store.FindByHash(h);
      if lookup.Some? {
        store.RevokeFamily(lookup.value.family, now);
      }
    }
  }

  // ---------- agreement with the store-step machine ----------

  /** Call `c` takes up to `n` steps with no other call between them, and the store answers each. */
  function Alone(s: State, c: CallId, now: Time, expiresAt: Time, next: Hash, n: nat): (s': State)
    requires c in s.calls
    ensures c in s'.calls
    decreases n
  {
    if n == 0 || s.calls[c].Finished? then s
    else Alone(Apply(s, Step(c, if s.calls[c].Issuing? then expiresAt else now, next, Done)), c, now, expiresAt, next, n - 1)
  }

  /** The same, seen only as a table and one program counter. */
  function Solo(rows: Table, call: Call, now: Time, expiresAt: Time, next: Hash, n: nat): (Table, Call)
    decreases n
  {
    if n == 0 || call.Finished? then (rows, call)
    else
      var m := MoveOf(rows, call, if call.Issuing? then expiresAt else now, next);
      Solo(Run(rows, m.q), m.done, now, expiresAt, next, n - 1)
  }

  lemma {:induction false} AloneIsSolo(s: State, c: CallId, now: Time, expiresAt: Time, next: Hash, n: nat)
    requires c in s.calls
    ensures var end := Alone(s, c, now, expiresAt, next, n);
            (end.rows, end.calls[c]) == Solo(s.rows, s.calls[c], now, expiresAt, next, n)
    decreases n
  {
    if n != 0 && !s.calls[c].Finished? {
      var s' := Apply(s, Step(c, if s.calls[c].Issuing? then expiresAt else now, next, Done));
      AloneIsSolo(s', c, now, expiresAt, next, n - 1);
    }
  }

  lemma SoloAfterRead(rows: Table, h: Hash, ip: string, now: Time, expiresAt: Time, next: Hash)
    requires h in rows && Fresh(rows, next)
    ensures Solo(rows, Read(h, ip, rows[h]), now, expiresAt, next, 3)
            == (RotateTable(rows, h, ip, now, next, expiresAt), Finished(RotateAnswer(rows, h, ip, now, next)))
  {
  }

  /** A Rotate call that meets no other call does, step by step, what the atomic call does. */
  lemma AloneRunAgrees(s: State, c: CallId, now: Time, expiresAt: Time, next: Hash)
    requires c in s.calls && s.calls[c].Presented? && Fresh(s.rows, next)
    ensures var end := Alone(s, c, now, expiresAt, next, 4);
            && end.calls[c] == Finished(RotateAnswer(s.rows, s.calls[c].h, s.calls[c].ip, now, next))
            && end.rows == RotateTable(s.rows, s.calls[c].h, s.calls[c].ip, now, next, expiresAt)
  {
    var Presented(h, ip) := s.calls[c];
    AloneIsSolo(s, c, now, expiresAt, next, 4);
    var m := MoveOf(s.rows, s.calls[c], now, next);
    assert Solo(s.rows, s.calls[c], now, expiresAt, next, 4) == Solo(s.rows, m.done, now, expiresAt, next, 3);
    if h in s.rows {
      SoloAfterRead(s.rows, h, ip, now, expiresAt, next);
    }
  }

  /**
   A call that lost its race, however the table has moved since, is from there on judged like any
   presentation of a rotated token at the time it read: left alone it ends with that answer.
   */
  lemma LoserIsJudged(s: State, c: CallId, expiresAt: Time, next: Hash)
    requires c in s.calls && s.calls[c].LostRace? && s.calls[c].h in s.rows && !s.rows[s.calls[c].h].Live() && Fresh(s.rows, next)
    ensures var LostRace(h, ip, at) := s.calls[c];
            var end := Alone(s, c, at, expiresAt, next, 3);
            && end.calls[c] == Finished(RotateAnswer(s.rows, h, ip, at, next))
            && end.rows == RotateTable(s.rows, h, ip, at, next, expiresAt)
  {
    var LostRace(h, ip, at) := s.calls[c];
    AloneIsSolo(s, c, at, expiresAt, next, 3);
    SoloAfterLoss(s.rows, h, ip, at, expiresAt, next);
  }

  lemma SoloAfterLoss(rows: Table, h: Hash, ip: string, at: Time, expiresAt: Time, next: Hash)
    requires h in rows && !rows[h].Live() && Fresh(rows, next)
    ensures Solo(rows, LostRace(h, ip, at), at, expiresAt, next, 3)
            == (RotateTable(rows, h, ip, at, next, expiresAt), Finished(RotateAnswer(rows, h, ip, at, next)))
  {
  }

  /**
   A call that has read the row, whatever became of the row since, ends as if it had been made
   now, unless it found the token live but expired: then it is refused without another look.
   */
  lemma ReaderIsAnsweredAnew(s: State, c: CallId, now: Time, expiresAt: Time, next: Hash)
    requires CallsOk(s.rows, s.calls) && c in s.calls && s.calls[c].Read? && Fresh(s.rows, next)
    ensures var Read(h, ip, seen) := s.calls[c];
            var end := Alone(s, c, now, expiresAt, next, 4);
            if seen.Live() && now > seen.expiresAt then end.calls[c] == Finished(Invalid) && end.rows == s.rows
            else && end.calls[c] == Finished(RotateAnswer(s.rows, h, ip, now, next))
                 && end.rows == RotateTable(s.rows, h, ip, now, next, expiresAt)
  {
    var Read(h, ip, seen) := s.calls[c];
    assert CallOk(s.rows, s.calls[c]);
    AloneIsSolo(s, c, now, expiresAt, next, 4);
    SoloFromRead(s.rows, h, ip, seen, now, expiresAt, next);
  }

  lemma SoloFromRead(rows: Table, h: Hash, ip: string, seen: Token, now: Time, expiresAt: Time, next: Hash)
    requires CallOk(rows, Read(h, ip, seen)) && Fresh(rows, next)
    ensures Solo(rows, Read(h, ip, seen), now, expiresAt, next, 4) ==
            if seen.Live() && now > seen.expiresAt then (rows, Finished(Invalid))
            else (RotateTable(rows, h, ip, now, next, expiresAt), Finished(RotateAnswer(rows, h, ip, now, next)))
  {
    if !seen.Live() || rows[h].Live() {
      var m := MoveOf(rows, Read(h, ip, seen), now, next);
      assert Solo(rows, Read(h, ip, seen), now, expiresAt, next, 4) == Solo(Run(rows, m.q), m.done, now, expiresAt, next, 3);
    } else if now <= seen.expiresAt {
      assert Solo(rows, Read(h, ip, seen), now, expiresAt, next, 4) == Solo(rows, LostRace(h, ip, now), now, expiresAt, next, 3);
      SoloAfterLoss(rows, h, ip, now, expiresAt, next);
    }
  }

  /** A logout that nobody interleaves with does what Revoke does. */
  lemma AloneLogoutAgrees(s: State, c: CallId, h: Hash, now: Time)
    requires c !in s.calls
    ensures var begun := Apply(s, RefreshSteps.Logout(c, h));
            h !in s.rows ==> begun.rows == s.rows && begun.calls[c] == Finished(LoggedOut)
    ensures var begun := Apply(s, RefreshSteps.Logout(c, h));
            h in s.rows ==>
              && !begun.calls[c].Finished?
              && (forall next ::
                    var end := Apply(begun, Step(c, now, next, Done));
                    && end.calls[c] == Finished(LoggedOut)
                    && LiveIn(end.rows, s.rows[h].family) == {}
                    && forall k :: k in s.rows && s.rows[k].family != s.rows[h].family ==> k in end.rows && end.rows[k] == s.rows[k])
  {
  }

  // ---------- a token's life ----------

  /** A token is good until the very moment it was dated to expire at, and never after. */
  lemma GoodUntilExpiry(rows: Table, h: Hash, user: User, family: Family, expiresAt: Time, ip: string, now: Time, next: Hash)
    requires Fresh(rows, h) && next != h
    ensures RotateAnswer(Created(rows, h, user, family, expiresAt), h, ip, now, next)
            == if now <= expiresAt then Renewed(next, user) else Invalid
  {
  }

  /** A token that was ended on its own, not by a rotation, is a reuse from then on, from anywhere. */
  lemma EndedTokenIsReuse(rows: Table, h: Hash, at: Time, ip: string, now: Time, next: Hash)
    requires h in rows && rows[h].Live() && rows[h].rotatedAt.None?
    ensures RotateAnswer(TokenRevoked(rows, h, at), h, ip, now, next) == ReuseDetected
  {
  }

  // ---------- presentations of rotated tokens ----------

  /**
   A token that was rotated is accepted again exactly in the grace: no later than
   ROTATION_GRACE after its rotation, from the same non-empty address, in a session that
   still has an unexpired live token.  Any other presentation ends the session.
   */
  lemma RotatedTokenAnswer(rows: Table, h: Hash, ip: string, now: Time, next: Hash, expiresAt: Time)
    requires WellFormed(rows) && Fresh(rows, next) && h in rows && rows[h].rotatedAt.Some?
    ensures RotateAnswer(rows, h, ip, now, next).Renewed?
            <==> && now <= rows[h].rotatedAt.value + 30_000_000_000
                 && ip != "" && ip == rows[h].rotatedIp
                 && exists k :: k in rows && rows[k].family == rows[h].family && rows[k].revokedAt.None? && rows[k].expiresAt > now
    ensures !RotateAnswer(rows, h, ip, now, next).Renewed? ==>
              && RotateAnswer(rows, h, ip, now, next) == ReuseDetected
              && LiveIn(RotateTable(rows, h, ip, now, next, expiresAt), rows[h].family) == {}
    ensures RotateAnswer(rows, h, ip, now, next).Renewed? ==>
              LiveIn(RotateTable(rows, h, ip, now, next, expiresAt), rows[h].family)
              == LiveIn(rows, rows[h].family) + {next}
  {
  }

  // ---------- runs of whole calls ----------

  datatype Op =
    | Rotate(h: Hash, ip: string, now: Time, expiresAt: Time, next: Hash)
    | Logout(h: Hash, now: Time)
    | Login(next: Hash, user: User, family: Family, expiresAt: Time)
    | EndSessions(user: User, now: Time)

  ghost predicate Allowed(rows: Table, op: Op) {
    match op
    case Rotate(_, _, _, _, next) => Fresh(rows, next)
    case Login(next, _, family, _) => Fresh(rows, next) && !KnownFamily(rows, family)
    case _ => true
  }

  function Do(rows: Table, op: Op): Table {
    match op
    case Rotate(h, ip, now, expiresAt, next) => RotateTable(rows, h, ip, now, next, expiresAt)
    case Logout(h, now) => if h in rows then FamilyRevoked(rows, rows[h].family, now) else rows
    case Login(next, user, family, expiresAt) => Created(rows, next, user, family, expiresAt)
    case EndSessions(user, now) => UserRevoked(rows, user, now)
  }

  ghost predicate Runs(rows: Table, ops: seq<Op>)
    decreases |ops|
  {
    ops == [] || (Allowed(rows, ops[0]) && Runs(Do(rows, ops[0]), ops[1..]))
  }

  ghost function After(rows: Table, ops: seq<Op>): Table
    requires Runs(rows, ops)
    decreases |ops|
  {
    if ops == [] then rows else After(Do(rows, ops[0]), ops[1..])
  }

  lemma DoIsLater(rows: Table, op: Op)
    requires Allowed(rows, op)
    ensures Later(rows, Do(rows, op))
  {
  }

  lemma DoKeepsWellFormed(rows: Table, op: Op)
    requires Allowed(rows, op) && WellFormed(rows)
    ensures WellFormed(Do(rows, op))
  {
    match op
    case Rotate(h, ip, now, expiresAt, next) =>
      if RotateAnswer(rows, h, ip, now, next).Renewed? {
        RunKeepsWellFormed(rows, Mark(h, now, ip));
        RunKeepsWellFormed(MarkedRotated(rows, h, now, ip), Insert(next, rows[h].user, rows[h].family, expiresAt));
      }
    case _ =>
  }

  /** A family with rows, all revoked. */
  ghost predicate Over(rows: Table, f: Family) {
    KnownFamily(rows, f) && LiveIn(rows, f) == {}
  }

  lemma DoKeepsOver(rows: Table, op: Op, f: Family)
    requires Allowed(rows, op) && Over(rows, f)
    ensures Over(Do(rows, op), f)
  {
    DoIsLater(rows, op);
    KnownStays(rows, Do(rows, op), f);
    var now := Do(rows, op);
    forall h | h in now && now[h].family == f ensures !now[h].Live() {
      if h in rows {
        assert h !in LiveIn(rows, f);
        assert now[h].SameSession(rows[h]);
      } else if op.Rotate? {
        assert h == op.next && rows[op.h].family == f;
        assert op.h !in LiveIn(rows, f);
        NotActiveWhenOver(rows, f, op.now);
        assert false;
      }
    }
  }

  lemma NotActiveWhenOver(rows: Table, f: Family, now: Time)
    requires LiveIn(rows, f) == {}
    ensures !FamilyActive(rows, f, now)
  {
    forall k | k in rows && rows[k].family == f ensures !rows[k].Live() {
      assert k !in LiveIn(rows, f);
    }
  }

  /**
   Once a session is over, by logout or detected reuse, then after any further calls every
   presentation of any of its tokens, from anywhere, is answered ReuseDetected.
   */
  lemma {:induction false} SessionOverForGood(rows: Table, ops: seq<Op>, f: Family, h: Hash, ip: string, now: Time, next: Hash)
    requires Over(rows, f) && Runs(rows, ops)
    ensures var later := After(rows, ops);
            Over(later, f) && (h in later && later[h].family == f ==> RotateAnswer(later, h, ip, now, next) == ReuseDetected)
    decreases |ops|
  {
    if ops == [] {
      if h in rows && rows[h].family == f {
        assert h !in LiveIn(rows, f);
        NotActiveWhenOver(rows, f, now);
      }
    } else {
      DoKeepsOver(rows, ops[0], f);
      SessionOverForGood(Do(rows, ops[0]), ops[1..], f, h, ip, now, next);
    }
  }

  // ---------- the grace window ----------

  /**
   Tokens of `f` that a client at `ip` may present from `t0` until the grace after it ends:
   good for the whole window, or rotated from `ip` within it.
   */
  predicate Presentable(t: Token, f: Family, ip: string, t0: Time) {
    && t.family == f
    && (t.Live() ==> t.expiresAt > t0 + ROTATION_GRACE)
    && (!t.Live() ==> t.rotatedAt.Some? && t.revokedAt == t.rotatedAt && t.rotatedIp == ip && t0 <= t.rotatedAt.value)
  }

  /** The call is about another session, of another user where it names one. */
  ghost predicate Elsewhere(rows: Table, op: Op, f: Family) {
    match op
    case Rotate(h, _, _, _, _) => h in rows ==> rows[h].family != f
    case Logout(h, _) => h in rows ==> rows[h].family != f
    case Login(_, _, family, _) => family != f
    case EndSessions(user, _) => forall h :: h in rows && rows[h].family == f ==> rows[h].user != user
  }

  lemma ElsewhereLeavesSessionAlone(rows: Table, op: Op, f: Family, h: Hash)
    requires Allowed(rows, op) && Elsewhere(rows, op, f) && h in rows && rows[h].family == f
    ensures h in Do(rows, op) && Do(rows, op)[h] == rows[h]
  {
  }

  /**
   A call of the window: a client at `ip` presents a presentable token inside the window and
   receives one that outlives it, or the call is about another session.
   */
  ghost predicate InWindow(rows: Table, op: Op, f: Family, ip: string, t0: Time) {
    || Elsewhere(rows, op, f)
    || (op.Rotate? && op.h in rows && Presentable(rows[op.h], f, ip, t0) && op.ip == ip
        && t0 <= op.now <= t0 + ROTATION_GRACE && op.expiresAt > t0 + ROTATION_GRACE)
  }

  ghost predicate AllInWindow(rows: Table, ops: seq<Op>, f: Family, ip: string, t0: Time)
    requires Runs(rows, ops)
    decreases |ops|
  {
    ops == [] || (InWindow(rows, ops[0], f, ip, t0) && AllInWindow(Do(rows, ops[0]), ops[1..], f, ip, t0))
  }

  /** Every presentation of a token of `f` in the run is answered with a new token. */
  ghost predicate AllRenewed(rows: Table, ops: seq<Op>, f: Family)
    requires Runs(rows, ops)
    decreases |ops|
  {
    ops == [] ||
    (&& (ops[0].Rotate? && ops[0].h in rows && rows[ops[0].h].family == f ==>
           RotateAnswer(rows, ops[0].h, ops[0].ip, ops[0].now, ops[0].next) == Renewed(ops[0].next, rows[ops[0].h].user))
     && AllRenewed(Do(rows, ops[0]), ops[1..], f))
  }

  /** The session has a live token that outlives the window. */
  ghost predicate LastsTheWindow(rows: Table, f: Family, t0: Time) {
    exists h :: h in rows && rows[h].family == f && rows[h].Live() && rows[h].expiresAt > t0 + ROTATION_GRACE
  }

  lemma WindowStep(rows: Table, op: Op, f: Family, ip: string, t0: Time)
    requires ip != "" && Allowed(rows, op) && LastsTheWindow(rows, f, t0) && InWindow(rows, op, f, ip, t0)
    ensures op.Rotate? && op.h in rows && rows[op.h].family == f ==>
              RotateAnswer(rows, op.h, op.ip, op.now, op.next) == Renewed(op.next, rows[op.h].user)
    ensures LastsTheWindow(Do(rows, op), f, t0)
  {
    var k :| k in rows && rows[k].family == f && rows[k].Live() && rows[k].expiresAt > t0 + ROTATION_GRACE;
    var now := Do(rows, op);
    if Elsewhere(rows, op, f) {
      ElsewhereLeavesSessionAlone(rows, op, f, k);
    } else {
      assert FamilyActive(rows, f, op.now);
      assert now[op.next].Live() && now[op.next].family == f;
    }
  }

  /**
   Parallel requests of one browser: over any run of calls in the 30 seconds after `t0` in
   which session `f` is touched only by presentations of presentable tokens from one
   non-empty address, every one of those presentations is renewed, however often each
   token is presented.
   */
  lemma {:induction false} GraceWindow(rows: Table, ops: seq<Op>, f: Family, ip: string, t0: Time)
    requires ip != "" && Runs(rows, ops) && LastsTheWindow(rows, f, t0) && AllInWindow(rows, ops, f, ip, t0)
    ensures AllRenewed(rows, ops, f) && LastsTheWindow(After(rows, ops), f, t0)
    decreases |ops|
  {
    if ops != [] {
      WindowStep(rows, ops[0], f, ip, t0);
      GraceWindow(Do(rows, ops[0]), ops[1..], f, ip, t0);
    }
  }

  /** A token stays presentable through every call of the window, and so does each one handed out. */
  lemma StaysPresentable(rows: Table, op: Op, f: Family, ip: string, t0: Time, h: Hash)
    requires ip != "" && Allowed(rows, op) && LastsTheWindow(rows, f, t0) && InWindow(rows, op, f, ip, t0)
    requires h in rows && Presentable(rows[h], f, ip, t0)
    ensures h in Do(rows, op) && Presentable(Do(rows, op)[h], f, ip, t0)
    ensures op.Rotate? && op.h in rows && rows[op.h].family == f ==>
              op.next in Do(rows, op) && Presentable(Do(rows, op)[op.next], f, ip, t0)
  {
  }

  /** The first rotation of a good token opens the window, for the old token and the new one. */
  lemma RotationOpensWindow(rows: Table, h: Hash, ip: string, t0: Time, next: Hash, expiresAt: Time)
    requires Fresh(rows, next) && h in rows && rows[h].Live() && t0 <= rows[h].expiresAt
    requires expiresAt > t0 + ROTATION_GRACE
    ensures var now := RotateTable(rows, h, ip, t0, next, expiresAt);
            var f := rows[h].family;
            && RotateAnswer(rows, h, ip, t0, next) == Renewed(next, rows[h].user)
            && LastsTheWindow(now, f, t0)
            && Presentable(now[h], f, ip, t0) && Presentable(now[next], f, ip, t0)
  {
    var now := RotateTable(rows, h, ip, t0, next, expiresAt);
    assert now[next].Live() && now[next].family == rows[h].family;
  }

  /** One token, presented from one address within the grace of its rotation. */
  ghost predicate PresentsAgain(op: Op, h: Hash, ip: string, t0: Time) {
    op.Rotate? && op.h == h && op.ip == ip && t0 <= op.now <= t0 + ROTATION_GRACE && op.expiresAt > t0 + ROTATION_GRACE
  }

  /** Every call presents that token again, or is about another session. */
  ghost predicate AgainRun(rows: Table, ops: seq<Op>, h: Hash, f: Family, ip: string, t0: Time)
    requires Runs(rows, ops)
    decreases |ops|
  {
    ops == [] ||
    ((PresentsAgain(ops[0], h, ip, t0) || Elsewhere(rows, ops[0], f)) && AgainRun(Do(rows, ops[0]), ops[1..], h, f, ip, t0))
  }

  /** Any number of presentations of one token are all renewed, with calls about other sessions in between. */
  lemma {:induction false} ParallelPresentations(rows: Table, ops: seq<Op>, h: Hash, ip: string, t0: Time)
    requires ip != "" && Runs(rows, ops) && h in rows
    requires LastsTheWindow(rows, rows[h].family, t0) && Presentable(rows[h], rows[h].family, ip, t0)
    requires AgainRun(rows, ops, h, rows[h].family, ip, t0)
    ensures AllInWindow(rows, ops, rows[h].family, ip, t0)
    ensures AllRenewed(rows, ops, rows[h].family)
    decreases |ops|
  {
    if ops != [] {
      var f := rows[h].family;
      assert InWindow(rows, ops[0], f, ip, t0);
      WindowStep(rows, ops[0], f, ip, t0);
      StaysPresentable(rows, ops[0], f, ip, t0, h);
      ParallelPresentations(Do(rows, ops[0]), ops[1..], h, ip, t0);
    }
  }

  /** A presentation of one of the `known` tokens, from the address and in the window. */
  ghost predicate PresentsKnown(op: Op, known: set<Hash>, ip: string, t0: Time) {
    op.Rotate? && op.h in known && op.ip == ip && t0 <= op.now <= t0 + ROTATION_GRACE && op.expiresAt > t0 + ROTATION_GRACE
  }

  /** Every call presents a known token, each answer becoming known in turn, or is about another session. */
  ghost predicate DescendantRun(rows: Table, ops: seq<Op>, known: set<Hash>, f: Family, ip: string, t0: Time)
    requires Runs(rows, ops)
    decreases |ops|
  {
    ops == [] ||
    if PresentsKnown(ops[0], known, ip, t0) then DescendantRun(Do(rows, ops[0]), ops[1..], known + {ops[0].next}, f, ip, t0)
    else Elsewhere(rows, ops[0], f) && DescendantRun(Do(rows, ops[0]), ops[1..], known, f, ip, t0)
  }

  ghost predicate AllPresentable(rows: Table, known: set<Hash>, f: Family, ip: string, t0: Time) {
    forall h :: h in known ==> h in rows && Presentable(rows[h], f, ip, t0)
  }

  lemma KnownStayPresentable(rows: Table, op: Op, known: set<Hash>, f: Family, ip: string, t0: Time)
    requires ip != "" && Allowed(rows, op) && LastsTheWindow(rows, f, t0) && AllPresentable(rows, known, f, ip, t0)
    requires PresentsKnown(op, known, ip, t0) || Elsewhere(rows, op, f)
    ensures InWindow(rows, op, f, ip, t0)
    ensures AllPresentable(Do(rows, op), if PresentsKnown(op, known, ip, t0) then known + {op.next} else known, f, ip, t0)
  {
    assert InWindow(rows, op, f, ip, t0);
    forall h | h in known ensures h in Do(rows, op) && Presentable(Do(rows, op)[h], f, ip, t0) {
      StaysPresentable(rows, op, f, ip, t0, h);
    }
    if PresentsKnown(op, known, ip, t0) {
      StaysPresentable(rows, op, f, ip, t0, op.h);
    }
  }

  lemma {:induction false} KnownAreRenewed(rows: Table, ops: seq<Op>, known: set<Hash>, f: Family, ip: string, t0: Time)
    requires ip != "" && Runs(rows, ops) && LastsTheWindow(rows, f, t0) && AllPresentable(rows, known, f, ip, t0)
    requires DescendantRun(rows, ops, known, f, ip, t0)
    ensures AllRenewed(rows, ops, f)
    decreases |ops|
  {
    if ops != [] {
      KnownStayPresentable(rows, ops[0], known, f, ip, t0);
      WindowStep(rows, ops[0], f, ip, t0);
      KnownAreRenewed(Do(rows, ops[0]), ops[1..],
                      if PresentsKnown(ops[0], known, ip, t0) then known + {ops[0].next} else known, f, ip, t0);
    }
  }

  /**
   Parallel requests, from the rotation that begins them: the token that was rotated, the one it
   was exchanged for and every one handed out for these, presented any number of times and in any
   order within the grace and from the same address, are all renewed, with calls about other
   sessions in between.
   */
  lemma DescendantsAreRenewed(rows: Table, h: Hash, ip: string, t0: Time, next: Hash, expiresAt: Time, ops: seq<Op>)
    requires ip != "" && Fresh(rows, next) && h in rows && rows[h].Live() && t0 <= rows[h].expiresAt
    requires expiresAt > t0 + ROTATION_GRACE
    requires Runs(RotateTable(rows, h, ip, t0, next, expiresAt), ops)
    requires DescendantRun(RotateTable(rows, h, ip, t0, next, expiresAt), ops, {h, next}, rows[h].family, ip, t0)
    ensures RotateAnswer(rows, h, ip, t0, next) == Renewed(next, rows[h].user)
    ensures AllRenewed(RotateTable(rows, h, ip, t0, next, expiresAt), ops, rows[h].family)
  {
    RotationOpensWindow(rows, h, ip, t0, next, expiresAt);
    KnownAreRenewed(RotateTable(rows, h, ip, t0, next, expiresAt), ops, {h, next}, rows[h].family, ip, t0);
  }

  // ---------- a sole client ----------

  /** A turn of the service: the client renews the token it holds, or somebody else's session moves. */
  datatype Turn = Mine(ip: string, now: Time, expiresAt: Time, next: Hash) | Others(op: Op)

  function TurnOp(held: Hash, turn: Turn): Op {
    match turn
    case Mine(ip, now, expiresAt, next) => Rotate(held, ip, now, expiresAt, next)
    case Others(op) => op
  }

  /** A client that stores each token it is answered with, and loses no answer. */
  function HeldAfter(rows: Table, held: Hash, turn: Turn): Hash {
    if turn.Mine? && RotateAnswer(rows, held, turn.ip, turn.now, turn.next).Renewed? then turn.next else held
  }

  ghost predicate SoleClient(rows: Table, held: Hash, f: Family, turns: seq<Turn>)
    decreases |turns|
  {
    turns == [] ||
    (&& Allowed(rows, TurnOp(held, turns[0]))
     && (turns[0].Others? ==> Elsewhere(rows, turns[0].op, f))
     && SoleClient(Do(rows, TurnOp(held, turns[0])), HeldAfter(rows, held, turns[0]), f, turns[1..]))
  }

  ghost predicate NeverReuse(rows: Table, held: Hash, turns: seq<Turn>)
    decreases |turns|
  {
    turns == [] ||
    (&& (turns[0].Mine? ==> RotateAnswer(rows, held, turns[0].ip, turns[0].now, turns[0].next) != ReuseDetected)
     && NeverReuse(Do(rows, TurnOp(held, turns[0])), HeldAfter(rows, held, turns[0]), turns[1..]))
  }

  /** Such a client never triggers reuse detection, at any times and from any addresses. */
  lemma {:induction false} SoleClientNeverReuses(rows: Table, held: Hash, f: Family, turns: seq<Turn>)
    requires held in rows && rows[held].Live() && rows[held].family == f && SoleClient(rows, held, f, turns)
    ensures NeverReuse(rows, held, turns)
    decreases |turns|
  {
    if turns != [] {
      if turns[0].Others? {
        ElsewhereLeavesSessionAlone(rows, turns[0].op, f, held);
      }
      SoleClientNeverReuses(Do(rows, TurnOp(held, turns[0])), HeldAfter(rows, held, turns[0]), f, turns[1..]);
    }
  }

  /**
   A client whose answer was lost retries with the token that was rotated at `t0`: it is
   renewed exactly within the grace and from the same non-empty address.
   */
  lemma RetryAfterLostAnswer(rows: Table, h: Hash, ip: string, t0: Time, lost: Hash, expiresAt: Time,
                             ip': string, t1: Time, next: Hash)
    requires Fresh(rows, lost) && Fresh(rows, next) && next != lost
    requires h in rows && rows[h].Live() && t0 <= rows[h].expiresAt && expiresAt > t0 + ROTATION_GRACE
    ensures var now := RotateTable(rows, h, ip, t0, lost, expiresAt);
            RotateAnswer(now, h, ip', t1, next).Renewed?
            <==> t1 <= t0 + ROTATION_GRACE && ip' != "" && ip' == ip
  {
    var now := RotateTable(rows, h, ip, t0, lost, expiresAt);
    if t1 <= t0 + ROTATION_GRACE {
      assert now[lost].Live() && now[lost].family == now[h].family && now[lost].expiresAt > t1;
    }
  }
}
