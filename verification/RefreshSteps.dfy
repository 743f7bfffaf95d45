/**
 Refresh-token rotation at the granularity of single store calls.

 Any number of Rotate and Revoke calls are in flight; each carries a program counter and
 the values it has read, and every store call is one atomic step that may also fail,
 either before or after taking effect.  Clocks are not trusted: each step reads any time.
 */
module RefreshSteps {
  import opened Options
  import opened Sets
  import opened TokenStore

  const ROTATION_GRACE: Time := 30_000_000_000

  type CallId = nat

  datatype Answer = Renewed(secret: Hash, user: User) | Invalid | ReuseDetected | LoggedOut | StoreError

  datatype Call =
    | Presented(h: Hash, ip: string)                  // about to look the hash up
    | Read(h: Hash, ip: string, seen: Token)          // the row as it was read
    | LostRace(h: Hash, ip: string, now: Time)        // the UPDATE touched no row: about to read again
    | AskingActive(user: User, family: Family, now: Time)   // in grace if the session is alive
    | EndingSession(family: Family, now: Time)        // reuse: about to revoke the family
    | Issuing(user: User, family: Family)             // decided: about to insert the new token
    | LoggingOut(family: Family)                      // Revoke found the token's family
    | Finished(answer: Answer)

  /** What the store does with one call: an error may be reported before or after the effect. */
  datatype Outcome = Done | FailedBefore | FailedAfter

  datatype Event =
    | Login(next: Hash, user: User, family: Family, expiresAt: Time)
    | Present(c: CallId, h: Hash, ip: string)
    | Logout(c: CallId, h: Hash)
    | Step(c: CallId, now: Time, next: Hash, outcome: Outcome)
    | EndUserSessions(user: User, now: Time)
    | RevokeToken(h: Hash, now: Time)

  /** `wins` and `graces` record, for the statements below, every race won and every grace granted. */
  datatype State = State(rows: Table, calls: map<CallId, Call>, wins: multiset<Hash>, graces: multiset<Family>)

  const INITIAL := State(map[], map[], multiset{}, multiset{})

  /** What the source's zero Token holds when a second read finds no row. */
  const NO_TOKEN := Token(0, 0, 0, None, None, "")

  predicate GraceLooksRight(t: Token, ip: string, now: Time) {
    && t.rotatedAt.Some? && t.revokedAt == t.rotatedAt && now - t.rotatedAt.value <= ROTATION_GRACE
    && ip != "" && t.rotatedIp == ip
  }

  /** The test on a revoked token: ask whether the session is alive, or end it. */
  function Judged(t: Token, ip: string, now: Time): Call {
    if GraceLooksRight(t, ip, now) then AskingActive(t.user, t.family, now) else EndingSession(t.family, now)
  }

  // ---------- one step of one call ----------

  /** The statement a step sends, and where the call goes with each of the store's replies. */
  datatype Move = Move(q: Statement, done: Call, failed: Call)

  function MoveOf(rows: Table, call: Call, now: Time, next: Hash): Move
    requires !call.Finished?
  {
    match call
    case Presented(h, ip) =>
      Move(Nothing, if h in rows then Read(h, ip, rows[h]) else Finished(Invalid), Finished(StoreError))
    case Read(h, ip, seen) =>
      if !seen.Live() then Move(Nothing, Judged(seen, ip, now), Judged(seen, ip, now))
      else if now > seen.expiresAt then Move(Nothing, Finished(Invalid), Finished(Invalid))
      else Move(Mark(h, now, ip),
                if WinsRotation(rows, h) then Issuing(seen.user, seen.family) else LostRace(h, ip, now),
                Finished(StoreError))
    case LostRace(h, ip, at) =>
      var again := if h in rows then rows[h] else NO_TOKEN;
      Move(Nothing, if again.Live() then Issuing(again.user, again.family) else Judged(again, ip, at),
           Finished(StoreError))
    case AskingActive(user, f, at) =>
      Move(Nothing, if FamilyActive(rows, f, at) then Issuing(user, f) else EndingSession(f, at),
           EndingSession(f, at))
    case EndingSession(f, at) => Move(EndFamily(f, at), Finished(ReuseDetected), Finished(StoreError))
    case Issuing(user, f) => Move(Insert(next, user, f, now), Finished(Renewed(next, user)), Finished(StoreError))
    case LoggingOut(f) => Move(EndFamily(f, now), Finished(LoggedOut), Finished(StoreError))
  }

  // ---------- all steps ----------

  /** Secrets and family ids are random: a new one was never used. */
  ghost predicate Enabled(s: State, e: Event) {
    match e
    case Login(next, _, family, _) => next !in s.rows && !KnownFamily(s.rows, family)
    case Present(c, _, _) => c !in s.calls
    case Logout(c, _) => c !in s.calls
    case Step(c, _, next, _) => c in s.calls && !s.calls[c].Finished? && next !in s.rows
    case EndUserSessions(_, _) => true
    case RevokeToken(_, _) => true
  }

  /** The statement that event `e` runs. */
  function StatementOf(s: State, e: Event): Statement
    requires e.Step? ==> e.c in s.calls && !s.calls[e.c].Finished?
  {
    match e
    case Login(next, user, family, expiresAt) => Insert(next, user, family, expiresAt)
    case Step(c, now, next, outcome) =>
      if outcome.FailedBefore? then Nothing else MoveOf(s.rows, s.calls[c], now, next).q
    case EndUserSessions(user, now) => EndUser(user, now)
    case RevokeToken(h, now) => EndToken(h, now)
    case _ => Nothing
  }

  function CallsAfter(s: State, e: Event): map<CallId, Call>
    requires e.Step? ==> e.c in s.calls && !s.calls[e.c].Finished?
  {
    match e
    case Present(c, h, ip) => s.calls[c := Presented(h, ip)]
    case Logout(c, h) => s.calls[c := if h in s.rows then LoggingOut(s.rows[h].family) else Finished(LoggedOut)]
    case Step(c, now, next, outcome) =>
      var m := MoveOf(s.rows, s.calls[c], now, next);
      s.calls[c := if outcome.Done? then m.done else m.failed]
    case _ => s.calls
  }

  /** The call passes its grace test at this very step. */
  predicate GrantsGrace(s: State, e: Event)
    requires e.Step? ==> e.c in s.calls && !s.calls[e.c].Finished?
  {
    && e.Step? && e.outcome.Done? && s.calls[e.c].AskingActive?
    && FamilyActive(s.rows, s.calls[e.c].family, s.calls[e.c].now)
  }

  function Apply(s: State, e: Event): State
    requires e.Step? ==> e.c in s.calls && !s.calls[e.c].Finished?
  {
    var q := StatementOf(s, e);
    State(Run(s.rows, q),
          CallsAfter(s, e),
          if q.Mark? && WinsRotation(s.rows, q.h) then s.wins + multiset{q.h} else s.wins,
          if GrantsGrace(s, e) then s.graces + multiset{s.calls[e.c].family} else s.graces)
  }

  ghost predicate Valid(s: State, run: seq<Event>)
    decreases |run|
  {
    run == [] || (Enabled(s, run[0]) && Valid(Apply(s, run[0]), run[1..]))
  }

  ghost function Exec(s: State, run: seq<Event>): State
    requires Valid(s, run)
    decreases |run|
  {
    if run == [] then s else Exec(Apply(s, run[0]), run[1..])
  }

  // ---------- the invariant ----------

  ghost predicate Owned(rows: Table, user: User, f: Family) {
    exists h :: h in rows && rows[h].user == user && rows[h].family == f
  }

  ghost predicate CallOk(rows: Table, call: Call) {
    match call
    case Read(h, _, seen) =>
      h in rows && rows[h].SameSession(seen) && (!seen.Live() ==> rows[h] == seen)
    case LostRace(h, _, _) => h in rows && !rows[h].Live()
    case AskingActive(user, f, _) => Owned(rows, user, f)
    case Issuing(user, f) => Owned(rows, user, f)
    case _ => true
  }

  function IssuingIn(calls: map<CallId, Call>, f: Family): set<CallId> {
    set c | c in calls && calls[c].Issuing? && calls[c].family == f
  }

  /** Live tokens of a family, plus the calls that are about to insert one. */
  function Credits(s: State, f: Family): nat {
    |LiveIn(s.rows, f)| + |IssuingIn(s.calls, f)|
  }

  ghost predicate CallsOk(rows: Table, calls: map<CallId, Call>) {
    forall c :: c in calls ==> CallOk(rows, calls[c])
  }

  ghost predicate WinsOk(s: State) {
    forall h :: s.wins[h] <= 1 && (s.wins[h] == 1 ==> h in s.rows && !s.rows[h].Live())
  }

  ghost predicate Inv(s: State) {
    && WellFormed(s.rows)
    && CallsOk(s.rows, s.calls)
    && WinsOk(s)
    && (forall f :: Credits(s, f) <= 1 + s.graces[f])
  }

  lemma CallStaysOk(before: Table, now: Table, call: Call)
    requires Later(before, now) && CallOk(before, call)
    ensures CallOk(now, call)
  {
  }

  lemma OwnedStays(before: Table, now: Table, user: User, f: Family)
    requires Later(before, now) && Owned(before, user, f)
    ensures Owned(now, user, f)
  {
  }

  /** Wherever a call goes next, what it carries is true of the table its statement leaves. */
  lemma MoveStaysOk(rows: Table, call: Call, now: Time, next: Hash)
    requires !call.Finished? && CallOk(rows, call)
    ensures var m := MoveOf(rows, call, now, next);
            CallOk(Run(rows, m.q), m.done) && CallOk(rows, m.failed) && CallOk(Run(rows, m.q), m.failed)
  {
    var m := MoveOf(rows, call, now, next);
    RunIsLater(rows, m.q);
    match call
    case Read(h, ip, seen) =>
      assert Owned(rows, seen.user, seen.family);
      OwnedStays(rows, Run(rows, m.q), seen.user, seen.family);
    case LostRace(h, ip, at) => assert Owned(rows, rows[h].user, rows[h].family);
    case AskingActive(user, f, at) => CallStaysOk(rows, Run(rows, m.q), call);
    case _ =>
  }

  /** A family that never had a row has no live token and no call about to insert one. */
  lemma UnknownFamilyHasNoCredit(s: State, f: Family)
    requires CallsOk(s.rows, s.calls) && !KnownFamily(s.rows, f)
    ensures Credits(s, f) == 0
  {
  }

  /** Replacing one call's counter moves it in or out of the set of inserting calls. */
  lemma IssuingAfter(calls: map<CallId, Call>, c: CallId, call: Call, g: Family)
    ensures IssuingIn(calls[c := call], g) ==
            if call.Issuing? && call.family == g then IssuingIn(calls, g) + {c} else IssuingIn(calls, g) - {c}
  {
  }

  /** An insert is owed by a call in `Issuing`; a call gets there by winning the race or by grace. */
  lemma WhoIssues(s: State, e: Event)
    requires CallsOk(s.rows, s.calls) && Enabled(s, e) && e.Step?
    ensures var q := StatementOf(s, e);
            var before, after := s.calls[e.c], CallsAfter(s, e)[e.c];
            && (q.Insert? ==> before.Issuing? && q == Insert(e.next, before.user, before.family, e.now))
            && (before.Issuing? ==> !after.Issuing?)
            && (after.Issuing? ==>
                  || (q.Mark? && WinsRotation(s.rows, q.h) && s.rows[q.h].family == after.family)
                  || (q.Nothing? && GrantsGrace(s, e) && before.family == after.family))
            && (GrantsGrace(s, e) ==> after.Issuing?)
  {
  }

  lemma StepKeepsWellFormed(s: State, e: Event)
    requires Inv(s) && Enabled(s, e)
    ensures WellFormed(Apply(s, e).rows)
  {
    var q := StatementOf(s, e);
    if q.Insert? && e.Step? {
      WhoIssues(s, e);
      assert CallOk(s.rows, s.calls[e.c]);
    }
    RunKeepsWellFormed(s.rows, q);
  }

  lemma StepKeepsCalls(s: State, e: Event)
    requires CallsOk(s.rows, s.calls) && Enabled(s, e)
    ensures CallsOk(Apply(s, e).rows, Apply(s, e).calls)
  {
    var q, calls := StatementOf(s, e), CallsAfter(s, e);
    RunIsLater(s.rows, q);
    forall c | c in calls ensures CallOk(Run(s.rows, q), calls[c]) {
      if e.Step? && c == e.c {
        MoveStaysOk(s.rows, s.calls[c], e.now, e.next);
      } else if c in s.calls && calls[c] == s.calls[c] {
        CallStaysOk(s.rows, Run(s.rows, q), calls[c]);
      }
    }
  }

  lemma StepKeepsWins(s: State, e: Event)
    requires WinsOk(s) && Enabled(s, e)
    ensures WinsOk(Apply(s, e))
  {
    RunIsLater(s.rows, StatementOf(s, e));
  }

  /** The heart of conservation: one step never moves a family's credits past its bound. */
  lemma StepKeepsCredits(s: State, e: Event, g: Family)
    requires CallsOk(s.rows, s.calls) && Enabled(s, e)
    requires Credits(s, g) <= 1 + s.graces[g]
    ensures Credits(Apply(s, e), g) <= 1 + Apply(s, e).graces[g]
  {
    var q := StatementOf(s, e);
    LiveAfterRun(s.rows, q, g);
    match e
    case Login(next, user, family, expiresAt) => UnknownFamilyHasNoCredit(s, family);
    case Present(c, h, ip) => IssuingAfter(s.calls, c, CallsAfter(s, e)[c], g);
    case Logout(c, h) => IssuingAfter(s.calls, c, CallsAfter(s, e)[c], g);
    case Step(c, now, next, outcome) =>
      WhoIssues(s, e);
      IssuingAfter(s.calls, c, CallsAfter(s, e)[c], g);
      assert s.calls[c].Issuing? && s.calls[c].family == g ==> c in IssuingIn(s.calls, g);
      assert q.Mark? && WinsRotation(s.rows, q.h) && s.rows[q.h].family == g ==> q.h in LiveIn(s.rows, g);
    case _ =>
  }

  lemma StepKeepsInv(s: State, e: Event)
    requires Inv(s) && Enabled(s, e)
    ensures Inv(Apply(s, e))
  {
    StepKeepsWellFormed(s, e);
    StepKeepsCalls(s, e);
    StepKeepsWins(s, e);
    forall g ensures Credits(Apply(s, e), g) <= 1 + Apply(s, e).graces[g] {
      StepKeepsCredits(s, e, g);
    }
  }

  lemma {:induction false} RunKeepsInv(s: State, run: seq<Event>)
    requires Inv(s) && Valid(s, run)
    ensures Inv(Exec(s, run)) && Later(s.rows, Exec(s, run).rows)
    decreases |run|
  {
    if run != [] {
      StepKeepsInv(s, run[0]);
      RunIsLater(s.rows, StatementOf(s, run[0]));
      RunKeepsInv(Apply(s, run[0]), run[1..]);
      LaterTransitive(s.rows, Apply(s, run[0]).rows, Exec(s, run).rows);
    }
  }

  // ---------- conservation ----------

  /**
   Conservation over every run from the empty table: live tokens plus pending inserts of a
   family never exceed one more than the graces granted in it; each token's rotation is won
   at most once; and a family has one user.
   */
  lemma Conservation(run: seq<Event>, f: Family)
    requires Valid(INITIAL, run)
    ensures var s := Exec(INITIAL, run);
            && |LiveIn(s.rows, f)| + |IssuingIn(s.calls, f)| <= 1 + s.graces[f]
            && (s.graces[f] == 0 ==> |LiveIn(s.rows, f)| <= 1)
            && (forall h :: s.wins[h] <= 1)
            && (forall h, k :: h in s.rows && k in s.rows && s.rows[h].family == s.rows[k].family
                               ==> s.rows[h].user == s.rows[k].user)
  {
    RunKeepsInv(INITIAL, run);
    assert Credits(Exec(INITIAL, run), f) <= 1 + Exec(INITIAL, run).graces[f];
  }

  // ---------- ended sessions ----------

  /** No live token, and nobody who already decided to insert one. */
  ghost predicate Ended(s: State, f: Family) {
    KnownFamily(s.rows, f) && LiveIn(s.rows, f) == {} && IssuingIn(s.calls, f) == {}
  }

  lemma KnownStays(before: Table, now: Table, f: Family)
    requires Later(before, now) && KnownFamily(before, f)
    ensures KnownFamily(now, f)
  {
  }

  lemma StepKeepsEnded(s: State, e: Event, f: Family)
    requires CallsOk(s.rows, s.calls) && Enabled(s, e) && Ended(s, f)
    ensures Ended(Apply(s, e), f)
  {
    var q := StatementOf(s, e);
    RunIsLater(s.rows, q);
    KnownStays(s.rows, Run(s.rows, q), f);
    LiveAfterRun(s.rows, q, f);
    match e
    case Present(c, h, ip) => IssuingAfter(s.calls, c, CallsAfter(s, e)[c], f);
    case Logout(c, h) => IssuingAfter(s.calls, c, CallsAfter(s, e)[c], f);
    case Step(c, now, next, outcome) =>
      WhoIssues(s, e);
      IssuingAfter(s.calls, c, CallsAfter(s, e)[c], f);
      assert s.calls[c].Issuing? && s.calls[c].family == f ==> c in IssuingIn(s.calls, f);
      assert q.Mark? && WinsRotation(s.rows, q.h) ==> q.h in LiveIn(s.rows, s.rows[q.h].family);
      if GrantsGrace(s, e) {
        var h :| h in s.rows && s.rows[h].family == s.calls[c].family && s.rows[h].Live();
        assert h in LiveIn(s.rows, s.calls[c].family);
      }
    case _ =>
  }

  lemma {:induction false} EndedStaysEnded(s: State, run: seq<Event>, f: Family)
    requires Inv(s) && Valid(s, run) && Ended(s, f)
    ensures Ended(Exec(s, run), f)
    decreases |run|
  {
    if run != [] {
      StepKeepsEnded(s, run[0], f);
      StepKeepsInv(s, run[0]);
      EndedStaysEnded(Apply(s, run[0]), run[1..], f);
    }
  }

  /** A step that revokes family `f`: a detected reuse or a logout reaching its UPDATE. */
  ghost predicate RevokesFamily(s: State, e: Event, f: Family) {
    && e.Step? && e.c in s.calls && !s.calls[e.c].Finished?
    && StatementOf(s, e).EndFamily? && StatementOf(s, e).family == f
  }

  /** A call already past its decision can insert its token, whatever was revoked meanwhile. */
  lemma PendingInsertRevives(s: State, c: CallId) returns (run: seq<Event>)
    requires c in s.calls && s.calls[c].Issuing?
    ensures Valid(s, run) && LiveIn(Exec(s, run).rows, s.calls[c].family) != {}
  {
    var next := SomeFreshKey(s.rows);
    run := [Step(c, 0, next, Done)];
    var s' := Apply(s, run[0]);
    assert Valid(s', run[1..]) && Exec(s', run[1..]) == s';
    assert next in LiveIn(s'.rows, s.calls[c].family);
  }

  /**
   Dead sessions stay dead, exactly: after a step that revokes family `f`, no continuation of
   any interleaving ever makes a live token in `f`, if and only if no call was between its
   decision and its insert at that step.
   */
  lemma RevokedSessionStaysDeadIff(s: State, e: Event, f: Family)
    requires Inv(s) && Enabled(s, e) && RevokesFamily(s, e, f) && KnownFamily(s.rows, f)
    ensures (forall run :: Valid(Apply(s, e), run) ==> LiveIn(Exec(Apply(s, e), run).rows, f) == {})
            <==> IssuingIn(s.calls, f) == {}
  {
    var s' := Apply(s, e);
    StepKeepsInv(s, e);
    LiveAfterRun(s.rows, StatementOf(s, e), f);
    WhoIssues(s, e);
    IssuingAfter(s.calls, e.c, s'.calls[e.c], f);
    assert IssuingIn(s'.calls, f) == IssuingIn(s.calls, f);
    if IssuingIn(s.calls, f) == {} {
      RunIsLater(s.rows, StatementOf(s, e));
      KnownStays(s.rows, s'.rows, f);
      forall run | Valid(s', run) ensures LiveIn(Exec(s', run).rows, f) == {} {
        EndedStaysEnded(s', run, f);
      }
    } else {
      var c :| c in IssuingIn(s'.calls, f);
      var run := PendingInsertRevives(s', c);
    }
  }

  // ---------- parallel presentations ----------

  /**
   A presentation inside the grace asks whether the session is alive.  In a session without
   earlier graces, whose one token is in the table and unexpired or about to be inserted, the
   answer is yes if and only if no other call is between its decision and its insert; otherwise
   the call goes on to end the session.
   */
  lemma GraceIsGrantedIff(s: State, e: Event)
    requires Inv(s) && Enabled(s, e) && e.Step? && e.outcome.Done? && s.calls[e.c].AskingActive?
    requires var f := s.calls[e.c].family;
             && s.graces[f] == 0 && Credits(s, f) == 1
             && forall h :: h in LiveIn(s.rows, f) ==> s.rows[h].expiresAt > s.calls[e.c].now
    ensures var call, after := s.calls[e.c], CallsAfter(s, e)[e.c];
            && (after == Issuing(call.user, call.family) <==> IssuingIn(s.calls, call.family) == {})
            && (after != Issuing(call.user, call.family) ==> after == EndingSession(call.family, call.now))
  {
    var f := s.calls[e.c].family;
    if IssuingIn(s.calls, f) == {} {
      assert |LiveIn(s.rows, f)| == 1;
      var h :| h in LiveIn(s.rows, f);
    } else {
      assert |LiveIn(s.rows, f)| == 0;
      forall h ensures h !in LiveIn(s.rows, f) {
      }
      assert forall h :: h in s.rows && s.rows[h].family == f && s.rows[h].Live() ==> h in LiveIn(s.rows, f);
    }
  }

  ghost predicate Leads(s: State, run: seq<Event>, t: State) {
    Valid(s, run) && Exec(s, run) == t
  }

  lemma {:induction false} LeadsOn(s: State, run: seq<Event>, t: State, e: Event)
    requires Leads(s, run, t) && Enabled(t, e)
    ensures Leads(s, run + [e], Apply(t, e))
    decreases |run|
  {
    if run == [] {
      assert run + [e] == [e] && [e][1..] == [];
    } else {
      LeadsOn(Apply(s, run[0]), run[1..], t, e);
      assert (run + [e])[1..] == run[1..] + [e];
    }
  }

  /** The table and the calls of interest after one more step that the store answers. */
  lemma AnsweredStep(s: State, run: seq<Event>, t: State, c: CallId, now: Time, next: Hash) returns (run': seq<Event>, t': State)
    requires Leads(s, run, t) && c in t.calls && !t.calls[c].Finished? && next !in t.rows
    ensures Leads(s, run', t')
    ensures var m := MoveOf(t.rows, t.calls[c], now, next);
            t'.rows == Run(t.rows, m.q) && t'.calls == t.calls[c := m.done]
  {
    var e := Step(c, now, next, Done);
    LeadsOn(s, run, t, e);
    run', t' := run + [e], Apply(t, e);
  }

  /** Two calls present one good token; the first wins the race and has not inserted yet. */
  lemma TwoPresent(s: State, a: CallId, b: CallId, h: Hash, ip: string, now: Time, next: Hash) returns (run: seq<Event>, t: State)
    requires a != b && a !in s.calls && b !in s.calls && next !in s.rows
    requires h in s.rows && s.rows[h].Live() && now <= s.rows[h].expiresAt
    ensures Leads(s, run, t)
    ensures t.rows == MarkedRotated(s.rows, h, now, ip)
    ensures t.calls == s.calls[b := Presented(h, ip)][a := Issuing(s.rows[h].user, s.rows[h].family)]
  {
    assert Leads(s, [], s);
    LeadsOn(s, [], s, Present(b, h, ip));
    t := Apply(s, Present(b, h, ip));
    run, t := PresentsAndReads(s, [] + [Present(b, h, ip)], t, a, h, ip, now, next);
    var reading := t.calls;
    run, t := AnsweredStep(s, run, t, a, now, next);
    assert t.calls == reading[a := Issuing(s.rows[h].user, s.rows[h].family)];
  }

  /** A presentation of a token just rotated from its address comes to ask whether the session is alive. */
  lemma ComesToAsk(s: State, run0: seq<Event>, t0: State, b: CallId, h: Hash, ip: string, now: Time, next: Hash)
      returns (run: seq<Event>, t: State)
    requires Leads(s, run0, t0) && b in t0.calls && t0.calls[b] == Presented(h, ip) && next !in t0.rows
    requires h in t0.rows && !t0.rows[h].Live() && GraceLooksRight(t0.rows[h], ip, now)
    ensures Leads(s, run, t) && t.rows == t0.rows
    ensures t.calls == t0.calls[b := AskingActive(t0.rows[h].user, t0.rows[h].family, now)]
  {
    run, t := AnsweredStep(s, run0, t0, b, now, next);
    assert t.calls == t0.calls[b := Read(h, ip, t0.rows[h])];
    run, t := AnsweredStep(s, run, t, b, now, next);
  }

  /** Asking about a session without a live token ends it. */
  lemma AsksInVain(s: State, run0: seq<Event>, t0: State, b: CallId, next: Hash) returns (run: seq<Event>, t: State)
    requires Leads(s, run0, t0) && b in t0.calls && t0.calls[b].AskingActive? && next !in t0.rows
    requires LiveIn(t0.rows, t0.calls[b].family) == {}
    ensures Leads(s, run, t) && t.rows == FamilyRevoked(t0.rows, t0.calls[b].family, t0.calls[b].now)
    ensures t.calls == t0.calls[b := Finished(ReuseDetected)]
  {
    var call := t0.calls[b];
    assert !FamilyActive(t0.rows, call.family, call.now) by {
      assert forall k :: k in t0.rows && t0.rows[k].family == call.family && t0.rows[k].Live() ==> k in LiveIn(t0.rows, call.family);
    }
    run, t := AnsweredStep(s, run0, t0, b, call.now, next);
    assert t.calls == t0.calls[b := EndingSession(call.family, call.now)];
    run, t := AnsweredStep(s, run, t, b, call.now, next);
  }

  /**
   It happens: of two parallel presentations of the one live token of a session, from one address
   and at the same moment, one is renewed and the other, which asks while the new token is still
   on its way, is told that it is a reuse.
   */
  lemma ParallelPresentationIsReuse(s: State, a: CallId, b: CallId, h: Hash, ip: string, now: Time, next: Hash)
      returns (run: seq<Event>, t: State)
    requires a != b && a !in s.calls && b !in s.calls && next !in s.rows && ip != ""
    requires h in s.rows && s.rows[h].Live() && now <= s.rows[h].expiresAt && LiveIn(s.rows, s.rows[h].family) == {h}
    ensures Leads(s, run, t)
    ensures t.calls == s.calls[b := Finished(ReuseDetected)][a := Finished(Renewed(next, s.rows[h].user))]
  {
    var user, f := s.rows[h].user, s.rows[h].family;
    run, t := TwoPresent(s, a, b, h, ip, now, next);
    JustRotated(s.rows, h, now, ip);
    run, t := LoserAsksInVain(s, run, t, b, h, ip, now, next);
    run, t := Inserts(s, run, t, a, now, next);
    LastMovesCount(s.calls, a, b, Issuing(user, f), Presented(h, ip), Finished(Renewed(next, user)), Finished(ReuseDetected));
  }

  lemma LastMovesCount(calls: map<CallId, Call>, a: CallId, b: CallId, a1: Call, b1: Call, a2: Call, b2: Call)
    requires a != b
    ensures calls[b := b1][a := a1][b := b2][a := a2] == calls[b := b2][a := a2]
  {
  }

  /** The one live token of a session, rotated: in grace by itself, in a session without a live token. */
  lemma JustRotated(rows: Table, h: Hash, now: Time, ip: string)
    requires h in rows && rows[h].Live() && LiveIn(rows, rows[h].family) == {h} && ip != ""
    ensures var after := MarkedRotated(rows, h, now, ip);
            && h in after && !after[h].Live() && GraceLooksRight(after[h], ip, now)
            && after[h].family == rows[h].family && LiveIn(after, rows[h].family) == {}
  {
    LiveAfterRun(rows, Mark(h, now, ip), rows[h].family);
  }

  lemma LoserAsksInVain(s: State, run0: seq<Event>, t0: State, b: CallId, h: Hash, ip: string, now: Time, next: Hash)
      returns (run: seq<Event>, t: State)
    requires Leads(s, run0, t0) && b in t0.calls && t0.calls[b] == Presented(h, ip) && next !in t0.rows
    requires h in t0.rows && !t0.rows[h].Live() && GraceLooksRight(t0.rows[h], ip, now) && LiveIn(t0.rows, t0.rows[h].family) == {}
    ensures Leads(s, run, t) && next !in t.rows && t.calls == t0.calls[b := Finished(ReuseDetected)]
  {
    run, t := ComesToAsk(s, run0, t0, b, h, ip, now, next);
    var asking := t.calls;
    run, t := AsksInVain(s, run, t, b, next);
    assert asking[b := Finished(ReuseDetected)] == t0.calls[b := Finished(ReuseDetected)];
  }

  lemma Inserts(s: State, run0: seq<Event>, t0: State, a: CallId, now: Time, next: Hash) returns (run: seq<Event>, t: State)
    requires Leads(s, run0, t0) && a in t0.calls && t0.calls[a].Issuing? && next !in t0.rows
    ensures Leads(s, run, t) && t.calls == t0.calls[a := Finished(Renewed(next, t0.calls[a].user))]
  {
    run, t := AnsweredStep(s, run0, t0, a, now, next);
  }

  /** A failure of the question whether the session lives counts as a no: the call goes on to end the session. */
  lemma FailedQuestionEndsSession(s: State, c: CallId, now: Time, next: Hash, o: Outcome)
    requires c in s.calls && s.calls[c].AskingActive? && !o.Done?
    ensures var asked := Apply(s, Step(c, now, next, o));
            && asked.rows == s.rows && !asked.calls[c].Finished?
            && var end := Apply(asked, Step(c, now, next, Done));
               end.calls[c] == Finished(ReuseDetected) && LiveIn(end.rows, s.calls[c].family) == {}
  {
  }

  /** Any other failure is an error, whose statement took effect or not, and ends the call. */
  lemma FailureIsAnError(s: State, c: CallId, now: Time, next: Hash, o: Outcome)
    requires c in s.calls && !s.calls[c].Finished? && !s.calls[c].AskingActive? && !s.calls[c].Read? && !o.Done?
    ensures var end := Apply(s, Step(c, now, next, o));
            && end.calls[c] == Finished(StoreError)
            && end.rows == if o.FailedBefore? then s.rows else Apply(s, Step(c, now, next, Done)).rows
  {
  }

  /**
   It happens too: the second of two parallel presentations loses the race after the winner has
   inserted, reads the row again, and is renewed as well.
   */
  lemma BothAreRenewed(s: State, a: CallId, b: CallId, h: Hash, ip: string, now: Time, expiresAt: Time, next: Hash, next': Hash)
      returns (run: seq<Event>, t: State)
    requires a != b && a !in s.calls && b !in s.calls && next !in s.rows && next' !in s.rows && next != next' && ip != ""
    requires h in s.rows && s.rows[h].Live() && now <= s.rows[h].expiresAt && expiresAt > now
    ensures Leads(s, run, t)
    ensures t.calls == s.calls[b := Finished(Renewed(next', s.rows[h].user))][a := Finished(Renewed(next, s.rows[h].user))]
  {
    var user, seen := s.rows[h].user, s.rows[h];
    run, t := OneReadsOneWins(s, a, b, h, ip, now, expiresAt, next);
    AfterTheWinner(s.rows, h, now, ip, next, expiresAt);
    run, t := LoserIsRenewed(s, run, t, b, h, ip, now, seen, next', expiresAt);
    LastMoveCounts(s.calls, a, b, Finished(Renewed(next, user)), Read(h, ip, seen), Finished(Renewed(next', user)));
  }

  lemma LastMoveCounts(calls: map<CallId, Call>, a: CallId, b: CallId, a1: Call, b1: Call, b2: Call)
    requires a != b
    ensures calls[b := b1][a := a1][b := b2] == calls[b := b2][a := a1]
  {
  }

  lemma OneReadsOneWins(s: State, a: CallId, b: CallId, h: Hash, ip: string, now: Time, expiresAt: Time, next: Hash)
      returns (run: seq<Event>, t: State)
    requires a != b && a !in s.calls && b !in s.calls && next !in s.rows
    requires h in s.rows && s.rows[h].Live() && now <= s.rows[h].expiresAt
    ensures Leads(s, run, t)
    ensures t.calls == s.calls[b := Read(h, ip, s.rows[h])][a := Finished(Renewed(next, s.rows[h].user))]
    ensures t.rows == Created(MarkedRotated(s.rows, h, now, ip), next, s.rows[h].user, s.rows[h].family, expiresAt)
  {
    assert Leads(s, [], s);
    run, t := PresentsAndReads(s, [], s, b, h, ip, now, next);
    run, t := PresentsAndReads(s, run, t, a, h, ip, now, next);
    run, t := WinnerInserts(s, run, t, a, h, ip, now, expiresAt, next);
  }

  lemma PresentsAndReads(s: State, run0: seq<Event>, t0: State, c: CallId, h: Hash, ip: string, now: Time, next: Hash)
      returns (run: seq<Event>, t: State)
    requires Leads(s, run0, t0) && c !in t0.calls && h in t0.rows && next !in t0.rows
    ensures Leads(s, run, t) && t.rows == t0.rows && t.calls == t0.calls[c := Read(h, ip, t0.rows[h])]
  {
    LeadsOn(s, run0, t0, Present(c, h, ip));
    run, t := AnsweredStep(s, run0 + [Present(c, h, ip)], Apply(t0, Present(c, h, ip)), c, now, next);
  }

  /** The rotated token is in grace, and its session lives by the new one. */
  lemma AfterTheWinner(rows: Table, h: Hash, now: Time, ip: string, next: Hash, expiresAt: Time)
    requires h in rows && rows[h].Live() && next !in rows && ip != "" && expiresAt > now
    ensures var after := Created(MarkedRotated(rows, h, now, ip), next, rows[h].user, rows[h].family, expiresAt);
            && h in after && !after[h].Live() && GraceLooksRight(after[h], ip, now)
            && after[h].SameSession(rows[h]) && FamilyActive(after, rows[h].family, now)
  {
    var after := Created(MarkedRotated(rows, h, now, ip), next, rows[h].user, rows[h].family, expiresAt);
    assert next in after && after[next].Live() && after[next].expiresAt > now;
  }

  lemma WinnerInserts(s: State, run0: seq<Event>, t0: State, a: CallId, h: Hash, ip: string, now: Time, expiresAt: Time, next: Hash)
      returns (run: seq<Event>, t: State)
    requires Leads(s, run0, t0) && h in t0.rows && t0.rows[h].Live() && now <= t0.rows[h].expiresAt && next !in t0.rows
    requires a in t0.calls && t0.calls[a] == Read(h, ip, t0.rows[h])
    ensures Leads(s, run, t) && t.calls == t0.calls[a := Finished(Renewed(next, t0.rows[h].user))]
    ensures t.rows == Created(MarkedRotated(t0.rows, h, now, ip), next, t0.rows[h].user, t0.rows[h].family, expiresAt)
  {
    run, t := AnsweredStep(s, run0, t0, a, now, next);
    assert t.calls == t0.calls[a := Issuing(t0.rows[h].user, t0.rows[h].family)];
    run, t := AnsweredStep(s, run, t, a, expiresAt, next);
  }

  /** A call that read the token live loses the race and reads it again. */
  lemma LosesRace(s: State, run0: seq<Event>, t0: State, b: CallId, h: Hash, ip: string, now: Time, seen: Token, next: Hash)
      returns (run: seq<Event>, t: State)
    requires Leads(s, run0, t0) && b in t0.calls && t0.calls[b] == Read(h, ip, seen) && seen.Live() && now <= seen.expiresAt
    requires h in t0.rows && !t0.rows[h].Live() && GraceLooksRight(t0.rows[h], ip, now) && next !in t0.rows
    ensures Leads(s, run, t) && t.rows == t0.rows
    ensures t.calls == t0.calls[b := AskingActive(t0.rows[h].user, t0.rows[h].family, now)]
  {
    run, t := AnsweredStep(s, run0, t0, b, now, next);
    assert t.rows == t0.rows && t.calls == t0.calls[b := LostRace(h, ip, now)];
    run, t := AnsweredStep(s, run, t, b, now, next);
  }

  /** A call that asks about a living session inserts a token. */
  lemma AsksAndInserts(s: State, run0: seq<Event>, t0: State, b: CallId, expiresAt: Time, next: Hash)
      returns (run: seq<Event>, t: State)
    requires Leads(s, run0, t0) && b in t0.calls && t0.calls[b].AskingActive? && next !in t0.rows
    requires FamilyActive(t0.rows, t0.calls[b].family, t0.calls[b].now)
    ensures Leads(s, run, t) && t.calls == t0.calls[b := Finished(Renewed(next, t0.calls[b].user))]
  {
    var call := t0.calls[b];
    run, t := AnsweredStep(s, run0, t0, b, call.now, next);
    assert t.rows == t0.rows && t.calls == t0.calls[b := Issuing(call.user, call.family)];
    run, t := Inserts(s, run, t, b, expiresAt, next);
  }

  lemma LoserIsRenewed(s: State, run0: seq<Event>, t0: State, b: CallId, h: Hash, ip: string, now: Time, seen: Token, next: Hash, expiresAt: Time)
      returns (run: seq<Event>, t: State)
    requires Leads(s, run0, t0) && b in t0.calls && t0.calls[b] == Read(h, ip, seen) && seen.Live() && now <= seen.expiresAt
    requires h in t0.rows && !t0.rows[h].Live() && GraceLooksRight(t0.rows[h], ip, now) && next !in t0.rows
    requires FamilyActive(t0.rows, t0.rows[h].family, now)
    ensures Leads(s, run, t) && t.calls == t0.calls[b := Finished(Renewed(next, t0.rows[h].user))]
  {
    run, t := LosesRace(s, run0, t0, b, h, ip, now, seen, next);
    run, t := AsksAndInserts(s, run, t, b, expiresAt, next);
  }
}
