/**
 Second-factor checks and enrolments under concurrent requests.

 Each checkSecondFactor call reads the enrolment, verifies the code against what it read,
 and then spends a step or a recovery code with one conditional UPDATE.  Each confirmSetup
 call reads the enrolment, which has to be unconfirmed, verifies the first code against it,
 and then confirms it with one transaction that does not look at the record again.  Any other
 step may come between two of those; a store call may fail before or after its effect.
 */
module MfaSteps {
  import opened Options
  import opened Sets
  import T = Totp
  import opened MfaStore

  type CallId = nat

  datatype Call =
    | Asked(user: User, code: string)                 // about to read the enrolment
    | Read(user: User, code: string, row: Totp)       // about to verify
    | Spending(user: User, step: int, at: int)        // matched at time `at`: about to use the step
    | Redeeming(user: User, hash: Hash)               // not a TOTP code: about to use a recovery code
    | SetupAsked(user: User, code: string)            // about to read the enrolment to confirm
    | SetupRead(user: User, code: string, row: Totp)  // it was unconfirmed: about to verify
    | Confirming(user: User, step: int, at: int)      // matched at time `at`: about to confirm
    | Finished(ok: bool)

  datatype Outcome = Done | FailedBefore | FailedAfter

  datatype Event =
    | Check(c: CallId, user: User, code: string)
    | Setup(c: CallId, user: User, code: string)
    | Step(c: CallId, now: int, hashes: seq<Hash>, outcome: Outcome)
    | Start(user: User, secret: Secret)
    | Replace(user: User, hashes: seq<Hash>)
    | Disable(user: User)

  /** A factor that was spent, the first code of an enrolment included; `answered` unless the store's reply was lost. */
  datatype Use = StepUse(user: User, step: int, at: int, answered: bool) | CodeUse(user: User, hash: Hash, answered: bool)

  datatype State = State(tables: Tables, calls: map<CallId, Call>, used: seq<Use>)

  /** Verification, as any function of secret, code, time and last used step. */
  type Verifier = (Secret, string, int, int) -> Option<int>

  /** What module Totp proves of verification: only the steps around the present match. */
  ghost predicate Windowed(v: Verifier) {
    forall secret, code, now, last ::
      v(secret, code, now, last).Some? ==>
        T.StepAt(now) - T.SKEW <= v(secret, code, now, last).value <= T.StepAt(now) + T.SKEW
  }

  function Spend(s: State, c: CallId, call: Call, use: Use, tables: Tables, hit: bool, outcome: Outcome): State {
    if outcome.FailedBefore? then s.(calls := s.calls[c := Finished(false)])
    else State(tables, s.calls[c := Finished(hit && outcome.Done?)], if hit then s.used + [use] else s.used)
  }

  /** A reading, and opening the secret in it, may fail; `hashes` are the recovery codes drawn for an enrolment. */
  function StepCall(s: State, v: Verifier, hashOf: string -> Hash, c: CallId, now: int, hashes: seq<Hash>, outcome: Outcome): State
    requires c in s.calls && !s.calls[c].Finished?
  {
    match s.calls[c]
    case Asked(user, code) =>
      s.(calls := s.calls[c := if outcome.Done? && user in s.tables.totp && s.tables.totp[user].confirmed
                               then Read(user, code, s.tables.totp[user]) else Finished(false)])
    case Read(user, code, row) =>
      s.(calls := s.calls[c := if !outcome.Done? then Finished(false)
                               else match v(row.secret, code, now, row.lastStep)
                                    case Some(step) => Spending(user, step, now)
                                    case None => if |code| > 6 then Redeeming(user, hashOf(code)) else Finished(false)])
    case Spending(user, step, at) =>
      Spend(s, c, s.calls[c], StepUse(user, step, at, outcome.Done?), StepUsed(s.tables, user, step),
            UsesStep(s.tables, user, step), outcome)
    case Redeeming(user, h) =>
      Spend(s, c, s.calls[c], CodeUse(user, h, outcome.Done?), CodeUsed(s.tables, user, h),
            UsesCode(s.tables, user, h), outcome)
    case SetupAsked(user, code) =>
      s.(calls := s.calls[c := if outcome.Done? && user in s.tables.totp && !s.tables.totp[user].confirmed
                               then SetupRead(user, code, s.tables.totp[user]) else Finished(false)])
    case SetupRead(user, code, row) =>
      s.(calls := s.calls[c := if !outcome.Done? then Finished(false)
                               else match v(row.secret, code, now, 0)
                                    case Some(step) => Confirming(user, step, now)
                                    case None => Finished(false)])
    case Confirming(user, step, at) =>
      if outcome.FailedBefore? || !Distinct(hashes) then s.(calls := s.calls[c := Finished(false)])
      else State(Confirmed(s.tables, user, step, hashes), s.calls[c := Finished(outcome.Done?)],
                 if user in s.tables.totp then s.used + [StepUse(user, step, at, outcome.Done?)] else s.used)
  }

  predicate Enabled(s: State, e: Event) {
    match e
    case Check(c, _, _) => c !in s.calls
    case Setup(c, _, _) => c !in s.calls
    case Step(c, _, _, _) => c in s.calls && !s.calls[c].Finished?
    case _ => true
  }

  function Apply(s: State, v: Verifier, hashOf: string -> Hash, e: Event): State
    requires Enabled(s, e)
  {
    match e
    case Check(c, user, code) => s.(calls := s.calls[c := Asked(user, code)])
    case Setup(c, user, code) => s.(calls := s.calls[c := SetupAsked(user, code)])
    case Step(c, now, hashes, outcome) => StepCall(s, v, hashOf, c, now, hashes, outcome)
    case Start(user, secret) => s.(tables := Started(s.tables, user, secret))
    case Replace(user, hashes) =>
      if Distinct(hashes) then s.(tables := s.tables.(codes := CodesReplaced(s.tables.codes, user, SetOf(hashes)))) else s
    case Disable(user) => s.(tables := Disabled(s.tables, user))
  }

  ghost predicate Valid(s: State, v: Verifier, hashOf: string -> Hash, run: seq<Event>)
    decreases |run|
  {
    run == [] || (Enabled(s, run[0]) && Valid(Apply(s, v, hashOf, run[0]), v, hashOf, run[1..]))
  }

  ghost function Exec(s: State, v: Verifier, hashOf: string -> Hash, run: seq<Event>): State
    requires Valid(s, v, hashOf, run)
    decreases |run|
  {
    if run == [] then s else Exec(Apply(s, v, hashOf, run[0]), v, hashOf, run[1..])
  }

  // ---------- steps ----------

  /** The steps the account has spent, in order. */
  function StepsOf(used: seq<Use>, user: User): seq<int> {
    if used == [] then []
    else
      var last := used[|used| - 1];
      StepsOf(used[..|used| - 1], user) + if last.StepUse? && last.user == user then [last.step] else []
  }

  lemma StepsOfNext(used: seq<Use>, use: Use, user: User)
    ensures StepsOf(used + [use], user) == StepsOf(used, user) + if use.StepUse? && use.user == user then [use.step] else []
  {
  }

  predicate Increasing(xs: seq<int>) {
    forall i, j :: 0 <= i < j < |xs| ==> xs[i] < xs[j]
  }

  /** No event of the run withdraws the enrolment of `user`. */
  ghost predicate KeepsEnrolment(run: seq<Event>, user: User) {
    forall i :: 0 <= i < |run| ==> !(run[i].Disable? && run[i].user == user)
  }

  /** The call read the enrolment before it was confirmed, and may confirm it yet. */
  predicate IsSetup(call: Call, user: User) {
    (call.SetupRead? || call.Confirming?) && call.user == user
  }

  /** No setup of `user` is past its reading. */
  ghost predicate NoSetup(s: State, user: User) {
    forall c :: c in s.calls ==> !IsSetup(s.calls[c], user)
  }

  ghost predicate Enrolled(s: State, user: User) {
    user in s.tables.totp && s.tables.totp[user].confirmed
  }

  /**
   The account is enrolled, and the steps it spent after its first `n` are strictly
   increasing and later than `base`; the last of them is the step on record.
   */
  ghost predicate SpentSince(s: State, user: User, base: int, n: nat) {
    && Enrolled(s, user)
    && n <= |StepsOf(s.used, user)|
    && StepsFit(StepsOf(s.used, user)[n..], base, s.tables.totp[user].lastStep)
  }

  predicate StepsFit(xs: seq<int>, base: int, last: int) {
    && Increasing(xs) && (forall i :: 0 <= i < |xs| ==> base < xs[i])
    && last == if xs == [] then base else xs[|xs| - 1]
  }

  lemma StepsFitNext(xs: seq<int>, base: int, last: int, step: int)
    requires StepsFit(xs, base, last) && last < step
    ensures StepsFit(xs + [step], base, step)
  {
  }

  /** While no setup is under way, none that begins gets past its reading: it finds the enrolment confirmed. */
  lemma EventKeepsNoSetup(s: State, v: Verifier, hashOf: string -> Hash, e: Event, user: User)
    requires Enabled(s, e) && !(e.Disable? && e.user == user)
    requires Enrolled(s, user) && NoSetup(s, user)
    ensures Enrolled(Apply(s, v, hashOf, e), user) && NoSetup(Apply(s, v, hashOf, e), user)
  {
  }

  /** If the event confirms the enrolment of `user` once more, it is with a step later than the one on record. */
  predicate Rises(s: State, e: Event, user: User) {
    e.Step? && e.c in s.calls && s.calls[e.c].Confirming? && s.calls[e.c].user == user && user in s.tables.totp
    && !e.outcome.FailedBefore? && Distinct(e.hashes)
    ==> s.tables.totp[user].lastStep < s.calls[e.c].step
  }

  /** What one event does to the steps spent and to the account's record. */
  lemma EventOnSteps(s: State, v: Verifier, hashOf: string -> Hash, e: Event, user: User)
    requires Enabled(s, e) && !(e.Disable? && e.user == user)
    requires Enrolled(s, user) && Rises(s, e, user)
    ensures var s' := Apply(s, v, hashOf, e);
            && Enrolled(s', user)
            && var before, after := s.tables.totp[user].lastStep, s'.tables.totp[user].lastStep;
               || (StepsOf(s'.used, user) == StepsOf(s.used, user) && after == before)
               || (before < after && StepsOf(s'.used, user) == StepsOf(s.used, user) + [after])
  {
    if e.Step? {
      StepOnSteps(s, v, hashOf, e.c, e.now, e.hashes, e.outcome, user);
    }
  }

  lemma StepOnSteps(s: State, v: Verifier, hashOf: string -> Hash, c: CallId, now: int, hashes: seq<Hash>, outcome: Outcome, user: User)
    requires c in s.calls && !s.calls[c].Finished?
    requires Enrolled(s, user) && Rises(s, Step(c, now, hashes, outcome), user)
    ensures var s' := StepCall(s, v, hashOf, c, now, hashes, outcome);
            && Enrolled(s', user)
            && var before, after := s.tables.totp[user].lastStep, s'.tables.totp[user].lastStep;
               || (StepsOf(s'.used, user) == StepsOf(s.used, user) && after == before)
               || (before < after && StepsOf(s'.used, user) == StepsOf(s.used, user) + [after])
  {
    match s.calls[c]
    case Spending(u, step, at) => SpendingOnSteps(s, c, outcome, user);
    case Redeeming(u, h) => StepsOfNext(s.used, CodeUse(u, h, outcome.Done?), user);
    case Confirming(u, step, at) => if !outcome.FailedBefore? && Distinct(hashes) { ConfirmingOnSteps(s, c, hashes, outcome, user); }
    case _ =>
  }

  lemma ConfirmingOnSteps(s: State, c: CallId, hashes: seq<Hash>, outcome: Outcome, user: User)
    requires c in s.calls && s.calls[c].Confirming? && Enrolled(s, user)
    requires s.calls[c].user == user ==> s.tables.totp[user].lastStep < s.calls[c].step
    ensures var call := s.calls[c];
            var used := if call.user in s.tables.totp then s.used + [StepUse(call.user, call.step, call.at, outcome.Done?)] else s.used;
            var t := Confirmed(s.tables, call.user, call.step, hashes);
            && user in t.totp && t.totp[user].confirmed
            && if call.user == user then t.totp[user].lastStep == call.step && StepsOf(used, user) == StepsOf(s.used, user) + [call.step]
               else t.totp[user].lastStep == s.tables.totp[user].lastStep && StepsOf(used, user) == StepsOf(s.used, user)
  {
    var call := s.calls[c];
    StepsOfNext(s.used, StepUse(call.user, call.step, call.at, outcome.Done?), user);
  }

  lemma SpendingOnSteps(s: State, c: CallId, outcome: Outcome, user: User)
    requires c in s.calls && s.calls[c].Spending? && user in s.tables.totp
    ensures var call := s.calls[c];
            var s' := Spend(s, c, call, StepUse(call.user, call.step, call.at, outcome.Done?), StepUsed(s.tables, call.user, call.step),
                            UsesStep(s.tables, call.user, call.step), outcome);
            && user in s'.tables.totp && s'.tables.totp[user].confirmed == s.tables.totp[user].confirmed
            && var before, after := s.tables.totp[user].lastStep, s'.tables.totp[user].lastStep;
               || (StepsOf(s'.used, user) == StepsOf(s.used, user) && after == before)
               || (before < after && StepsOf(s'.used, user) == StepsOf(s.used, user) + [after])
  {
    var call := s.calls[c];
    StepsOfNext(s.used, StepUse(call.user, call.step, call.at, outcome.Done?), user);
  }

  lemma EventSpends(s: State, v: Verifier, hashOf: string -> Hash, e: Event, user: User, base: int, n: nat)
    requires Enabled(s, e) && !(e.Disable? && e.user == user) && Rises(s, e, user)
    requires SpentSince(s, user, base, n)
    ensures SpentSince(Apply(s, v, hashOf, e), user, base, n)
  {
    EventOnSteps(s, v, hashOf, e, user);
    var s' := Apply(s, v, hashOf, e);
    var xs, last := StepsOf(s.used, user), s'.tables.totp[user].lastStep;
    if StepsOf(s'.used, user) != xs {
      StepsFitNext(xs[n..], base, s.tables.totp[user].lastStep, last);
      assert (xs + [last])[n..] == xs[n..] + [last];
    }
  }

  /**
   Codes serve once: from an enrolment with no other setup under way, whatever else happens and
   however calls interleave, the steps spent are strictly increasing and all later than where
   the enrolment stood.
   */
  lemma {:induction false} StepsIncrease(s: State, v: Verifier, hashOf: string -> Hash, run: seq<Event>, user: User, base: int, n: nat)
    requires Valid(s, v, hashOf, run) && KeepsEnrolment(run, user) && NoSetup(s, user) && SpentSince(s, user, base, n)
    ensures SpentSince(Exec(s, v, hashOf, run), user, base, n) && NoSetup(Exec(s, v, hashOf, run), user)
    decreases |run|
  {
    if run != [] {
      EventKeepsNoSetup(s, v, hashOf, run[0], user);
      EventSpends(s, v, hashOf, run[0], user, base, n);
      assert forall i :: 0 <= i < |run[1..]| ==> run[1..][i] == run[i + 1];
      StepsIncrease(Apply(s, v, hashOf, run[0]), v, hashOf, run[1..], user, base, n);
    }
  }

  /** Every event of the run that confirms once more does it with a later step. */
  ghost predicate RisingRun(s: State, v: Verifier, hashOf: string -> Hash, run: seq<Event>, user: User)
    requires Valid(s, v, hashOf, run)
    decreases |run|
  {
    run == [] || (Rises(s, run[0], user) && RisingRun(Apply(s, v, hashOf, run[0]), v, hashOf, run[1..], user))
  }

  /** The same with any number of setups under way, as long as their confirmations rise. */
  lemma {:induction false} StepsIncreaseWhileConfirmationsRise(s: State, v: Verifier, hashOf: string -> Hash, run: seq<Event>,
                                                               user: User, base: int, n: nat)
    requires Valid(s, v, hashOf, run) && KeepsEnrolment(run, user) && SpentSince(s, user, base, n)
    requires RisingRun(s, v, hashOf, run, user)
    ensures SpentSince(Exec(s, v, hashOf, run), user, base, n)
    decreases |run|
  {
    if run != [] {
      EventSpends(s, v, hashOf, run[0], user, base, n);
      assert forall i :: 0 <= i < |run[1..]| ==> run[1..][i] == run[i + 1];
      StepsIncreaseWhileConfirmationsRise(Apply(s, v, hashOf, run[0]), v, hashOf, run[1..], user, base, n);
    }
  }

  // ---------- how many ----------

  lemma {:induction false} IncreasingFits(xs: seq<int>, lo: int, hi: int)
    requires Increasing(xs) && forall i :: 0 <= i < |xs| ==> lo <= xs[i] <= hi
    ensures |xs| <= (if hi < lo then 0 else hi - lo + 1)
    decreases xs
  {
    if xs != [] {
      var start := xs[..|xs| - 1];
      forall i | 0 <= i < |start| ensures start[i] <= xs[|xs| - 1] - 1 {
        assert xs[i] < xs[|xs| - 1];
      }
      IncreasingFits(start, lo, xs[|xs| - 1] - 1);
    }
  }

  /** The uses after the first `n` are of this account's codes verified between `t0` and `t1`. */
  ghost predicate UsedBetween(used: seq<Use>, n: nat, user: User, t0: int, t1: int) {
    forall i :: n <= i < |used| && used[i].StepUse? && used[i].user == user ==> t0 <= used[i].at <= t1
  }

  /** Every step spent, or about to be, was verified within the window of its own time. */
  ghost predicate WithinWindow(s: State) {
    && (forall i :: 0 <= i < |s.used| && s.used[i].StepUse? ==>
          T.StepAt(s.used[i].at) - T.SKEW <= s.used[i].step <= T.StepAt(s.used[i].at) + T.SKEW)
    && (forall c :: c in s.calls && (s.calls[c].Spending? || s.calls[c].Confirming?) ==>
          T.StepAt(s.calls[c].at) - T.SKEW <= s.calls[c].step <= T.StepAt(s.calls[c].at) + T.SKEW)
  }

  lemma {:induction false} RunStaysWithin(s: State, v: Verifier, hashOf: string -> Hash, run: seq<Event>)
    requires Windowed(v) && Valid(s, v, hashOf, run) && WithinWindow(s)
    ensures WithinWindow(Exec(s, v, hashOf, run)) && s.used <= Exec(s, v, hashOf, run).used
    decreases |run|
  {
    if run != [] {
      EventStaysWithin(s, v, hashOf, run[0]);
      RunStaysWithin(Apply(s, v, hashOf, run[0]), v, hashOf, run[1..]);
    }
  }

  lemma EventStaysWithin(s: State, v: Verifier, hashOf: string -> Hash, e: Event)
    requires Windowed(v) && Enabled(s, e) && WithinWindow(s)
    ensures WithinWindow(Apply(s, v, hashOf, e)) && s.used <= Apply(s, v, hashOf, e).used
  {
    var s' := Apply(s, v, hashOf, e);
    forall c | c in s'.calls && (s'.calls[c].Spending? || s'.calls[c].Confirming?)
      ensures T.StepAt(s'.calls[c].at) - T.SKEW <= s'.calls[c].step <= T.StepAt(s'.calls[c].at) + T.SKEW
    {
      if c in s.calls && s.calls[c] == s'.calls[c] {
      } else {
        assert e.Step? && c == e.c && (s.calls[c].Read? || s.calls[c].SetupRead?);
      }
    }
  }

  lemma {:induction false} StepsOfAppended(used: seq<Use>, more: seq<Use>, user: User)
    ensures StepsOf(used + more, user) == StepsOf(used, user) + StepsOf(more, user)
    decreases more
  {
    if more == [] {
      assert used + more == used;
    } else {
      var start, last := more[..|more| - 1], more[|more| - 1];
      StepsOfAppended(used, start, user);
      assert used + more == (used + start) + [last];
      StepsOfNext(used + start, last, user);
      assert more == start + [last];
      StepsOfNext(start, last, user);
    }
  }

  lemma {:induction false} StepsOfBounds(more: seq<Use>, user: User, t0: int, t1: int)
    requires UsedBetween(more, 0, user, t0, t1) && t0 <= t1
    requires forall i :: 0 <= i < |more| && more[i].StepUse? ==>
               T.StepAt(more[i].at) - T.SKEW <= more[i].step <= T.StepAt(more[i].at) + T.SKEW
    ensures forall i :: 0 <= i < |StepsOf(more, user)| ==>
              T.StepAt(t0) - T.SKEW <= StepsOf(more, user)[i] <= T.StepAt(t1) + T.SKEW
    decreases more
  {
    if more != [] {
      var start, last := more[..|more| - 1], more[|more| - 1];
      StepsOfBounds(start, user, t0, t1);
      if last.StepUse? && last.user == user {
        T.StepMonotone(t0, last.at);
        T.StepMonotone(last.at, t1);
      }
    }
  }

  /**
   Within one enrolment, calls that verify between `t0` and `t1` spend at most
   step(t1) - step(t0) + 3 codes, under every interleaving.
   */
  lemma FewStepsPerTime(s: State, v: Verifier, hashOf: string -> Hash, run: seq<Event>, user: User, t0: int, t1: int)
    requires Windowed(v) && Valid(s, v, hashOf, run) && WithinWindow(s) && t0 <= t1
    requires KeepsEnrolment(run, user) && Enrolled(s, user) && NoSetup(s, user)
    requires UsedBetween(Exec(s, v, hashOf, run).used, |s.used|, user, t0, t1)
    ensures s.used <= Exec(s, v, hashOf, run).used
    ensures |StepsOf(Exec(s, v, hashOf, run).used[|s.used|..], user)| <= T.StepAt(t1) - T.StepAt(t0) + 3
  {
    var n, base := |StepsOf(s.used, user)|, s.tables.totp[user].lastStep;
    StepsIncrease(s, v, hashOf, run, user, base, n);
    RunStaysWithin(s, v, hashOf, run);
    NewStepsFit(s, Exec(s, v, hashOf, run), user, t0, t1, base);
  }

  lemma NewStepsFit(s: State, end: State, user: User, t0: int, t1: int, base: int)
    requires s.used <= end.used && WithinWindow(end) && t0 <= t1
    requires SpentSince(end, user, base, |StepsOf(s.used, user)|)
    requires UsedBetween(end.used, |s.used|, user, t0, t1)
    ensures |StepsOf(end.used[|s.used|..], user)| <= T.StepAt(t1) - T.StepAt(t0) + 3
  {
    var more := end.used[|s.used|..];
    assert forall i :: 0 <= i < |more| ==> more[i] == end.used[|s.used| + i];
    TailSteps(s.used, more, end.used, user);
    StepsOfBounds(more, user, t0, t1);
    T.StepMonotone(t0, t1);
    IncreasingFits(StepsOf(more, user), T.StepAt(t0) - T.SKEW, T.StepAt(t1) + T.SKEW);
  }

  lemma TailSteps(used: seq<Use>, more: seq<Use>, all: seq<Use>, user: User)
    requires used <= all && more == all[|used|..]
    ensures |StepsOf(used, user)| <= |StepsOf(all, user)| && StepsOf(more, user) == StepsOf(all, user)[|StepsOf(used, user)|..]
  {
    assert all == used + more;
    StepsOfAppended(used, more, user);
  }

  // ---------- recovery codes ----------

  /** The recovery codes the account has spent, in order. */
  function CodesOf(used: seq<Use>, user: User): seq<Hash> {
    if used == [] then []
    else
      var last := used[|used| - 1];
      CodesOf(used[..|used| - 1], user) + if last.CodeUse? && last.user == user then [last.hash] else []
  }

  lemma CodesOfNext(used: seq<Use>, use: Use, user: User)
    ensures CodesOf(used + [use], user) == CodesOf(used, user) + if use.CodeUse? && use.user == user then [use.hash] else []
  {
  }

  /** No event of the run replaces or removes the account's recovery codes. */
  ghost predicate KeepsCodes(run: seq<Event>, user: User) {
    forall i :: 0 <= i < |run| ==> !((run[i].Disable? || run[i].Replace?) && run[i].user == user)
  }

  /** The codes spent after the first `n` are all different and unusable, and `total` less them are unused. */
  ghost predicate SpentCodes(s: State, user: User, total: int, n: nat) {
    && n <= |CodesOf(s.used, user)|
    && CodesFit(s.tables, user, CodesOf(s.used, user)[n..])
    && |Unused(s.tables, user)| == total - (|CodesOf(s.used, user)| - n)
  }

  predicate CodesFit(t: Tables, user: User, xs: seq<Hash>) {
    Distinct(xs) && forall i :: 0 <= i < |xs| ==> !UsesCode(t, user, xs[i])
  }

  lemma CodesFitNext(t: Tables, user: User, xs: seq<Hash>, h: Hash)
    requires CodesFit(t, user, xs) && UsesCode(t, user, h)
    ensures CodesFit(CodeUsed(t, user, h), user, xs + [h])
  {
  }

  /** The two tables give the account the same codes. */
  ghost predicate SameCodesIn(t: Tables, t': Tables, user: User) {
    forall h :: UsesCode(t', user, h) <==> UsesCode(t, user, h)
  }

  lemma SameCodesSameUnused(t: Tables, t': Tables, user: User)
    requires SameCodesIn(t, t', user)
    ensures Unused(t', user) == Unused(t, user)
  {
    forall k ensures k in Unused(t', user) <==> k in Unused(t, user) {
      if k.user == user {
        assert UsesCode(t', user, k.hash) <==> UsesCode(t, user, k.hash);
        assert k == CodeKey(user, k.hash);
      }
    }
  }

  /** What one event does to the codes spent and to those left. */
  lemma EventOnCodes(s: State, v: Verifier, hashOf: string -> Hash, e: Event, user: User)
    requires Enabled(s, e) && !((e.Disable? || e.Replace?) && e.user == user) && NoSetup(s, user)
    ensures var s' := Apply(s, v, hashOf, e);
            || (CodesOf(s'.used, user) == CodesOf(s.used, user) && SameCodesIn(s.tables, s'.tables, user))
            || (e.Step? && RedeemsCode(s, s', e.c, user))
  {
    if e.Step? {
      StepOnCodes(s, v, hashOf, e.c, e.now, e.hashes, e.outcome, user);
    }
  }

  /** The call spends an unused code of the account. */
  predicate RedeemsCode(s: State, s': State, c: CallId, user: User) {
    && c in s.calls && s.calls[c].Redeeming? && s.calls[c].user == user
    && UsesCode(s.tables, user, s.calls[c].hash) && s'.tables == CodeUsed(s.tables, user, s.calls[c].hash)
    && CodesOf(s'.used, user) == CodesOf(s.used, user) + [s.calls[c].hash]
  }

  lemma StepOnCodes(s: State, v: Verifier, hashOf: string -> Hash, c: CallId, now: int, hashes: seq<Hash>, outcome: Outcome, user: User)
    requires c in s.calls && !s.calls[c].Finished? && NoSetup(s, user)
    ensures var s' := StepCall(s, v, hashOf, c, now, hashes, outcome);
            || (CodesOf(s'.used, user) == CodesOf(s.used, user) && SameCodesIn(s.tables, s'.tables, user))
            || RedeemsCode(s, s', c, user)
  {
    match s.calls[c]
    case Spending(u, step, at) =>
      CodesOfNext(s.used, StepUse(u, step, at, outcome.Done?), user);
      SameTableSameCodes(s.tables, StepUsed(s.tables, u, step), user);
    case Redeeming(u, h) => RedeemingOnCodes(s, c, outcome, user);
    case Confirming(u, step, at) => ConfirmingOnCodes(s, c, hashes, outcome, user);
    case _ => SameTableSameCodes(s.tables, s.tables, user);
  }

  lemma SameTableSameCodes(t: Tables, t': Tables, user: User)
    requires t'.codes == t.codes
    ensures SameCodesIn(t, t', user)
  {
  }

  lemma RedeemingOnCodes(s: State, c: CallId, outcome: Outcome, user: User)
    requires c in s.calls && s.calls[c].Redeeming?
    ensures var call := s.calls[c];
            var s' := Spend(s, c, call, CodeUse(call.user, call.hash, outcome.Done?), CodeUsed(s.tables, call.user, call.hash),
                            UsesCode(s.tables, call.user, call.hash), outcome);
            || (CodesOf(s'.used, user) == CodesOf(s.used, user) && SameCodesIn(s.tables, s'.tables, user))
            || RedeemsCode(s, s', c, user)
  {
    var call := s.calls[c];
    CodesOfNext(s.used, CodeUse(call.user, call.hash, outcome.Done?), user);
    OtherCodeUsed(s.tables, call.user, call.hash, user);
  }

  /** Confirming another account's enrolment leaves this one's codes alone. */
  lemma ConfirmingOnCodes(s: State, c: CallId, hashes: seq<Hash>, outcome: Outcome, user: User)
    requires c in s.calls && s.calls[c].Confirming? && s.calls[c].user != user
    ensures var call := s.calls[c];
            && CodesOf(s.used + [StepUse(call.user, call.step, call.at, outcome.Done?)], user) == CodesOf(s.used, user)
            && SameCodesIn(s.tables, Confirmed(s.tables, call.user, call.step, hashes), user)
  {
    var call := s.calls[c];
    CodesOfNext(s.used, StepUse(call.user, call.step, call.at, outcome.Done?), user);
  }

  lemma OtherCodeUsed(t: Tables, u: User, h: Hash, user: User)
    ensures u != user || !UsesCode(t, u, h) ==> SameCodesIn(t, CodeUsed(t, u, h), user)
  {
  }

  lemma EventSpendsCode(s: State, v: Verifier, hashOf: string -> Hash, e: Event, user: User, total: int, n: nat)
    requires Enabled(s, e) && !((e.Disable? || e.Replace?) && e.user == user) && NoSetup(s, user)
    requires SpentCodes(s, user, total, n)
    ensures SpentCodes(Apply(s, v, hashOf, e), user, total, n)
  {
    EventOnCodes(s, v, hashOf, e, user);
    var s' := Apply(s, v, hashOf, e);
    var xs := CodesOf(s.used, user);
    if CodesOf(s'.used, user) == xs && SameCodesIn(s.tables, s'.tables, user) {
      SameCodesSameUnused(s.tables, s'.tables, user);
    } else {
      var h := s.calls[e.c].hash;
      CodesFitNext(s.tables, user, xs[n..], h);
      UnusedAfter(s.tables, user, h);
      assert (xs + [h])[n..] == xs[n..] + [h];
    }
  }

  /**
   Recovery codes serve once: while an enrolled account keeps its set of codes and no setup of it
   is under way, each code is spent at most once under every interleaving, and the number
   remaining is the number there was less the number spent.
   */
  lemma {:induction false} RecoveryCodesServeOnce(s: State, v: Verifier, hashOf: string -> Hash, run: seq<Event>, user: User, total: int, n: nat)
    requires Valid(s, v, hashOf, run) && KeepsCodes(run, user) && Enrolled(s, user) && NoSetup(s, user)
    requires SpentCodes(s, user, total, n)
    ensures SpentCodes(Exec(s, v, hashOf, run), user, total, n)
    decreases |run|
  {
    if run != [] {
      EventKeepsNoSetup(s, v, hashOf, run[0], user);
      EventSpendsCode(s, v, hashOf, run[0], user, total, n);
      assert forall i :: 0 <= i < |run[1..]| ==> run[1..][i] == run[i + 1];
      RecoveryCodesServeOnce(Apply(s, v, hashOf, run[0]), v, hashOf, run[1..], user, total, n);
    }
  }

  // ---------- late confirmations ----------

  /** Some run that does not withdraw the enrolment of `user` leads from `s` to `t`. */
  ghost predicate Reaches(s: State, v: Verifier, hashOf: string -> Hash, user: User, t: State) {
    exists run :: Leads(s, v, hashOf, user, run, t)
  }

  ghost predicate Leads(s: State, v: Verifier, hashOf: string -> Hash, user: User, run: seq<Event>, t: State) {
    Valid(s, v, hashOf, run) && KeepsEnrolment(run, user) && Exec(s, v, hashOf, run) == t
  }

  lemma {:induction false} LeadsOn(s: State, v: Verifier, hashOf: string -> Hash, user: User, run: seq<Event>, t: State, e: Event)
    requires Leads(s, v, hashOf, user, run, t) && Enabled(t, e) && !(e.Disable? && e.user == user)
    ensures Leads(s, v, hashOf, user, run + [e], Apply(t, v, hashOf, e))
    decreases |run|
  {
    if run == [] {
      assert run + [e] == [e] && [e][1..] == [];
    } else {
      assert forall i :: 0 <= i < |run[1..]| ==> run[1..][i] == run[i + 1];
      LeadsOn(Apply(s, v, hashOf, run[0]), v, hashOf, user, run[1..], t, e);
      assert (run + [e])[1..] == run[1..] + [e];
    }
  }

  /** One event further. */
  lemma ReachesNext(s: State, v: Verifier, hashOf: string -> Hash, user: User, t: State, e: Event)
    requires Reaches(s, v, hashOf, user, t) && Enabled(t, e) && !(e.Disable? && e.user == user)
    ensures Reaches(s, v, hashOf, user, Apply(t, v, hashOf, e))
  {
    var run :| Leads(s, v, hashOf, user, run, t);
    LeadsOn(s, v, hashOf, user, run, t, e);
  }

  lemma ReachesItself(s: State, v: Verifier, hashOf: string -> Hash, user: User)
    ensures Reaches(s, v, hashOf, user, s)
  {
    assert Leads(s, v, hashOf, user, [], s);
  }

  /** A login that nobody interleaves with spends the step its code matches. */
  lemma LoginSpends(s: State, v: Verifier, hashOf: string -> Hash, user: User, t: State, c: CallId, code: string, now: int, step: int)
    requires Reaches(s, v, hashOf, user, t) && c !in t.calls && Enrolled(t, user)
    requires var row := t.tables.totp[user]; row.lastStep < step && v(row.secret, code, now, row.lastStep) == Some(step)
    ensures Reaches(s, v, hashOf, user,
                    State(StepUsed(t.tables, user, step), t.calls[c := Finished(true)], t.used + [StepUse(user, step, now, true)]))
  {
    var row := t.tables.totp[user];
    var t1 := t.(calls := t.calls[c := Asked(user, code)]);
    var t2 := t.(calls := t.calls[c := Read(user, code, row)]);
    var t3 := t.(calls := t.calls[c := Spending(user, step, now)]);
    ReachesNext(s, v, hashOf, user, t, Check(c, user, code));
    ReachesNext(s, v, hashOf, user, t1, Step(c, now, [], Done));
    assert Apply(t1, v, hashOf, Step(c, now, [], Done)) == t2;
    ReachesNext(s, v, hashOf, user, t2, Step(c, now, [], Done));
    assert Apply(t2, v, hashOf, Step(c, now, [], Done)) == t3;
    ReachesNext(s, v, hashOf, user, t3, Step(c, now, [], Done));
    assert t3.calls[c := Finished(true)] == t.calls[c := Finished(true)];
    assert Apply(t3, v, hashOf, Step(c, now, [], Done))
        == State(StepUsed(t.tables, user, step), t.calls[c := Finished(true)], t.used + [StepUse(user, step, now, true)]);
  }

  /** A setup that nobody interleaves with gets as far as its confirmation. */
  lemma SetupGetsToConfirm(s: State, v: Verifier, hashOf: string -> Hash, user: User, t: State, c: CallId, code: string, now: int, step: int)
    requires Reaches(s, v, hashOf, user, t) && c !in t.calls && user in t.tables.totp && !t.tables.totp[user].confirmed
    requires v(t.tables.totp[user].secret, code, now, 0) == Some(step)
    ensures Reaches(s, v, hashOf, user, t.(calls := t.calls[c := Confirming(user, step, now)]))
  {
    var t1 := t.(calls := t.calls[c := SetupAsked(user, code)]);
    var t2 := t.(calls := t.calls[c := SetupRead(user, code, t.tables.totp[user])]);
    ReachesNext(s, v, hashOf, user, t, Setup(c, user, code));
    ReachesNext(s, v, hashOf, user, t1, Step(c, now, [], Done));
    assert Apply(t1, v, hashOf, Step(c, now, [], Done)) == t2;
    ReachesNext(s, v, hashOf, user, t2, Step(c, now, [], Done));
    assert Apply(t2, v, hashOf, Step(c, now, [], Done)) == t.(calls := t.calls[c := Confirming(user, step, now)]);
  }

  predicate NoRepeats(xs: seq<int>) {
    forall i, j :: 0 <= i < j < |xs| ==> xs[i] != xs[j]
  }

  /** The steps spent after the first `n`. */
  function StepsFrom(used: seq<Use>, user: User, n: nat): seq<int> {
    if n <= |StepsOf(used, user)| then StepsOf(used, user)[n..] else []
  }

  /** Every later step has a code and a moment with which it is matched. */
  ghost predicate Spendable(v: Verifier, secret: Secret) {
    forall last, step :: last < step ==> Matchable(v, secret, last, step)
  }

  ghost predicate Matchable(v: Verifier, secret: Secret, last: int, step: int) {
    exists code, now :: v(secret, code, now, last) == Some(step)
  }

  ghost predicate OnlySetup(s: State, user: User, c: CallId) {
    forall e :: e in s.calls && IsSetup(s.calls[e], user) ==> e == c
  }

  /** What is left after a confirmation of an account that was enrolled already. */
  lemma Reconfirmed(s: State, v: Verifier, hashOf: string -> Hash, c: CallId, now: int, hashes: seq<Hash>, user: User, n: nat)
    requires c in s.calls && s.calls[c].Confirming? && s.calls[c].user == user && OnlySetup(s, user, c) && Distinct(hashes)
    requires Enrolled(s, user) && n <= |StepsOf(s.used, user)|
    ensures var s' := Apply(s, v, hashOf, Step(c, now, hashes, Done));
            && Enrolled(s', user) && NoSetup(s', user) && s'.tables.totp[user].lastStep == s.calls[c].step
            && s'.tables.totp[user].secret == s.tables.totp[user].secret
            && StepsOf(s'.used, user) == StepsOf(s.used, user) + [s.calls[c].step]
            && StepsFrom(s'.used, user, n) == StepsFrom(s.used, user, n) + [s.calls[c].step]
  {
    StepsOfNext(s.used, StepUse(user, s.calls[c].step, s.calls[c].at, true), user);
  }

  /** A confirming step that is not later than the one on record: a spent step is spent again. */
  lemma StepServesAgain(s: State, v: Verifier, hashOf: string -> Hash, c: CallId, now: int, hashes: seq<Hash>, user: User, base: int, n: nat)
    requires c in s.calls && s.calls[c].Confirming? && s.calls[c].user == user && OnlySetup(s, user, c) && Distinct(hashes)
    requires SpentSince(s, user, base, n) && n < |StepsOf(s.used, user)|
    requires Spendable(v, s.tables.totp[user].secret) && s.calls[c].step <= s.tables.totp[user].lastStep
    ensures exists t :: Reaches(Apply(s, v, hashOf, Step(c, now, hashes, Done)), v, hashOf, user, t) && !NoRepeats(StepsFrom(t.used, user, n))
  {
    var s' := Apply(s, v, hashOf, Step(c, now, hashes, Done));
    var xs, k, last := StepsFrom(s.used, user, n), s.calls[c].step, s.tables.totp[user].lastStep;
    Reconfirmed(s, v, hashOf, c, now, hashes, user, n);
    ReachesItself(s', v, hashOf, user);
    Repeated(xs, k);
    if k < last {
      assert Matchable(v, s.tables.totp[user].secret, k, last);
      var t := LaterStepIsSpent(s', v, hashOf, user, last, n);
    }
  }

  /** The last of the steps comes once more, at once or after another. */
  lemma Repeated(xs: seq<int>, k: int)
    requires xs != []
    ensures k == xs[|xs| - 1] ==> !NoRepeats(xs + [k])
    ensures !NoRepeats(xs + [k] + [xs[|xs| - 1]])
  {
    assert (xs + [k])[|xs| - 1] == xs[|xs| - 1] && (xs + [k])[|xs|] == k;
    var ys := xs + [k] + [xs[|xs| - 1]];
    assert ys[|xs| - 1] == ys[|xs| + 1];
  }

  /** A login may spend any later step with its code. */
  lemma LaterStepIsSpent(s: State, v: Verifier, hashOf: string -> Hash, user: User, step: int, n: nat) returns (t: State)
    requires Enrolled(s, user) && s.tables.totp[user].lastStep < step && n <= |StepsOf(s.used, user)|
    requires Matchable(v, s.tables.totp[user].secret, s.tables.totp[user].lastStep, step)
    ensures Reaches(s, v, hashOf, user, t) && StepsFrom(t.used, user, n) == StepsFrom(s.used, user, n) + [step]
  {
    var row := s.tables.totp[user];
    var code, at :| v(row.secret, code, at, row.lastStep) == Some(step);
    var e := SomeFreshKey(s.calls);
    ReachesItself(s, v, hashOf, user);
    LoginSpends(s, v, hashOf, user, s, e, code, at, step);
    t := State(StepUsed(s.tables, user, step), s.calls[e := Finished(true)], s.used + [StepUse(user, step, at, true)]);
    StepsOfNext(s.used, StepUse(user, step, at, true), user);
  }

  /**
   ConfirmTOTP does not look at the record it writes over.  When a setup read the enrolment
   before it was confirmed and confirms it once more, then in all that may follow no step is
   ever spent twice if and only if the confirming step is later than the one on record.
   */
  lemma LateConfirmationIff(s: State, v: Verifier, hashOf: string -> Hash, c: CallId, now: int, hashes: seq<Hash>, user: User, base: int, n: nat)
    requires c in s.calls && s.calls[c].Confirming? && s.calls[c].user == user && OnlySetup(s, user, c) && Distinct(hashes)
    requires SpentSince(s, user, base, n) && n < |StepsOf(s.used, user)|
    requires Spendable(v, s.tables.totp[user].secret)
    ensures (forall t :: Reaches(Apply(s, v, hashOf, Step(c, now, hashes, Done)), v, hashOf, user, t) ==>
               NoRepeats(StepsFrom(t.used, user, n)))
            <==> s.tables.totp[user].lastStep < s.calls[c].step
  {
    var s' := Apply(s, v, hashOf, Step(c, now, hashes, Done));
    if s.tables.totp[user].lastStep < s.calls[c].step {
      Reconfirmed(s, v, hashOf, c, now, hashes, user, n);
      StepsFitNext(StepsFrom(s.used, user, n), base, s.tables.totp[user].lastStep, s.calls[c].step);
      forall t | Reaches(s', v, hashOf, user, t) ensures NoRepeats(StepsFrom(t.used, user, n)) {
        var run :| Leads(s', v, hashOf, user, run, t);
        StepsIncrease(s', v, hashOf, run, user, base, n);
      }
    } else {
      StepServesAgain(s, v, hashOf, c, now, hashes, user, base, n);
    }
  }

  const INITIAL := State(Tables(map[], map[]), map[], [])

  /**
   It happens: the first code is sent twice at once, one request confirms, a login spends a
   later step, and then the other request confirms; the same login code is good again.
   */
  lemma CodeServesTwice(v: Verifier, hashOf: string -> Hash, user: User, secret: Secret, hashes: seq<Hash>,
                        first: string, t1: int, k: int, code: string, t2: int, step: int) returns (t: State)
    requires v(secret, first, t1, 0) == Some(k) && v(secret, code, t2, k) == Some(step) && k < step && Distinct(hashes)
    ensures Reaches(INITIAL, v, hashOf, user, t)
    ensures StepsOf(t.used, user) == [k, step, k, step]
  {
    ReachesItself(INITIAL, v, hashOf, user);
    ReachesNext(INITIAL, v, hashOf, user, INITIAL, Start(user, secret));
    var started := Apply(INITIAL, v, hashOf, Start(user, secret));
    SetupGetsToConfirm(INITIAL, v, hashOf, user, started, 0, first, t1, k);
    var one := started.(calls := started.calls[0 := Confirming(user, k, t1)]);
    SetupGetsToConfirm(INITIAL, v, hashOf, user, one, 1, first, t1, k);
    var both := one.(calls := one.calls[1 := Confirming(user, k, t1)]);
    t := ConfirmThenLogin(v, hashOf, user, both, 0, 2, hashes, code, t2, step);
    t := ConfirmThenLogin(v, hashOf, user, t, 1, 3, hashes, code, t2, step);
  }

  lemma ConfirmThenLogin(v: Verifier, hashOf: string -> Hash, user: User, s: State, c: CallId, e: CallId, hashes: seq<Hash>,
                         code: string, now: int, step: int) returns (t: State)
    requires Reaches(INITIAL, v, hashOf, user, s) && Distinct(hashes)
    requires c in s.calls && s.calls[c].Confirming? && s.calls[c].user == user && e !in s.calls
    requires user in s.tables.totp && s.calls[c].step < step && v(s.tables.totp[user].secret, code, now, s.calls[c].step) == Some(step)
    ensures Reaches(INITIAL, v, hashOf, user, t)
    ensures StepsOf(t.used, user) == StepsOf(s.used, user) + [s.calls[c].step, step]
    ensures t.calls == s.calls[c := Finished(true)][e := Finished(true)]
    ensures user in t.tables.totp && t.tables.totp[user].secret == s.tables.totp[user].secret
  {
    var call := s.calls[c];
    ReachesNext(INITIAL, v, hashOf, user, s, Step(c, now, hashes, Done));
    var s' := Apply(s, v, hashOf, Step(c, now, hashes, Done));
    StepsOfNext(s.used, StepUse(user, call.step, call.at, true), user);
    LoginSpends(INITIAL, v, hashOf, user, s', e, code, now, step);
    StepsOfNext(s'.used, StepUse(user, step, now, true), user);
    t := State(StepUsed(s'.tables, user, step), s'.calls[e := Finished(true)], s'.used + [StepUse(user, step, now, true)]);
    assert StepsOf(s.used, user) + [call.step] + [step] == StepsOf(s.used, user) + [call.step, step];
  }

  // ---------- the verifier of module Totp ----------

  function RealVerifier(mac: T.Mac, keyOf: Secret -> Option<seq<int>>): Verifier
    requires T.TwentyBytes(mac)
  {
    (secret: Secret, code: string, now: int, last: int) =>
      match keyOf(secret) case Some(key) => T.Verified(mac, key, code, now, last) case None => None
  }

  /** What is assumed of a verifier above is true of the real one. */
  lemma RealVerifierFits(mac: T.Mac, keyOf: Secret -> Option<seq<int>>, secret: Secret)
    requires T.TwentyBytes(mac)
    ensures Windowed(RealVerifier(mac, keyOf))
    ensures keyOf(secret).Some? ==> Spendable(RealVerifier(mac, keyOf), secret)
  {
    var v := RealVerifier(mac, keyOf);
    forall sec, code, now, last | v(sec, code, now, last).Some?
      ensures T.StepAt(now) - T.SKEW <= v(sec, code, now, last).value <= T.StepAt(now) + T.SKEW
    {
      T.VerifiedInWindow(mac, keyOf(sec).value, code, now, last);
    }
    if keyOf(secret).Some? {
      var key := keyOf(secret).value;
      forall last, step | last < step ensures Matchable(v, secret, last, step) {
        T.EveryStepHasItsMoment(mac, key, last, step);
        assert v(secret, T.Code(mac, key, step), T.PERIOD * (step + 1), last) == Some(step);
      }
    }
  }

  // ---------- failures ----------

  /**
   Whatever a call was about to do, a failure ends it with a refusal.  A failure before the effect
   leaves the tables alone; one after it leaves what success would have left.
   */
  lemma FailureIsARefusal(s: State, v: Verifier, hashOf: string -> Hash, c: CallId, now: int, hashes: seq<Hash>, outcome: Outcome)
    requires c in s.calls && !s.calls[c].Finished? && !outcome.Done?
    ensures var s' := StepCall(s, v, hashOf, c, now, hashes, outcome);
            && s'.calls == s.calls[c := Finished(false)]
            && (outcome.FailedBefore? ==> s'.tables == s.tables && s'.used == s.used)
            && (outcome.FailedAfter? ==> s'.tables == StepCall(s, v, hashOf, c, now, hashes, Done).tables)
  {
  }

  // ---------- one check by itself ----------

  /** What a check that nobody interleaves with leaves, and what it answers. */
  function CheckedAlone(t: Tables, v: Verifier, hashOf: string -> Hash, user: User, code: string, now: int): (Tables, bool) {
    if user !in t.totp || !t.totp[user].confirmed then (t, false)
    else match v(t.totp[user].secret, code, now, t.totp[user].lastStep)
         case Some(step) => (StepUsed(t, user, step), UsesStep(t, user, step))
         case None =>
           if |code| > 6 then (CodeUsed(t, user, hashOf(code)), UsesCode(t, user, hashOf(code))) else (t, false)
  }

  /** The call takes up to `n` steps, and the store answers each. */
  function AloneSteps(s: State, v: Verifier, hashOf: string -> Hash, c: CallId, now: int, n: nat): (s': State)
    requires c in s.calls
    ensures c in s'.calls
    decreases n
  {
    if n == 0 || s.calls[c].Finished? then s
    else AloneSteps(Apply(s, v, hashOf, Step(c, now, [], Done)), v, hashOf, c, now, n - 1)
  }

  /** In the machine it does just that. */
  lemma AloneCheckAgrees(s: State, v: Verifier, hashOf: string -> Hash, c: CallId, user: User, code: string, now: int)
    requires c !in s.calls
    ensures var end := AloneSteps(Apply(s, v, hashOf, Check(c, user, code)), v, hashOf, c, now, 3);
            && end.tables == CheckedAlone(s.tables, v, hashOf, user, code, now).0
            && end.calls[c] == Finished(CheckedAlone(s.tables, v, hashOf, user, code, now).1)
  {
    var s0 := Apply(s, v, hashOf, Check(c, user, code));
    var s1 := Apply(s0, v, hashOf, Step(c, now, [], Done));
    assert AloneSteps(s0, v, hashOf, c, now, 3) == AloneSteps(s1, v, hashOf, c, now, 2);
    if !s1.calls[c].Finished? {
      var s2 := Apply(s1, v, hashOf, Step(c, now, [], Done));
      assert AloneSteps(s1, v, hashOf, c, now, 2) == AloneSteps(s2, v, hashOf, c, now, 1);
      if !s2.calls[c].Finished? {
        var s3 := Apply(s2, v, hashOf, Step(c, now, [], Done));
        assert AloneSteps(s2, v, hashOf, c, now, 1) == AloneSteps(s3, v, hashOf, c, now, 0) == s3;
      }
    }
  }
}
