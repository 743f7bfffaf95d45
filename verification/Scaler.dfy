/**
 The autoscaler's decision: a pure rule on one reading, and the evaluator that makes it wait
 for a sustained signal and for a cool-down.  Times are in nanoseconds, CPU is a real.
 */
module Scaler {
  import opened Options

  type Time = int

  datatype Policy = Policy(minReplicas: int, maxReplicas: int, upPercent: real, downPercent: real,
                           sustainedTicks: int, cooldown: Time)

  /** What the admin API accepts as a policy. */
  predicate ValidPolicy(p: Policy) {
    && 0 <= p.minReplicas <= p.maxReplicas && 1 <= p.maxReplicas
    && 0.0 <= p.downPercent < p.upPercent
    && 0 <= p.sustainedTicks && 0 <= p.cooldown
  }

  datatype Metrics = Metrics(replicas: nat, cpu: real)

  datatype Action = NoAction | ScaleUp | ScaleDown

  datatype Decision = Decision(action: Action, immediate: bool)

  const STAY := Decision(NoAction, false)

  /** The rule on one reading. */
  function Decide(p: Policy, m: Metrics): Decision {
    if m.replicas < p.minReplicas then Decision(ScaleUp, true)
    else if m.cpu >= p.upPercent then
      if m.replicas >= p.maxReplicas then STAY else Decision(ScaleUp, false)
    else if m.cpu <= p.downPercent then
      if m.replicas <= p.minReplicas then STAY else Decision(ScaleDown, false)
    else STAY
  }

  /** With a valid policy every action keeps the number of replicas in range, or moves it towards it. */
  lemma DecideStaysInRange(p: Policy, m: Metrics)
    requires ValidPolicy(p)
    ensures Decide(p, m).action == ScaleUp ==> m.replicas < p.maxReplicas
    ensures Decide(p, m).action == ScaleDown ==> m.replicas > p.minReplicas
    ensures Decide(p, m).immediate <==> m.replicas < p.minReplicas
    ensures p.minReplicas <= m.replicas <= p.maxReplicas && p.downPercent < m.cpu < p.upPercent ==> Decide(p, m) == STAY
  {
  }

  // ---------- the evaluator ----------

  datatype Waits = Waits(up: nat, down: nat, lastAction: Option<Time>)

  predicate OnCooldown(p: Policy, lastAction: Option<Time>, now: Time) {
    p.cooldown > 0 && lastAction.Some? && now - lastAction.value < p.cooldown
  }

  function Needed(p: Policy): int {
    if p.sustainedTicks < 1 then 1 else p.sustainedTicks
  }

  class Evaluator {
    var policy: Policy
    var consecutiveUp: nat
    var consecutiveDown: nat
    var lastAction: Option<Time>

    constructor (policy: Policy)
      ensures this.policy == policy && State() == Waits(0, 0, None)
    {
      this.policy := policy;
      consecutiveUp, consecutiveDown, lastAction := 0, 0, None;
    }

    function State(): Waits
      reads this
    {
      Waits(consecutiveUp, consecutiveDown, lastAction)
    }

    /** Progress towards an action survives a change of policy. */
    method SetPolicy(p: Policy)
      modifies this`policy
      ensures policy == p
    {
      policy := p;
    }

    method Evaluate(m: Metrics, now: Time) returns (d: Decision)
      modifies this`consecutiveUp, this`consecutiveDown, this`lastAction
      ensures (State(), d) == Evaluated(policy, old(State()), m, now)
    {
      var raw := Decide(policy, m);
      if raw.action == NoAction || raw.immediate {
        consecutiveUp, consecutiveDown := 0, 0;
        return raw;
      }
      var consecutive;
      if raw.action == ScaleDown {
        consecutiveDown, consecutiveUp := consecutiveDown + 1, 0;
        consecutive := consecutiveDown;
      } else {
        consecutiveUp, consecutiveDown := consecutiveUp + 1, 0;
        consecutive := consecutiveUp;
      }
      var sustained := policy.sustainedTicks;
      if sustained < 1 {
        sustained := 1;
      }
      if consecutive < sustained {
        return STAY;
      }
      if policy.cooldown > 0 && lastAction.Some? {
        if now - lastAction.value < policy.cooldown {
          return STAY;
        }
      }
      lastAction := Some(now);
      consecutiveUp, consecutiveDown := 0, 0;
      d := raw;
    }
  }

  /** One evaluation, as a function of what the evaluator remembers. */
  function Evaluated(p: Policy, w: Waits, m: Metrics, now: Time): (Waits, Decision) {
    var raw := Decide(p, m);
    if raw.action == NoAction || raw.immediate then (Waits(0, 0, w.lastAction), raw)
    else
      var up := if raw.action == ScaleUp then w.up + 1 else 0;
      var down := if raw.action == ScaleDown then w.down + 1 else 0;
      if up + down < Needed(p) || OnCooldown(p, w.lastAction, now) then (Waits(up, down, w.lastAction), STAY)
      else (Waits(0, 0, Some(now)), raw)
  }

  // ---------- histories ----------

  /** A reading arrives, or somebody changes the policy. */
  datatype Input = Tick(m: Metrics, now: Time) | NewPolicy(p: Policy)

  /** What one tick looked like: the raw decision, what came out, and under which policy. */
  datatype Entry = Entry(policy: Policy, raw: Decision, out: Decision, now: Time)

  datatype Replay = Replay(policy: Policy, waits: Waits, log: seq<Entry>)

  function Replayed(p: Policy, inputs: seq<Input>): Replay {
    if inputs == [] then Replay(p, Waits(0, 0, None), [])
    else
      var before := Replayed(p, inputs[..|inputs| - 1]);
      match inputs[|inputs| - 1]
      case NewPolicy(p') => before.(policy := p')
      case Tick(m, now) =>
        var (waits, d) := Evaluated(before.policy, before.waits, m, now);
        Replay(before.policy, waits, before.log + [Entry(before.policy, Decide(before.policy, m), d, now)])
  }

  /** The entry asks for `a` without being immediate. */
  predicate Asks(e: Entry, a: Action) {
    a != NoAction && e.raw.action == a && !e.raw.immediate
  }

  /** A non-immediate action was taken. */
  predicate Acts(e: Entry) {
    e.out.action != NoAction && !e.out.immediate
  }

  /** How many entries at the end of the log ask for `a` and were all refused. */
  function PendingRun(log: seq<Entry>, a: Action): nat {
    if log == [] then 0
    else
      var e := log[|log| - 1];
      if Asks(e, a) && !Acts(e) then PendingRun(log[..|log| - 1], a) + 1 else 0
  }

  /** When the last non-immediate action was taken. */
  function LastAct(log: seq<Entry>): Option<Time> {
    if log == [] then None
    else if Acts(log[|log| - 1]) then Some(log[|log| - 1].now)
    else LastAct(log[..|log| - 1])
  }

  /** An entry is what its predecessors make it. */
  ghost predicate EntryFollows(before: seq<Entry>, e: Entry) {
    if e.raw.action == NoAction || e.raw.immediate then e.out == e.raw
    else if PendingRun(before, e.raw.action) + 1 >= Needed(e.policy) && !OnCooldown(e.policy, LastAct(before), e.now)
    then e.out == e.raw
    else e.out == STAY
  }

  ghost predicate Follows(log: seq<Entry>) {
    forall i :: 0 <= i < |log| ==> EntryFollows(log[..i], log[i])
  }

  /**
   The evaluator's memory is exactly its history: each counter is the length of the current
   run of refused requests of its direction since the last reset or action, the other is
   zero, and the stamp is that of the last non-immediate action, with any changes of policy
   in between.  Every decision follows from the history alone.
   */
  lemma {:induction false} HistoryExplainsEvaluator(p: Policy, inputs: seq<Input>)
    ensures var r := Replayed(p, inputs);
            && Explained(r.log, r.waits)
            && Follows(r.log)
    decreases inputs
  {
    if inputs != [] {
      var start := inputs[..|inputs| - 1];
      HistoryExplainsEvaluator(p, start);
      var before := Replayed(p, start);
      match inputs[|inputs| - 1]
      case Tick(m, now) =>
        OneTick(before.log, before.waits, before.policy, m, now);
        FollowsNext(before.log, Entry(before.policy, Decide(before.policy, m), Evaluated(before.policy, before.waits, m, now).1, now));
      case NewPolicy(_) =>
    }
  }

  predicate Explained(log: seq<Entry>, w: Waits) {
    w == Waits(PendingRun(log, ScaleUp), PendingRun(log, ScaleDown), LastAct(log)) && (w.up == 0 || w.down == 0)
  }

  lemma OneTick(log: seq<Entry>, w: Waits, p: Policy, m: Metrics, now: Time)
    requires Explained(log, w)
    ensures var (w', d) := Evaluated(p, w, m, now);
            var e := Entry(p, Decide(p, m), d, now);
            Explained(log + [e], w') && EntryFollows(log, e)
  {
  }

  lemma FollowsNext(log: seq<Entry>, e: Entry)
    requires Follows(log) && EntryFollows(log, e)
    ensures Follows(log + [e])
  {
    var longer := log + [e];
    forall i | 0 <= i < |longer| ensures EntryFollows(longer[..i], longer[i]) {
      if i < |log| {
        assert longer[..i] == log[..i];
      } else {
        assert longer[..i] == log;
      }
    }
  }

  lemma {:induction false} PendingRunEntries(log: seq<Entry>, a: Action)
    ensures PendingRun(log, a) <= |log|
    ensures forall i :: |log| - PendingRun(log, a) <= i < |log| ==> Asks(log[i], a) && !Acts(log[i])
    decreases log
  {
    if log != [] {
      PendingRunEntries(log[..|log| - 1], a);
    }
  }

  /**
   Sustained: a non-immediate action at entry `i` ends a row of at least max(1, sustained)
   evaluations that all asked for it, the earlier ones refused.
   */
  lemma SustainedSignal(p: Policy, inputs: seq<Input>, i: nat)
    requires i < |Replayed(p, inputs).log| && Acts(Replayed(p, inputs).log[i])
    ensures var log := Replayed(p, inputs).log;
            var need := Needed(log[i].policy);
            && need <= i + 1
            && forall j :: i + 1 - need <= j <= i ==> Asks(log[j], log[i].out.action) && (j < i ==> !Acts(log[j]))
  {
    HistoryExplainsEvaluator(p, inputs);
    var log := Replayed(p, inputs).log;
    assert EntryFollows(log[..i], log[i]);
    PendingRunEntries(log[..i], log[i].raw.action);
  }

  lemma {:induction false} LastActIsLatest(log: seq<Entry>, j: nat)
    requires j < |log| && Acts(log[j])
    requires forall a, b :: 0 <= a <= b < |log| ==> log[a].now <= log[b].now
    ensures LastAct(log).Some? && log[j].now <= LastAct(log).value
    decreases log
  {
    if j < |log| - 1 && !Acts(log[|log| - 1]) {
      LastActIsLatest(log[..|log| - 1], j);
    }
  }

  /** Cool-down: two non-immediate actions are at least the later one's cool-down apart. */
  lemma ActionsAreSpaced(p: Policy, inputs: seq<Input>, j: nat, i: nat)
    requires j < i < |Replayed(p, inputs).log|
    requires Acts(Replayed(p, inputs).log[j]) && Acts(Replayed(p, inputs).log[i])
    requires forall a, b :: 0 <= a <= b < |Replayed(p, inputs).log| ==> Replayed(p, inputs).log[a].now <= Replayed(p, inputs).log[b].now
    ensures Replayed(p, inputs).log[i].now - Replayed(p, inputs).log[j].now >= Replayed(p, inputs).log[i].policy.cooldown
            || Replayed(p, inputs).log[i].policy.cooldown <= 0
  {
    HistoryExplainsEvaluator(p, inputs);
    var log := Replayed(p, inputs).log;
    assert EntryFollows(log[..i], log[i]);
    LastActIsLatest(log[..i], j);
  }

  // ---------- exactly when an action is taken ----------

  /** What a valid policy asks for, reading by reading. */
  lemma ReadingsAsk(p: Policy, m: Metrics)
    requires ValidPolicy(p)
    ensures m.replicas < p.minReplicas ==> Decide(p, m) == Decision(ScaleUp, true)
    ensures p.minReplicas <= m.replicas && m.cpu >= p.upPercent ==>
              Decide(p, m) == if m.replicas < p.maxReplicas then Decision(ScaleUp, false) else STAY
    ensures p.minReplicas <= m.replicas && m.cpu <= p.downPercent ==>
              Decide(p, m) == if m.replicas > p.minReplicas then Decision(ScaleDown, false) else STAY
    ensures p.minReplicas <= m.replicas && p.downPercent < m.cpu < p.upPercent ==> Decide(p, m) == STAY
  {
  }

  /** The entries from `from` on all ask for `a` and were all refused. */
  ghost predicate AllPending(log: seq<Entry>, from: int, a: Action) {
    0 <= from && forall j :: from <= j < |log| ==> Asks(log[j], a) && !Acts(log[j])
  }

  lemma {:induction false} PendingRunIs(log: seq<Entry>, a: Action, n: nat)
    ensures PendingRun(log, a) >= n <==> AllPending(log, |log| - n, a)
    decreases |log|
  {
    if log != [] && n > 0 {
      var start, e := log[..|log| - 1], log[|log| - 1];
      PendingRunIs(start, a, n - 1);
      assert forall j :: 0 <= j < |start| ==> start[j] == log[j];
      if AllPending(log, |log| - n, a) {
        assert Asks(log[|log| - 1], a);
      }
    }
  }

  /** Every non-immediate action so far is at least `p`'s cool-down back. */
  ghost predicate CooledDown(log: seq<Entry>, p: Policy, now: Time) {
    p.cooldown > 0 ==> forall j :: 0 <= j < |log| && Acts(log[j]) ==> now - log[j].now >= p.cooldown
  }

  ghost predicate TimesRise(log: seq<Entry>) {
    forall a, b :: 0 <= a <= b < |log| ==> log[a].now <= log[b].now
  }

  lemma {:induction false} CooldownIs(log: seq<Entry>, p: Policy, now: Time)
    requires TimesRise(log)
    ensures OnCooldown(p, LastAct(log), now) <==> !CooledDown(log, p, now)
    decreases |log|
  {
    if log != [] && !Acts(log[|log| - 1]) {
      var start := log[..|log| - 1];
      assert forall j :: 0 <= j < |start| ==> start[j] == log[j];
      CooldownIs(start, p, now);
    }
  }

  /**
   A request is granted exactly when it is the last of a row of max(1, sustained) like it, the
   others refused, and every non-immediate action before it is a cool-down back.
   */
  lemma ActsIff(p: Policy, inputs: seq<Input>, i: nat)
    requires i < |Replayed(p, inputs).log| && TimesRise(Replayed(p, inputs).log)
    requires Asks(Replayed(p, inputs).log[i], Replayed(p, inputs).log[i].raw.action)
    ensures var log := Replayed(p, inputs).log;
            var need := if log[i].policy.sustainedTicks > 1 then log[i].policy.sustainedTicks else 1;
            Acts(log[i]) <==> AllPending(log[..i], i + 1 - need, log[i].raw.action)
                              && CooledDown(log[..i], log[i].policy, log[i].now)
    ensures Acts(Replayed(p, inputs).log[i]) ==> Replayed(p, inputs).log[i].out == Replayed(p, inputs).log[i].raw
  {
    HistoryExplainsEvaluator(p, inputs);
    var log := Replayed(p, inputs).log;
    assert EntryFollows(log[..i], log[i]);
    PendingRunIs(log[..i], log[i].raw.action, Needed(log[i].policy) - 1);
    CooldownIs(log[..i], log[i].policy, log[i].now);
  }

  /**
   Load is answered: of any row of evaluations that all ask for `a`, as long as the policy wants,
   one takes it, if what was taken before the row is a cool-down back at its end.
   */
  lemma SustainedRequestIsGranted(p: Policy, inputs: seq<Input>, i: nat, a: Action)
    requires i < |Replayed(p, inputs).log| && TimesRise(Replayed(p, inputs).log)
    requires var log := Replayed(p, inputs).log;
             var first := i + 1 - Needed(log[i].policy);
             && 0 <= first && (forall j :: first <= j <= i ==> Asks(log[j], a))
             && CooledDown(log[..first], log[i].policy, log[i].now)
    ensures var log := Replayed(p, inputs).log;
            exists j :: i + 1 - Needed(log[i].policy) <= j <= i && Acts(log[j]) && log[j].out == Decision(a, false)
  {
    var log := Replayed(p, inputs).log;
    var first := i + 1 - Needed(log[i].policy);
    if j :| first <= j < i && Acts(log[j]) {
      ActsIff(p, inputs, j);
    } else {
      QuietRow(log, first, i, a, log[i].policy, log[i].now);
      ActsIff(p, inputs, i);
    }
  }

  /** A row of requests, none of them granted yet. */
  lemma QuietRow(log: seq<Entry>, first: int, i: nat, a: Action, p: Policy, now: Time)
    requires 0 <= first <= i < |log| && CooledDown(log[..first], p, now)
    requires forall j :: first <= j < i ==> Asks(log[j], a) && !Acts(log[j])
    ensures AllPending(log[..i], first, a) && CooledDown(log[..i], p, now)
  {
    assert forall j :: 0 <= j < first ==> log[..i][j] == log[..first][j];
  }
}
