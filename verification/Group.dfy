/**
 An autoscaling group: every tick reads the containers once, decides, acts and refreshes
 the balancer, while containers chosen for scale-down leave on their own time.

 A drained container is stopped and its entry dropped by a goroutine that takes no part in
 the reconcile lock, so it may move between any two operations of a tick (`DrainStep`s).
 */
module Group {
  import opened Options
  import opened Sets
  import opened Scaler
  import opened Draining
  import opened RoundRobin

  /** What the goroutine of a draining container does: stop it, and at the end, stopped or not, forget it. */
  datatype DrainStep = Stop(id: Id) | Finish(id: Id)

  /** Everything one tick learns from outside. */
  datatype Tick = Tick(
    listOk: bool,                   // the container listing
    listedAt: Time,                 // when it was made
    stats: Id -> Reading,           // CPU readings for the average
    now: Time,
    created: Option<Id>,            // the container a scale-up brings, if it brings one
    statsAgain: Id -> Reading,      // CPU readings for the choice of a target
    addr: Id -> Option<string>,     // address of each container that passes its health check
    gaps: seq<seq<DrainStep>>)      // drain steps before the tick and between its operations

  function Gap(t: Tick, i: nat): seq<DrainStep> {
    if i < |t.gaps| then t.gaps[i] else []
  }

  // ---------- the floor ----------

  /** The containers that still take requests. */
  function Serving(running: set<Id>, draining: set<Id>): set<Id> {
    running - draining
  }

  lemma CardSplit(running: set<Id>, draining: set<Id>)
    ensures |Serving(running, draining)| == |running| - |running * draining|
  {
  }

  /**
   A scale-down leaves at least `min` containers serving exactly when the group had at least
   `min + 1` beside those already draining.  The decision only sees that it has `min + 1`
   in all, so the floor holds for sure only when nothing was draining.
   */
  lemma ScaleDownFloorIff(running: set<Id>, draining: set<Id>, target: Id, min: nat)
    requires target in Serving(running, draining)
    ensures |Serving(running, draining + {target})| >= min
            <==> |running| >= min + |running * draining| + 1
    ensures |running| >= min + 1 ==> |Serving(running, draining + {target})| >= min - |running * draining|
  {
    CardSplit(running, draining + {target});
    assert running * (draining + {target}) == running * draining + {target};
  }

  /** Drains moved: containers stopped or came back, and none that serves was taken. */
  ghost predicate Drifted(running0: set<Id>, ids0: set<Id>, running: set<Id>, ids: set<Id>) {
    && running <= running0 && ids <= ids0
    && running0 - running <= ids0
    && Serving(running0, ids0) <= Serving(running, ids)
  }

  /** What the group owes its policy after a tick that listed `running0` with `ids0` draining. */
  ghost predicate TickKeeps(p: Policy, running0: set<Id>, ids0: set<Id>, running: set<Id>, ids: set<Id>, down: bool) {
    var serving := |Serving(running, ids)|;
    && (|running| <= |running0| || |running| <= p.maxReplicas)
    && |running| <= |running0| + 1
    && (down ==> serving >= p.minReplicas - |running0 * ids0|)
    && (!down ==> serving >= |Serving(running0, ids0)|)
  }

  /**
   One tick as sets: what it listed, what it leaves, the container it brought and the one it
   chose to drain, each of them only on the condition of its decision.
   */
  ghost predicate TickMoves(p: Policy, running0: set<Id>, ids0: set<Id>, running: set<Id>, ids: set<Id>,
                            brought: Option<Id>, drained: Option<Id>) {
    && running <= running0 + Single(brought)
    && ids <= ids0 + Single(drained)
    && Serving(running0, ids0) - Single(drained) <= Serving(running, ids)
    && (brought.Some? ==> |running0| < p.maxReplicas && drained.None?)
    && (drained.Some? ==> |running0| > p.minReplicas && drained.value in running0)
  }

  /** The tick moved nothing but what it brought and what it chose, which was not draining before. */
  ghost predicate Exactly(running0: set<Id>, ids0: set<Id>, running: set<Id>, ids: set<Id>, brought: Option<Id>, drained: Option<Id>) {
    && running == running0 + Single(brought) && ids == ids0 + Single(drained)
    && (drained.Some? ==> drained.value in Serving(running0, ids0) && brought.None?)
  }

  function Single(x: Option<Id>): set<Id> {
    if x.Some? then {x.value} else {}
  }

  lemma TickMovesKeep(p: Policy, running0: set<Id>, ids0: set<Id>, running: set<Id>, ids: set<Id>,
                      brought: Option<Id>, drained: Option<Id>)
    requires TickMoves(p, running0, ids0, running, ids, brought, drained)
    ensures TickKeeps(p, running0, ids0, running, ids, drained.Some?)
  {
    SubsetSize(running, running0 + Single(brought));
    SubsetSize(Serving(running0, ids0) - Single(drained), Serving(running, ids));
    CardSplit(running0, ids0);
    match drained
    case Some(x) => assert |Serving(running0, ids0) - {x}| >= |Serving(running0, ids0)| - 1;
    case None => assert Serving(running0, ids0) - {} == Serving(running0, ids0);
    match brought
    case Some(x) => assert |running0 + {x}| <= |running0| + 1;
    case None => assert running0 + {} == running0;
  }

  /** The decision of a tick that listed these containers; readings that fail postpone it. */
  predicate Decided(p: Policy, w0: Waits, w: Waits, d: Decision, listed: seq<Id>, t: Tick) {
    match Aggregated(listed, t.stats)
    case Some(m) => (w, d) == Evaluated(p, w0, m, t.now)
    case None => d == STAY && w == w0
  }

  /**
   What became of the decision with `ids` draining: the container that came, or the least
   loaded candidate for the way out, unless everything listed is on its way already.
   */
  ghost predicate Acted(d: Decision, listed: seq<Id>, ids: set<Id>, t: Tick, brought: Option<Id>, drained: Option<Id>) {
    && brought == (if d.action == ScaleUp then t.created else None)
    && (drained.Some? ==> d.action == ScaleDown && LeastLoaded(Without(listed, ids), t.statsAgain, drained.value))
    && (drained.None? && d.action == ScaleDown ==> Without(listed, ids) == [])
  }

  /** A tick decided on these containers and acted with some of the drains of its beginning still under way. */
  ghost predicate DecidedAndActed(p: Policy, w0: Waits, w: Waits, d: Decision, listed: seq<Id>, ids0: set<Id>, t: Tick,
                                  brought: Option<Id>, drained: Option<Id>) {
    Decided(p, w0, w, d, listed, t) && exists ids :: ids <= ids0 && Acted(d, listed, ids, t, brought, drained)
  }

  /** The listing is the running containers, each once. */
  ghost predicate ListsAll(listed: seq<Id>, running: set<Id>) {
    (forall x :: x in listed <==> x in running) && |listed| == |running|
  }

  /** The backends are exactly the healthy listed containers outside `ids`. */
  ghost predicate BackendsAre(backends: seq<Backend>, listed: seq<Id>, ids: set<Id>, addr: Id -> Option<string>) {
    forall b :: b in backends <==> b.containerId in listed && b.containerId !in ids && addr(b.containerId) == Some(b.addr)
  }

  /** The backends left out at least what is draining now, and at most what was then. */
  ghost predicate Balanced(backends: seq<Backend>, listed: seq<Id>, now: set<Id>, before: set<Id>, addr: Id -> Option<string>) {
    exists ids :: now <= ids <= before && BackendsAre(backends, listed, ids, addr)
  }

  lemma BalancedFollows(backends: seq<Backend>, listed: seq<Id>, running: set<Id>, now: set<Id>, before: set<Id>, wider: set<Id>,
                        addr: Id -> Option<string>)
    requires ListsAll(listed, running) && Balanced(backends, listed, now, before, addr) && before <= wider
    ensures Balanced(backends, listed, now, wider, addr)
    ensures forall b :: b in backends ==> b.containerId in running && b.containerId !in now
  {
  }

  /** The container is the target of the choice among the candidates. */
  ghost predicate LeastLoaded(candidates: seq<Id>, reading: Id -> Reading, x: Id) {
    exists i: nat :: IsTarget(candidates, reading, i) && candidates[i] == x
  }

  lemma ActionMoves(p: Policy, running0: set<Id>, ids0: set<Id>, running: set<Id>, ids: set<Id>,
                    brought: Option<Id>, drained: Option<Id>)
    requires Drifted(running0, ids0, running, ids)
    requires brought.Some? ==> |running0| < p.maxReplicas && drained.None?
    requires drained.Some? ==> |running0| > p.minReplicas && drained.value in running0
    ensures TickMoves(p, running0, ids0, running + Single(brought), ids + Single(drained), brought, drained)
  {
  }

  lemma DrainFloorIff(running0: set<Id>, ids0: set<Id>, running: set<Id>, ids: set<Id>, brought: Option<Id>, drained: Option<Id>, min: nat)
    requires Exactly(running0, ids0, running, ids, brought, drained) && drained.Some?
    ensures |Serving(running, ids)| >= min <==> |running0| >= min + |running0 * ids0| + 1
  {
    assert running == running0;
    ScaleDownFloorIff(running0, ids0, drained.value, min);
  }

  /**
   What a tick that made its listing has done: its decision and action; what it moved; where no
   drain moved meanwhile, exactly that, and the minimum still serves after a scale-down if and
   only if there was one more than it beside those draining; and below the minimum, with nothing
   draining and nothing failing, one container more.
   */
  ghost predicate TickDone(p: Policy, w0: Waits, w: Waits, running0: set<Id>, ids0: set<Id>, running: set<Id>, ids: set<Id>,
                           d: Decision, listed: seq<Id>, t: Tick, brought: Option<Id>, drained: Option<Id>) {
    && ListsAll(listed, running0)
    && DecidedAndActed(p, w0, w, d, listed, ids0, t, brought, drained)
    && TickMoves(p, running0, ids0, running, ids, brought, drained)
    && (t.gaps == [] ==>
          && Exactly(running0, ids0, running, ids, brought, drained)
          && (drained.Some? ==> (|Serving(running, ids)| >= p.minReplicas <==> |running0| >= p.minReplicas + |running0 * ids0| + 1)))
    && (ids0 == {} && |running0| < p.minReplicas && Successful(t) ==>
          drained == None && ids == {} && running == running0 + {t.created.value})
  }

  /** Deciding, a drain moving or not, and acting make a tick. */
  lemma DoneAfterAct(p: Policy, w0: Waits, w: Waits, running0: set<Id>, ids0: set<Id>, running1: set<Id>, ids1: set<Id>,
                     d: Decision, listed: seq<Id>, t: Tick, brought: Option<Id>, drained: Option<Id>)
    requires ValidPolicy(p) && ListsAll(listed, running0) && Decided(p, w0, w, d, listed, t)
    requires Drifted(running0, ids0, running1, ids1) && (t.gaps == [] ==> running1 == running0 && ids1 == ids0)
    requires Acted(d, listed, ids1, t, brought, drained) && (drained.Some? ==> drained.value in listed && drained.value !in ids1)
    requires d.action == ScaleUp ==> |listed| < p.maxReplicas
    requires d.action == ScaleDown ==> |listed| > p.minReplicas
    requires |listed| < p.minReplicas && Successful(t) ==> d.action == ScaleUp
    ensures TickDone(p, w0, w, running0, ids0, running1 + Single(brought), ids1 + Single(drained), d, listed, t, brought, drained)
  {
    ActionMoves(p, running0, ids0, running1, ids1, brought, drained);
    DriftCounts(running0, ids0, running1, ids1);
    if t.gaps == [] && drained.Some? {
      DrainFloorIff(running0, ids0, running1 + Single(brought), ids1 + Single(drained), brought, drained, p.minReplicas);
    }
  }

  lemma DoneThenDrift(p: Policy, w0: Waits, w: Waits, running0: set<Id>, ids0: set<Id>, running1: set<Id>, ids1: set<Id>,
                      running: set<Id>, ids: set<Id>, d: Decision, listed: seq<Id>, t: Tick, brought: Option<Id>, drained: Option<Id>)
    requires TickDone(p, w0, w, running0, ids0, running1, ids1, d, listed, t, brought, drained)
    requires Drifted(running1, ids1, running, ids) && (t.gaps == [] ==> running == running1 && ids == ids1)
    ensures TickDone(p, w0, w, running0, ids0, running, ids, d, listed, t, brought, drained)
  {
    DriftCounts(running1, ids1, running, ids);
  }

  // ---------- metrics ----------

  function Sum(members: seq<Id>, stats: Id -> Reading): real
    requires forall x :: x in members ==> stats(x).Some?
  {
    if members == [] then 0.0 else Sum(members[..|members| - 1], stats) + stats(members[|members| - 1]).value
  }

  /** The reading of the whole service: none when any container's stats fail. */
  function Aggregated(members: seq<Id>, stats: Id -> Reading): Option<Metrics> {
    if members == [] then Some(Metrics(0, 0.0))
    else if forall i :: 0 <= i < |members| ==> stats(members[i]).Some? then
      Some(Metrics(|members|, Sum(members, stats) / (|members| as real)))
    else None
  }

  method Aggregate(members: seq<Id>, stats: Id -> Reading) returns (m: Option<Metrics>)
    ensures m == Aggregated(members, stats)
  {
    if |members| == 0 {
      return Some(Metrics(0, 0.0));
    }
    var total := 0.0;
    for i := 0 to |members|
      invariant forall j :: 0 <= j < i ==> stats(members[j]).Some?
      invariant total == Sum(members[..i], stats)
    {
      assert members[..i + 1][..i] == members[..i];
      match stats(members[i])
      case None => return None;
      case Some(cpu) => total := total + cpu;
    }
    assert members[..|members|] == members;
    m := Some(Metrics(|members|, total / (|members| as real)));
  }

  // ---------- the group ----------

  class ScalingGroup {
    var running: set<Id>
    const draining: DrainSet
    const evaluator: Evaluator
    const balancer: Balancer

    constructor (policy: Policy, running: set<Id>)
      ensures this.running == running && draining.ids == {}
      ensures evaluator.policy == policy && evaluator.State() == Waits(0, 0, None)
      ensures fresh(draining) && fresh(evaluator) && fresh(balancer)
    {
      this.running := running;
      draining := new DrainSet();
      evaluator := new Evaluator(policy);
      balancer := new Balancer();
    }

    /** The goroutines move: a draining container stops, or a drain ends. */
    method Drift(steps: seq<DrainStep>)
      modifies this, draining
      ensures Drifted(old(running), old(draining.ids), running, draining.ids)
      ensures steps == [] ==> running == old(running) && draining.ids == old(draining.ids)
    {
      for i := 0 to |steps|
        invariant Drifted(old(running), old(draining.ids), running, draining.ids)
        invariant i == 0 ==> running == old(running) && draining.ids == old(draining.ids)
      {
        if steps[i].id in draining.ids {
          match steps[i]
          case Stop(id) => running := running - {id};
          case Finish(id) => draining.Remove(id);
        }
      }
    }

    /** The running containers in some order, each once. */
    method List() returns (members: seq<Id>)
      ensures forall x :: x in members <==> x in running
      ensures |members| == |running|
    {
      members := [];
      var rest := running;
      while rest != {}
        invariant forall x :: x in running <==> x in members || x in rest
        invariant |members| + |rest| == |running| && rest <= running
        decreases rest
      {
        var x :| x in rest;
        members := members + [x];
        rest := rest - {x};
      }
    }

    /** startDrain: one more container leaves the rotation, never one that is leaving already. */
    method StartDrain(containers: seq<Id>, reading: Id -> Reading) returns (target: Option<Id>)
      modifies draining
      ensures target == None <==> Without(containers, old(draining.ids)) == []
      ensures target == None ==> draining.ids == old(draining.ids)
      ensures target.Some? ==>
                && target.value in containers && target.value !in old(draining.ids)
                && draining.ids == old(draining.ids) + {target.value}
                && LeastLoaded(Without(containers, old(draining.ids)), reading, target.value)
    {
      var candidates := draining.ExcludeDraining(containers);
      WithoutIs(containers, draining.ids);
      ghost var at;
      target, at := SelectScaleDownTarget(candidates, reading);
      if target.Some? {
        assert candidates[at] in candidates;
        draining.Add(target.value);
      }
    }

    /** Backends: the members that pass their health check, in order. */
    method Healthy(members: seq<Id>, addr: Id -> Option<string>) returns (backends: seq<Backend>)
      ensures forall b :: b in backends <==> b.containerId in members && addr(b.containerId) == Some(b.addr)
    {
      backends := [];
      for i := 0 to |members|
        invariant forall b :: b in backends <==> b.containerId in members[..i] && addr(b.containerId) == Some(b.addr)
      {
        assert members[..i + 1] == members[..i] + [members[i]];
        match addr(members[i])
        case Some(a) => backends := backends + [Backend(members[i], a)];
        case None =>
      }
      assert members[..|members|] == members;
    }

    /** No backend is a container on its way out, and all were listed. */
    ghost predicate BalancerFollows(listed: set<Id>)
      reads balancer, draining
    {
      forall b :: b in balancer.backends ==> b.containerId in listed && b.containerId !in draining.ids
    }

    /** The action of a tick on the containers it listed. */
    method Act(d: Decision, containers: seq<Id>, t: Tick) returns (drained: Option<Id>, ghost brought: Option<Id>)
      modifies this, draining
      ensures draining.ids == old(draining.ids) + Single(drained) && running == old(running) + Single(brought)
      ensures Acted(d, containers, old(draining.ids), t, brought, drained)
      ensures drained.Some? ==> drained.value in containers && drained.value !in old(draining.ids)
    {
      drained, brought := None, None;
      match d.action
      case NoAction =>
      case ScaleUp =>
        brought := t.created;
        running := running + if t.created.Some? then {t.created.value} else {};
      case ScaleDown =>
        drained := StartDrain(containers, t.statsAgain);
    }

    /** The evaluation of a tick; readings that fail postpone it. */
    method Evaluation(containers: seq<Id>, t: Tick) returns (d: Decision)
      requires ValidPolicy(evaluator.policy)
      modifies evaluator`consecutiveUp, evaluator`consecutiveDown, evaluator`lastAction
      ensures Decided(evaluator.policy, old(evaluator.State()), evaluator.State(), d, containers, t)
      ensures d.action == ScaleUp ==> |containers| < evaluator.policy.maxReplicas
      ensures d.action == ScaleDown ==> |containers| > evaluator.policy.minReplicas
      ensures |containers| < evaluator.policy.minReplicas && Successful(t) ==> d.action == ScaleUp
    {
      var m := Aggregate(containers, t.stats);
      if m.None? {
        return STAY;
      }
      DecideStaysInRange(evaluator.policy, m.value);
      d := evaluator.Evaluate(m.value, t.now);
    }

    /** The decision half of a tick. */
    method DecideAndAct(containers: seq<Id>, t: Tick) returns (d: Decision, drained: Option<Id>, ghost brought: Option<Id>)
      requires ValidPolicy(evaluator.policy) && ListsAll(containers, running)
      modifies this, draining, evaluator`consecutiveUp, evaluator`consecutiveDown, evaluator`lastAction
      ensures TickDone(evaluator.policy, old(evaluator.State()), evaluator.State(), old(running), old(draining.ids),
                       running, draining.ids, d, containers, t, brought, drained)
    {
      ghost var w0, running0, ids0 := evaluator.State(), running, draining.ids;
      d := Evaluation(containers, t);
      Drift(Gap(t, 0));
      ghost var running1, ids1 := running, draining.ids;
      drained, brought := Act(d, containers, t);
      DoneAfterAct(evaluator.policy, w0, evaluator.State(), running0, ids0, running1, ids1, d, containers, t, brought, drained);
    }

    /** The serving half of a tick: every backend is a listed container that is not leaving. */
    method Refresh(containers: seq<Id>, t: Tick)
      modifies this, draining, balancer`backends
      ensures Drifted(old(running), old(draining.ids), running, draining.ids)
      ensures Balanced(balancer.backends, containers, draining.ids, old(draining.ids), t.addr)
      ensures t.gaps == [] ==> running == old(running) && draining.ids == old(draining.ids)
    {
      Drift(Gap(t, 1));
      if |containers| == 0 {
        balancer.SetBackends([]);
        assert BackendsAre(balancer.backends, containers, draining.ids, t.addr);
        return;
      }
      ghost var ids := draining.ids;
      var active := draining.ExcludeDraining(containers);
      WithoutIs(containers, draining.ids);
      Drift(Gap(t, 2));
      var backends := Healthy(active, t.addr);
      balancer.SetBackends(backends);
      assert BackendsAre(balancer.backends, containers, ids, t.addr);
    }

    /** reconcile: one tick. */
    method Reconcile(t: Tick) returns (d: Decision, drained: Option<Id>, ghost brought: Option<Id>, ghost listed: seq<Id>)
      requires ValidPolicy(evaluator.policy)
      modifies this, draining, evaluator`consecutiveUp, evaluator`consecutiveDown, evaluator`lastAction, balancer`backends
      ensures t.listOk ==>
                && TickDone(evaluator.policy, old(evaluator.State()), evaluator.State(), old(running), old(draining.ids),
                            running, draining.ids, d, listed, t, brought, drained)
                && Balanced(balancer.backends, listed, draining.ids, old(draining.ids) + Single(drained), t.addr)
      ensures t.listOk ==> BalancerFollows(old(running))
      ensures !t.listOk ==> balancer.backends == old(balancer.backends) && running == old(running) && draining.ids == old(draining.ids)
      ensures !t.listOk ==> evaluator.State() == old(evaluator.State()) && d == STAY && drained == None && brought == None
    {
      d, drained, brought, listed := STAY, None, None, [];
      if !t.listOk {
        return;
      }
      ghost var w0, running0, ids0 := evaluator.State(), running, draining.ids;
      var containers := List();
      listed := containers;
      d, drained, brought := DecideAndAct(containers, t);
      ghost var running1, ids1 := running, draining.ids;
      Refresh(containers, t);
      BalancedFollows(balancer.backends, listed, running0, draining.ids, ids1, ids0 + Single(drained), t.addr);
      DoneThenDrift(evaluator.policy, w0, evaluator.State(), running0, ids0, running1, ids1, running, draining.ids,
                    d, listed, t, brought, drained);
    }

    ghost function Stands(): Stand
      reads this, draining, evaluator
    {
      Stand(running, draining.ids, evaluator.lastAction)
    }

    /** A pause, in which drains move as they like, and the tick that ends it. */
    method Turn(pause: seq<DrainStep>, t: Tick) returns (ghost s: Snapshot)
      requires ValidPolicy(evaluator.policy)
      modifies this, draining, evaluator`consecutiveUp, evaluator`consecutiveDown, evaluator`lastAction, balancer`backends
      ensures s.listedAt == t.listedAt && s.now == t.now
      ensures DriftsTo(old(Stands()), s) && TurnHeld(evaluator.policy, s) && Stands() == s.after
      ensures old(draining.ids) == {} && |old(running)| < evaluator.policy.minReplicas && Successful(t) ==>
                draining.ids == {} && running == old(running) + {t.created.value}
    {
      Drift(pause);
      DriftCounts(old(running), old(draining.ids), running, draining.ids);
      ghost var before, w := Stands(), evaluator.State();
      var d, drained;
      ghost var brought, listed;
      d, drained, brought, listed := Reconcile(t);
      if t.listOk {
        ActsOffCooldown(evaluator.policy, w, evaluator.State(), d, listed, before.ids, t, brought, drained);
      }
      s := Snapshot(before, t.listedAt, t.now, brought, drained, Stands());
    }

    /**
     A whole automatic run under one policy.  The number of running containers never grows
     past the maximum; if nothing that runs was draining whenever a drain began, the group
     serves with the minimum at every moment of the run that it served with it at the start.
     */
    method Run(ticks: seq<Tick>, pauses: seq<seq<DrainStep>>) returns (ghost trace: seq<Snapshot>)
      requires ValidPolicy(evaluator.policy) && |pauses| == |ticks|
      modifies this, draining, evaluator`consecutiveUp, evaluator`consecutiveDown, evaluator`lastAction, balancer`backends
      ensures Traced(evaluator.policy, old(Stands()), trace) && OnTime(trace, ticks) && |trace| == |ticks|
      ensures Stands() == EndOf(old(Stands()), trace)
      ensures |running| <= |old(running)| || |running| <= evaluator.policy.maxReplicas
      ensures NeverOverlaps(trace) && |Serving(old(running), old(draining.ids))| >= evaluator.policy.minReplicas ==>
                |Serving(running, draining.ids)| >= evaluator.policy.minReplicas
    {
      ghost var p, from := evaluator.policy, Stands();
      trace := Loop(ticks, pauses);
      MaximumKept(p, from, trace);
      if NeverOverlaps(trace) && |Serving(from.running, from.ids)| >= p.minReplicas {
        FloorKept(p, from, trace);
      }
    }

    method Loop(ticks: seq<Tick>, pauses: seq<seq<DrainStep>>) returns (ghost trace: seq<Snapshot>)
      requires ValidPolicy(evaluator.policy) && |pauses| == |ticks|
      modifies this, draining, evaluator`consecutiveUp, evaluator`consecutiveDown, evaluator`lastAction, balancer`backends
      ensures Traced(evaluator.policy, old(Stands()), trace) && OnTime(trace, ticks) && |trace| == |ticks|
      ensures Stands() == EndOf(old(Stands()), trace)
    {
      trace := [];
      ghost var p, from := evaluator.policy, Stands();
      for i := 0 to |ticks|
        invariant evaluator.policy == p && |trace| == i
        invariant Traced(p, from, trace) && OnTime(trace, ticks)
        invariant Stands() == EndOf(from, trace)
      {
        ghost var s := Turn(pauses[i], ticks[i]);
        TracedNext(p, from, trace, ticks, s);
        trace := trace + [s];
      }
    }

    /**
     Two ticks, with the first drain still under way at the second: from the minimum plus one,
     idle and off cool-down both times, the group is left serving with one less than the minimum.
     */
    method DrainTwice(t1: Tick, t2: Tick)
      requires ValidPolicy(evaluator.policy) && evaluator.policy.minReplicas >= 1 && evaluator.policy.sustainedTicks <= 1
      requires |running| == evaluator.policy.minReplicas + 1 && draining.ids == {}
      requires !OnCooldown(evaluator.policy, evaluator.lastAction, t1.now) && t2.now - t1.now >= evaluator.policy.cooldown
      requires Idle(t1, evaluator.policy) && Idle(t2, evaluator.policy)
      modifies this, draining, evaluator`consecutiveUp, evaluator`consecutiveDown, evaluator`lastAction, balancer`backends
      ensures running == old(running)
      ensures |Serving(running, draining.ids)| == evaluator.policy.minReplicas - 1
    {
      var x := DrainOnIdle(t1);
      var y := DrainOnIdle(t2);
      assert draining.ids == {x} + {y};
      assert Serving(running, draining.ids) == running - {x} - {y};
    }

    /** One idle tick off cool-down, with at most one drain under way, begins another. */
    method DrainOnIdle(t: Tick) returns (x: Id)
      requires ValidPolicy(evaluator.policy) && evaluator.policy.minReplicas >= 1 && evaluator.policy.sustainedTicks <= 1
      requires |running| == evaluator.policy.minReplicas + 1 && |draining.ids| <= 1
      requires !OnCooldown(evaluator.policy, evaluator.lastAction, t.now) && Idle(t, evaluator.policy)
      modifies this, draining, evaluator`consecutiveUp, evaluator`consecutiveDown, evaluator`lastAction, balancer`backends
      ensures running == old(running) && x in Serving(running, old(draining.ids)) && draining.ids == old(draining.ids) + {x}
      ensures evaluator.lastAction == Some(t.now)
    {
      ghost var w, running0, ids0 := evaluator.State(), running, draining.ids;
      var d, drained;
      ghost var brought, listed;
      d, drained, brought, listed := Reconcile(t);
      IdleTickDrains(evaluator.policy, w, evaluator.State(), running0, ids0, running, draining.ids, d, listed, t, brought, drained);
      x := drained.value;
    }

    /** One busy tick off cool-down, with room for one more: a container comes, if it can be had, and none goes. */
    method BringOnBusy(t: Tick)
      requires ValidPolicy(evaluator.policy) && evaluator.policy.sustainedTicks <= 1
      requires evaluator.policy.minReplicas <= |running| < evaluator.policy.maxReplicas && running != {}
      requires !OnCooldown(evaluator.policy, evaluator.lastAction, t.now) && Busy(t, evaluator.policy)
      modifies this, draining, evaluator`consecutiveUp, evaluator`consecutiveDown, evaluator`lastAction, balancer`backends
      ensures running == old(running) + Single(t.created) && draining.ids == old(draining.ids)
      ensures evaluator.lastAction == Some(t.now)
    {
      ghost var w := evaluator.State();
      var d, drained;
      ghost var brought, listed;
      d, drained, brought, listed := Reconcile(t);
      BusyTickDecides(evaluator.policy, w, evaluator.State(), d, listed, t);
    }

    /** One tick with nothing to do: nothing moves, and every run of requests starts anew. */
    method Hold(t: Tick)
      requires ValidPolicy(evaluator.policy) && running != {} && evaluator.policy.minReplicas <= |running|
      requires (Busy(t, evaluator.policy) && |running| >= evaluator.policy.maxReplicas)
               || (Idle(t, evaluator.policy) && |running| == evaluator.policy.minReplicas)
               || Calm(t, evaluator.policy)
      modifies this, draining, evaluator`consecutiveUp, evaluator`consecutiveDown, evaluator`lastAction, balancer`backends
      ensures running == old(running) && draining.ids == old(draining.ids)
      ensures evaluator.State() == Waits(0, 0, old(evaluator.lastAction))
    {
      ghost var w, running0, ids0 := evaluator.State(), running, draining.ids;
      var d, drained;
      ghost var brought, listed;
      d, drained, brought, listed := Reconcile(t);
      NothingToDecide(evaluator.policy, w, evaluator.State(), d, listed, t);
      StayMovesNothing(evaluator.policy, w, evaluator.State(), running0, ids0, running, draining.ids, d, listed, t, brought, drained);
    }

    method BootTurn(pause: seq<DrainStep>, t: Tick)
      requires ValidPolicy(evaluator.policy)
      requires draining.ids == {} && |running| < evaluator.policy.minReplicas
      requires Successful(t) && t.created.value !in running
      modifies this, draining, evaluator`consecutiveUp, evaluator`consecutiveDown, evaluator`lastAction, balancer`backends
      ensures draining.ids == {} && running == old(running) + {t.created.value} && |running| == |old(running)| + 1
    {
      ghost var s := Turn(pause, t);
    }

    /** From `r` containers, fewer than the minimum, `n` ticks without failures bring it to `r + n`, up to the minimum. */
    method Bootstrap(ticks: seq<Tick>, pauses: seq<seq<DrainStep>>)
      requires ValidPolicy(evaluator.policy) && |pauses| == |ticks|
      requires draining.ids == {} && Undisturbed(ticks, running) && |running| + |ticks| <= evaluator.policy.minReplicas
      modifies this, draining, evaluator`consecutiveUp, evaluator`consecutiveDown, evaluator`lastAction, balancer`backends
      ensures |running| == |old(running)| + |ticks| && draining.ids == {}
    {
      ghost var p := evaluator.policy;
      assert ticks[0..] == ticks;
      for i := 0 to |ticks|
        invariant evaluator.policy == p
        invariant draining.ids == {} && |running| == |old(running)| + i
        invariant Undisturbed(ticks[i..], running)
      {
        UndisturbedNext(ticks[i..], running);
        assert ticks[i..][0] == ticks[i] && ticks[i..][1..] == ticks[i + 1..];
        BootTurn(pauses[i], ticks[i]);
      }
    }
  }

  // ---------- whole runs ----------

  /** The containers, the drain set and the last action, at one moment. */
  datatype Stand = Stand(running: set<Id>, ids: set<Id>, last: Option<Time>)

  /** A tick: what it found, when it listed and decided, what it brought and drained, what it left. */
  datatype Snapshot = Snapshot(at: Stand, listedAt: Time, now: Time, brought: Option<Id>, drained: Option<Id>, after: Stand)

  ghost predicate DriftsTo(before: Stand, s: Snapshot) {
    Drifted(before.running, before.ids, s.at.running, s.at.ids) && s.at.last == before.last
  }

  ghost predicate TurnHeld(p: Policy, s: Snapshot) {
    && TickMoves(p, s.at.running, s.at.ids, s.after.running, s.after.ids, s.brought, s.drained)
    && (s.drained.Some? ==> !OnCooldown(p, s.at.last, s.now) && s.after.last == Some(s.now))
    && (s.after.last == s.at.last || s.after.last == Some(s.now))
  }

  function EndOf(from: Stand, trace: seq<Snapshot>): Stand {
    if trace == [] then from else trace[|trace| - 1].after
  }

  /** Each tick found what the one before it left, but for drains that moved on. */
  ghost predicate Traced(p: Policy, from: Stand, trace: seq<Snapshot>) {
    trace == [] ||
    (&& Traced(p, from, trace[..|trace| - 1])
     && DriftsTo(EndOf(from, trace[..|trace| - 1]), trace[|trace| - 1]) && TurnHeld(p, trace[|trace| - 1]))
  }

  /** No running container was draining when a tick that began a drain made its listing. */
  ghost predicate NeverOverlaps(trace: seq<Snapshot>) {
    forall i :: 0 <= i < |trace| && trace[i].drained.Some? ==> trace[i].at.running * trace[i].at.ids == {}
  }

  /** The trace has the times of these ticks. */
  ghost predicate OnTime(trace: seq<Snapshot>, ticks: seq<Tick>) {
    |trace| <= |ticks| && forall i :: 0 <= i < |trace| ==> trace[i].listedAt == ticks[i].listedAt && trace[i].now == ticks[i].now
  }

  lemma TracedNext(p: Policy, from: Stand, trace: seq<Snapshot>, ticks: seq<Tick>, s: Snapshot)
    requires Traced(p, from, trace) && OnTime(trace, ticks) && |trace| < |ticks|
    requires DriftsTo(EndOf(from, trace), s) && TurnHeld(p, s) && s.listedAt == ticks[|trace|].listedAt && s.now == ticks[|trace|].now
    ensures Traced(p, from, trace + [s]) && OnTime(trace + [s], ticks) && EndOf(from, trace + [s]) == s.after
  {
    assert (trace + [s])[..|trace|] == trace;
  }

  lemma {:induction false} MaximumKept(p: Policy, from: Stand, trace: seq<Snapshot>)
    requires Traced(p, from, trace)
    ensures |EndOf(from, trace).running| <= |from.running| || |EndOf(from, trace).running| <= p.maxReplicas
    decreases |trace|
  {
    if trace != [] {
      var before, s := trace[..|trace| - 1], trace[|trace| - 1];
      MaximumKept(p, from, before);
      DriftCounts(EndOf(from, before).running, EndOf(from, before).ids, s.at.running, s.at.ids);
      TickMovesKeep(p, s.at.running, s.at.ids, s.after.running, s.after.ids, s.brought, s.drained);
    }
  }

  lemma {:induction false} FloorKept(p: Policy, from: Stand, trace: seq<Snapshot>)
    requires Traced(p, from, trace) && NeverOverlaps(trace) && |Serving(from.running, from.ids)| >= p.minReplicas
    ensures |Serving(EndOf(from, trace).running, EndOf(from, trace).ids)| >= p.minReplicas
    decreases |trace|
  {
    if trace != [] {
      var before, s := trace[..|trace| - 1], trace[|trace| - 1];
      assert forall i :: 0 <= i < |before| ==> before[i] == trace[i];
      FloorKept(p, from, before);
      DriftCounts(EndOf(from, before).running, EndOf(from, before).ids, s.at.running, s.at.ids);
      TickMovesKeep(p, s.at.running, s.at.ids, s.after.running, s.after.ids, s.brought, s.drained);
    }
  }

  /** Every container found draining was chosen by an earlier tick, less than `longest` before the listing. */
  ghost predicate DrainsEndWithin(trace: seq<Snapshot>, longest: Time) {
    forall j, x :: 0 <= j < |trace| && x in trace[j].at.ids ==>
      exists i :: 0 <= i < j && trace[i].drained == Some(x) && trace[j].listedAt < trace[i].now + longest
  }

  /** Time does not go back, and a tick decides within `delay` of its listing. */
  ghost predicate Timely(trace: seq<Snapshot>, delay: Time) {
    && (forall i, j :: 0 <= i <= j < |trace| ==> trace[i].now <= trace[j].now)
    && (forall i :: 0 <= i < |trace| ==> trace[i].now - trace[i].listedAt <= delay)
  }

  /** The evaluator never forgets a drain: its last action is that one or a later one. */
  lemma {:induction false} DrainsAreRemembered(p: Policy, from: Stand, trace: seq<Snapshot>, delay: Time, i: nat)
    requires Traced(p, from, trace) && Timely(trace, delay) && i < |trace| && trace[i].drained.Some?
    ensures EndOf(from, trace).last.Some? && trace[i].now <= EndOf(from, trace).last.value
    decreases |trace|
  {
    var before := trace[..|trace| - 1];
    if i < |before| {
      assert forall k :: 0 <= k < |before| ==> before[k] == trace[k];
      DrainsAreRemembered(p, from, before, delay, i);
    }
  }

  lemma {:induction false} DrainsAreSpaced(p: Policy, from: Stand, trace: seq<Snapshot>, delay: Time, i: nat, j: nat)
    requires Traced(p, from, trace) && Timely(trace, delay) && i < j < |trace|
    requires trace[i].drained.Some? && trace[j].drained.Some?
    ensures trace[j].now - trace[i].now >= p.cooldown
    decreases |trace|
  {
    var before := trace[..|trace| - 1];
    assert forall k :: 0 <= k < |before| ==> before[k] == trace[k];
    if j < |before| {
      DrainsAreSpaced(p, from, before, delay, i, j);
    } else {
      DrainsAreRemembered(p, from, before, delay, i);
    }
  }

  /**
   The floor over whole runs, from a condition an operator can check: with a cool-down at least
   as long as a drain takes and a tick takes to decide, drains never overlap, and a group that
   serves with its minimum always will.
   */
  lemma CooldownKeepsFloor(p: Policy, from: Stand, trace: seq<Snapshot>, longest: Time, delay: Time)
    requires Traced(p, from, trace) && Timely(trace, delay) && DrainsEndWithin(trace, longest)
    requires p.cooldown >= longest + delay && |Serving(from.running, from.ids)| >= p.minReplicas
    ensures NeverOverlaps(trace)
    ensures |Serving(EndOf(from, trace).running, EndOf(from, trace).ids)| >= p.minReplicas
  {
    forall j | 0 <= j < |trace| && trace[j].drained.Some? ensures trace[j].at.ids == {} {
      if x :| x in trace[j].at.ids {
        var i :| 0 <= i < j && trace[i].drained == Some(x) && trace[j].listedAt < trace[i].now + longest;
        DrainsAreSpaced(p, from, trace, delay, i, j);
        assert false;
      }
    }
    FloorKept(p, from, trace);
  }

  /** A drain is a non-immediate action: it is taken off cool-down and remembered. */
  lemma ActsOffCooldown(p: Policy, w0: Waits, w: Waits, d: Decision, listed: seq<Id>, ids0: set<Id>, t: Tick,
                        brought: Option<Id>, drained: Option<Id>)
    requires DecidedAndActed(p, w0, w, d, listed, ids0, t, brought, drained)
    ensures drained.Some? ==> !OnCooldown(p, w0.lastAction, t.now) && w.lastAction == Some(t.now)
    ensures w.lastAction == w0.lastAction || w.lastAction == Some(t.now)
  {
  }

  // ---------- overlapping drains ----------

  /** A tick in which nothing fails or moves, and every reading is low. */
  ghost predicate Idle(t: Tick, p: Policy) {
    t.listOk && t.gaps == [] && forall x :: t.stats(x).Some? && t.stats(x).value <= p.downPercent
  }

  lemma {:induction false} LowSum(members: seq<Id>, stats: Id -> Reading, most: real)
    requires forall x :: stats(x).Some? && stats(x).value <= most
    ensures Sum(members, stats) <= most * (|members| as real)
    decreases |members|
  {
    if members != [] {
      LowSum(members[..|members| - 1], stats, most);
    }
  }

  lemma LowAverage(members: seq<Id>, stats: Id -> Reading, most: real)
    requires members != [] && forall x :: stats(x).Some? && stats(x).value <= most
    ensures Aggregated(members, stats).Some? && Aggregated(members, stats).value.replicas == |members|
    ensures Aggregated(members, stats).value.cpu <= most
  {
    LowSum(members, stats, most);
  }

  /** Off cool-down, an idle tick of a group above its minimum decides to scale down. */
  lemma IdleTickDecides(p: Policy, w0: Waits, w: Waits, d: Decision, listed: seq<Id>, t: Tick)
    requires ValidPolicy(p) && p.sustainedTicks <= 1 && Idle(t, p) && |listed| > p.minReplicas
    requires !OnCooldown(p, w0.lastAction, t.now) && Decided(p, w0, w, d, listed, t)
    ensures d.action == ScaleDown && w.lastAction == Some(t.now)
  {
    LowAverage(listed, t.stats, p.downPercent);
  }

  /** Where not everything listed is draining, a scale-down finds a container. */
  lemma SomebodyDrains(d: Decision, listed: seq<Id>, running: set<Id>, ids: set<Id>, t: Tick, brought: Option<Id>, drained: Option<Id>)
    requires ListsAll(listed, running) && |ids| < |running|
    requires d.action == ScaleDown && Acted(d, listed, ids, t, brought, drained)
    ensures drained.Some? && brought.None?
  {
    WithoutIs(listed, ids);
    if running <= ids {
      SubsetSize(running, ids);
    } else {
      var x :| x in running && x !in ids;
      assert x in Without(listed, ids);
    }
  }

  lemma IdleTickDrains(p: Policy, w0: Waits, w: Waits, running0: set<Id>, ids0: set<Id>, running: set<Id>, ids: set<Id>,
                       d: Decision, listed: seq<Id>, t: Tick, brought: Option<Id>, drained: Option<Id>)
    requires ValidPolicy(p) && p.sustainedTicks <= 1 && Idle(t, p)
    requires |running0| > p.minReplicas && |ids0| < |running0| && !OnCooldown(p, w0.lastAction, t.now)
    requires TickDone(p, w0, w, running0, ids0, running, ids, d, listed, t, brought, drained)
    ensures drained.Some? && drained.value in Serving(running0, ids0) && w.lastAction == Some(t.now)
    ensures running == running0 && ids == ids0 + {drained.value}
  {
    IdleTickDecides(p, w0, w, d, listed, t);
    var before :| before <= ids0 && Acted(d, listed, before, t, brought, drained);
    SubsetSize(before, ids0);
    SomebodyDrains(d, listed, running0, before, t, brought, drained);
  }

  // ---------- load ----------

  /** A tick in which nothing fails or moves, and every reading is high. */
  ghost predicate Busy(t: Tick, p: Policy) {
    t.listOk && t.gaps == [] && forall x :: t.stats(x).Some? && t.stats(x).value >= p.upPercent
  }

  /** A tick in which nothing fails or moves, and every reading lies between the thresholds. */
  ghost predicate Calm(t: Tick, p: Policy) {
    t.listOk && t.gaps == [] && forall x :: t.stats(x).Some? && p.downPercent < t.stats(x).value < p.upPercent
  }

  lemma {:induction false} CalmSum(members: seq<Id>, stats: Id -> Reading, least: real, most: real)
    requires members != [] && forall x :: stats(x).Some? && least < stats(x).value < most
    ensures least * (|members| as real) < Sum(members, stats) < most * (|members| as real)
    decreases |members|
  {
    var start := members[..|members| - 1];
    if start == [] {
      assert Sum(start, stats) == 0.0;
    } else {
      CalmSum(start, stats, least, most);
    }
  }

  lemma Quotient(sum: real, n: real, bound: real)
    requires n > 0.0
    ensures sum < bound * n ==> sum / n < bound
    ensures sum > bound * n ==> sum / n > bound
  {
    var q := sum / n;
    assert q * n == sum;
    if q >= bound {
      assert (q - bound) * n >= 0.0;
    }
    if q <= bound {
      assert (bound - q) * n >= 0.0;
    }
  }

  /** The average of readings between two bounds lies between them. */
  lemma CalmAverage(members: seq<Id>, stats: Id -> Reading, least: real, most: real)
    requires members != [] && forall x :: stats(x).Some? && least < stats(x).value < most
    ensures Aggregated(members, stats).Some? && Aggregated(members, stats).value.replicas == |members|
    ensures least < Aggregated(members, stats).value.cpu < most
  {
    CalmSum(members, stats, least, most);
    Quotient(Sum(members, stats), |members| as real, least);
    Quotient(Sum(members, stats), |members| as real, most);
  }

  /** The sum does not depend on where in the listing a container stands. */
  lemma {:induction false} SumWithout(members: seq<Id>, stats: Id -> Reading, i: nat)
    requires i < |members| && forall x :: x in members ==> stats(x).Some?
    ensures Sum(members, stats) == Sum(members[..i] + members[i + 1..], stats) + stats(members[i]).value
    decreases |members|
  {
    var last := |members| - 1;
    if i == last {
      assert members[..i] + members[i + 1..] == members[..last];
    } else {
      var fewer := members[..i] + members[i + 1..];
      assert fewer[..|fewer| - 1] == members[..last][..i] + members[..last][i + 1..];
      assert fewer[|fewer| - 1] == members[last];
      SumWithout(members[..last], stats, i);
    }
  }

  /** So the metrics of a group do not depend on the order of its listing. */
  lemma {:induction false} SumOfSameMembers(one: seq<Id>, other: seq<Id>, stats: Id -> Reading)
    requires multiset(one) == multiset(other) && forall x :: x in one ==> stats(x).Some?
    ensures |one| == |other| && (forall x :: x in other ==> stats(x).Some?) && Sum(one, stats) == Sum(other, stats)
    decreases |one|
  {
    assert |one| == |multiset(one)| == |multiset(other)| == |other|;
    forall x | x in other ensures stats(x).Some? {
      assert x in multiset(other);
    }
    if one != [] {
      var last := |one| - 1;
      assert one[last] in multiset(one);
      var i :| 0 <= i < |other| && other[i] == one[last];
      Removed(one, last);
      Removed(other, i);
      assert one[..last] + one[last + 1..] == one[..last];
      assert forall x :: x in one[..last] ==> x in one;
      SumOfSameMembers(one[..last], other[..i] + other[i + 1..], stats);
      SumWithout(other, stats, i);
    }
  }

  lemma Removed(members: seq<Id>, i: nat)
    requires i < |members|
    ensures multiset(members[..i] + members[i + 1..]) == multiset(members) - multiset{members[i]}
  {
    assert members == members[..i] + [members[i]] + members[i + 1..];
  }

  lemma OrderDoesNotMatter(one: seq<Id>, other: seq<Id>, stats: Id -> Reading)
    requires multiset(one) == multiset(other)
    ensures Aggregated(one, stats) == Aggregated(other, stats)
  {
    assert |one| == |multiset(one)| == |multiset(other)| == |other|;
    if forall x :: x in one ==> stats(x).Some? {
      SumOfSameMembers(one, other, stats);
    } else {
      var x :| x in one && stats(x).None?;
      assert x in multiset(one);
    }
  }

  /** Off cool-down, a busy tick between the minimum and the maximum decides to scale up. */
  lemma BusyTickDecides(p: Policy, w0: Waits, w: Waits, d: Decision, listed: seq<Id>, t: Tick)
    requires ValidPolicy(p) && p.sustainedTicks <= 1 && Busy(t, p) && p.minReplicas <= |listed| < p.maxReplicas && listed != []
    requires !OnCooldown(p, w0.lastAction, t.now) && Decided(p, w0, w, d, listed, t)
    ensures d.action == ScaleUp && w.lastAction == Some(t.now)
  {
    HighAverage(listed, t.stats, p.upPercent);
  }

  lemma {:induction false} HighSum(members: seq<Id>, stats: Id -> Reading, least: real)
    requires forall x :: stats(x).Some? && stats(x).value >= least
    ensures Sum(members, stats) >= least * (|members| as real)
    decreases |members|
  {
    if members != [] {
      HighSum(members[..|members| - 1], stats, least);
    }
  }

  lemma HighAverage(members: seq<Id>, stats: Id -> Reading, least: real)
    requires members != [] && forall x :: stats(x).Some? && stats(x).value >= least
    ensures Aggregated(members, stats).Some? && Aggregated(members, stats).value.replicas == |members|
    ensures Aggregated(members, stats).value.cpu >= least
  {
    HighSum(members, stats, least);
  }

  /** Nothing is done at the maximum under load, at the minimum without, or with readings in between. */
  lemma NothingToDecide(p: Policy, w0: Waits, w: Waits, d: Decision, listed: seq<Id>, t: Tick)
    requires ValidPolicy(p) && listed != [] && p.minReplicas <= |listed| && Decided(p, w0, w, d, listed, t)
    requires (Busy(t, p) && |listed| >= p.maxReplicas) || (Idle(t, p) && |listed| == p.minReplicas) || Calm(t, p)
    ensures d == STAY && w == Waits(0, 0, w0.lastAction)
  {
    if Busy(t, p) {
      HighAverage(listed, t.stats, p.upPercent);
    } else if Idle(t, p) {
      LowAverage(listed, t.stats, p.downPercent);
    } else {
      CalmAverage(listed, t.stats, p.downPercent, p.upPercent);
    }
  }

  lemma StayMovesNothing(p: Policy, w0: Waits, w: Waits, running0: set<Id>, ids0: set<Id>, running: set<Id>, ids: set<Id>,
                         d: Decision, listed: seq<Id>, t: Tick, brought: Option<Id>, drained: Option<Id>)
    requires d == STAY && t.gaps == []
    requires TickDone(p, w0, w, running0, ids0, running, ids, d, listed, t, brought, drained)
    ensures running == running0 && ids == ids0
  {
    var before :| before <= ids0 && Acted(d, listed, before, t, brought, drained);
    assert brought == None && drained == None;
  }

  /** It happens: four containers, at least three wanted, and two serving after two ticks. */
  method FourBecomeTwo() returns (g: ScalingGroup)
    ensures g.evaluator.policy.minReplicas == 3 && |g.running| == 4
    ensures |Serving(g.running, g.draining.ids)| == 2
  {
    var p := Policy(3, 4, 80.0, 20.0, 1, 60);
    g := new ScalingGroup(p, {1, 2, 3, 4});
    var reading := (x: Id) => Some(10.0);
    var nowhere: Id -> Option<string> := (x: Id) => None;
    g.DrainTwice(Tick.Tick(true, 0, reading, 0, None, reading, nowhere, []), Tick.Tick(true, 60, reading, 60, None, reading, nowhere, []));
  }

  lemma UndisturbedNext(ticks: seq<Tick>, running: set<Id>)
    requires ticks != [] && Undisturbed(ticks, running)
    ensures Successful(ticks[0]) && ticks[0].created.value !in running
    ensures Undisturbed(ticks[1..], running + {ticks[0].created.value})
  {
  }

  lemma DriftCounts(running0: set<Id>, ids0: set<Id>, running: set<Id>, ids: set<Id>)
    requires Drifted(running0, ids0, running, ids)
    ensures |running| <= |running0| && |Serving(running, ids)| >= |Serving(running0, ids0)|
    ensures ids0 == {} ==> running == running0 && ids == {}
  {
    SubsetSize(running, running0);
    SubsetSize(Serving(running0, ids0), Serving(running, ids));
  }

  /** Every tick succeeds, and each brings a container never seen before. */
  ghost predicate Undisturbed(ticks: seq<Tick>, running0: set<Id>) {
    && (forall i :: 0 <= i < |ticks| ==> Successful(ticks[i]) && ticks[i].created.value !in running0)
    && (forall i, j :: 0 <= i < j < |ticks| ==> ticks[i].created != ticks[j].created)
  }

  /** A tick in which nothing outside fails. */
  ghost predicate Successful(t: Tick) {
    t.listOk && (forall x :: t.stats(x).Some?) && t.created.Some?
  }
}
