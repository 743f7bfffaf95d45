/** Choosing a container to remove, and keeping the ones on their way out apart. */
module Draining {
  import opened Options

  type Id = nat

  /** The members that are not draining, in their order. */
  function Without(members: seq<Id>, ids: set<Id>): seq<Id> {
    if members == [] then []
    else
      var rest := Without(members[..|members| - 1], ids);
      var last := members[|members| - 1];
      if last in ids then rest else rest + [last]
  }

  /** Exactly the members outside `ids` remain; nothing is repeated that was not. */
  lemma {:induction false} WithoutIs(members: seq<Id>, ids: set<Id>)
    ensures forall x :: x in Without(members, ids) <==> x in members && x !in ids
    ensures (forall i, j :: 0 <= i < j < |members| ==> members[i] != members[j]) ==>
              forall i, j :: 0 <= i < j < |Without(members, ids)| ==> Without(members, ids)[i] != Without(members, ids)[j]
    ensures |Without(members, ids)| <= |members|
    decreases members
  {
    if members != [] {
      var start, last := members[..|members| - 1], members[|members| - 1];
      WithoutIs(start, ids);
      assert forall x :: x in members <==> x in start || x == last;
    }
  }

  lemma {:induction false} WithoutNothing(members: seq<Id>)
    ensures Without(members, {}) == members
    decreases members
  {
    if members != [] {
      WithoutNothing(members[..|members| - 1]);
    }
  }

  /** The filter goes member by member, so those that remain keep their order. */
  lemma {:induction false} WithoutAppends(some: seq<Id>, more: seq<Id>, ids: set<Id>)
    ensures Without(some + more, ids) == Without(some, ids) + Without(more, ids)
    decreases |more|
  {
    if more == [] {
      assert some + more == some;
    } else {
      var start, last := more[..|more| - 1], more[|more| - 1];
      WithoutAppends(some, start, ids);
      WithoutLast(start, last, ids);
      WithoutLast(some + start, last, ids);
      assert some + more == some + start + [last] && more == start + [last];
    }
  }

  lemma WithoutLast(start: seq<Id>, last: Id, ids: set<Id>)
    ensures Without(start + [last], ids) == Without(start, ids) + if last in ids then [] else [last]
  {
    assert (start + [last])[..|start|] == start;
  }

  class DrainSet {
    var ids: set<Id>

    constructor ()
      ensures ids == {}
    {
      ids := {};
    }

    method Add(id: Id)
      modifies this
      ensures ids == old(ids) + {id}
    {
      ids := ids + {id};
    }

    method Remove(id: Id)
      modifies this
      ensures ids == old(ids) - {id}
    {
      ids := ids - {id};
    }

    method Clear()
      modifies this
      ensures ids == {}
    {
      ids := {};
    }

    method ExcludeDraining(members: seq<Id>) returns (filtered: seq<Id>)
      ensures filtered == Without(members, ids)
    {
      if |ids| == 0 {
        WithoutNothing(members);
        return members;
      }
      filtered := [];
      for i := 0 to |members|
        invariant filtered == Without(members[..i], ids)
      {
        assert members[..i + 1][..i] == members[..i];
        if members[i] !in ids {
          filtered := filtered + [members[i]];
        }
      }
      assert members[..|members|] == members;
    }
  }

  // ---------- the choice ----------

  type Reading = Option<real>

  /**
   Position `i` is the one to remove: the first of the least loaded among the members with a
   reading, or the last member when none has one.
   */
  predicate IsTarget(members: seq<Id>, reading: Id -> Reading, i: nat) {
    && i < |members|
    && if exists j :: 0 <= j < |members| && reading(members[j]).Some? then
         && reading(members[i]).Some?
         && (forall j :: 0 <= j < |members| && reading(members[j]).Some? ==>
               reading(members[i]).value <= reading(members[j]).value)
         && (forall j :: 0 <= j < i && reading(members[j]).Some? ==>
               reading(members[i]).value < reading(members[j]).value)
       else i == |members| - 1
  }

  lemma TargetIsUnique(members: seq<Id>, reading: Id -> Reading, i: nat, j: nat)
    requires IsTarget(members, reading, i) && IsTarget(members, reading, j)
    ensures i == j
  {
  }

  method SelectScaleDownTarget(members: seq<Id>, reading: Id -> Reading) returns (target: Option<Id>, ghost at: nat)
    ensures members == [] ==> target == None
    ensures members != [] ==> IsTarget(members, reading, at) && target == Some(members[at])
  {
    at := 0;
    if |members| == 0 {
      return None, at;
    }
    var chosen := members[|members| - 1];
    at := |members| - 1;
    var chosenCpu, known := 0.0, false;
    for i := 0 to |members|
      invariant at < |members| && chosen == members[at]
      invariant !known ==> at == |members| - 1 && forall j :: 0 <= j < i ==> reading(members[j]).None?
      invariant known ==> at < i && reading(members[at]) == Some(chosenCpu)
      invariant known ==> forall j :: 0 <= j < i && reading(members[j]).Some? ==> chosenCpu <= reading(members[j]).value
      invariant known ==> forall j :: 0 <= j < at && reading(members[j]).Some? ==> chosenCpu < reading(members[j]).value
    {
      match reading(members[i])
      case None =>
      case Some(cpu) =>
        if !known || cpu < chosenCpu {
          chosen, chosenCpu, known, at := members[i], cpu, true, i;
        }
    }
    target := Some(chosen);
  }
}
