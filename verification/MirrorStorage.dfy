/**
 The two stores the mirror talks to.

 A `World` is one history: `local(n)` is the local storage when store call number `n` is
 made, changed by anybody between any two calls, and `outcome(n)` is what becomes of that
 call.  A call may fail or the process may die at it, before or after its effect.  The
 destination is written by the mirror alone, one object at a time.
 */
module MirrorStorage {
  import opened Options
  import opened MirrorKeys

  /** Modification time and size: what the source formats as an object's version. */
  datatype Version = Version(modified: int, size: nat)

  type Content = nat

  datatype Obj = Obj(version: Version, content: Content)

  type Local = map<Path, Obj>

  /** Versions by object: `ManifestNameInjective` makes the manifest's names as good as paths. */
  type Manifest = map<Path, Version>

  /** An object at the destination; `Sealed` is a content encrypted for the installation's key. */
  datatype Blob = Sealed(content: Content) | ManifestBlob(man: Manifest) | Stamp | Unreadable

  /** The destination bucket, by key. */
  type Bucket = map<string, Blob>

  /** The destination as the mirror sees it, by slot. */
  type Dest = map<Slot, Blob>

  function View(objects: Bucket, prefix: string): Dest {
    map slot | slot in (set s | s in objects :: SlotOf(prefix, s)) && NameOf(prefix, slot) in objects ::
      objects[NameOf(prefix, slot)]
  }

  lemma ViewIs(objects: Bucket, prefix: string, t: Slot)
    ensures t in View(objects, prefix) <==> NameOf(prefix, t) in objects && SlotOf(prefix, NameOf(prefix, t)) == t
    ensures t in View(objects, prefix) ==> View(objects, prefix)[t] == objects[NameOf(prefix, t)]
  {
    if t in View(objects, prefix) {
      var s :| s in objects && SlotOf(prefix, s) == t;
      NameOfInvertsSlotOf(prefix, s);
    }
  }

  lemma ViewAt(objects: Bucket, prefix: string, slot: Slot)
    requires Ours(slot)
    ensures slot in View(objects, prefix) <==> NameOf(prefix, slot) in objects
    ensures slot in View(objects, prefix) ==> View(objects, prefix)[slot] == objects[NameOf(prefix, slot)]
  {
    SlotOfInvertsNameOf(prefix, slot);
    ViewIs(objects, prefix, slot);
  }

  /** Objects that differ at one of the mirror's own keys look alike at every other slot. */
  lemma ViewElsewhere(before: Bucket, after: Bucket, prefix: string, slot: Slot, t: Slot)
    requires Ours(slot) && t != slot
    requires forall s :: s != NameOf(prefix, slot) ==>
               (s in before <==> s in after) && (s in before ==> before[s] == after[s])
    ensures t in View(before, prefix) <==> t in View(after, prefix)
    ensures t in View(before, prefix) ==> View(before, prefix)[t] == View(after, prefix)[t]
  {
    SlotOfInvertsNameOf(prefix, slot);
    ViewIs(before, prefix, t);
    ViewIs(after, prefix, t);
    if SlotOf(prefix, NameOf(prefix, t)) == t {
      assert NameOf(prefix, t) != NameOf(prefix, slot);
    }
  }

  /** Writing or deleting one of the mirror's own keys moves exactly its slot. */
  lemma ViewAfterPut(objects: Bucket, prefix: string, slot: Slot, blob: Blob)
    requires Ours(slot)
    ensures View(objects[NameOf(prefix, slot) := blob], prefix) == View(objects, prefix)[slot := blob]
  {
    var after := objects[NameOf(prefix, slot) := blob];
    var v, w := View(after, prefix), View(objects, prefix)[slot := blob];
    ViewAt(after, prefix, slot);
    forall t ensures (t in v <==> t in w) && (t in v ==> v[t] == w[t]) {
      if t != slot {
        ViewElsewhere(objects, after, prefix, slot, t);
      }
    }
  }

  lemma ViewAfterDelete(objects: Bucket, prefix: string, slot: Slot)
    requires Ours(slot)
    ensures View(objects - {NameOf(prefix, slot)}, prefix) == View(objects, prefix) - {slot}
  {
    var after := objects - {NameOf(prefix, slot)};
    var v, w := View(after, prefix), View(objects, prefix) - {slot};
    ViewAt(after, prefix, slot);
    forall t ensures (t in v <==> t in w) && (t in v ==> v[t] == w[t]) {
      if t != slot {
        ViewElsewhere(objects, after, prefix, slot, t);
      }
    }
  }

  datatype Outcome = Done | Failed(effect: bool) | Died(effect: bool)

  datatype Reply = Ok | Error | Crash

  datatype Listed = Listed(key: string, version: Version)

  function ReplyOf(o: Outcome): Reply {
    match o case Done => Ok case Failed(_) => Error case Died(_) => Crash
  }

  predicate TakesEffect(o: Outcome) { o.Done? || o.effect }

  function LocalKeys(l: Local, b: string): set<string> {
    set p | p in l && p.bucket == b :: p.key
  }

  /** The listing is exactly the bucket, each key once. */
  ghost predicate Lists(objs: seq<Listed>, l: Local, b: string) {
    && (forall i :: 0 <= i < |objs| ==> Path(b, objs[i].key) in l && l[Path(b, objs[i].key)].version == objs[i].version)
    && (forall i, j :: 0 <= i < j < |objs| ==> objs[i].key != objs[j].key)
    && (forall k :: Path(b, k) in l ==> exists i :: 0 <= i < |objs| && objs[i].key == k)
  }

  /** The listing is the bucket but for the objects of `rest`. */
  ghost predicate ListsAllBut(objs: seq<Listed>, l: Local, b: string, rest: set<Path>) {
    && (forall p :: p in rest ==> p in l && p.bucket == b)
    && (forall i :: 0 <= i < |objs| ==>
          Path(b, objs[i].key) in l && Path(b, objs[i].key) !in rest && l[Path(b, objs[i].key)].version == objs[i].version)
    && (forall i, j :: 0 <= i < j < |objs| ==> objs[i].key != objs[j].key)
    && (forall k :: Path(b, k) in l && Path(b, k) !in rest ==> exists i :: 0 <= i < |objs| && objs[i].key == k)
  }

  lemma ListedNext(objs: seq<Listed>, l: Local, b: string, rest: set<Path>, p: Path)
    requires ListsAllBut(objs, l, b, rest) && p in rest
    ensures ListsAllBut(objs + [Listed(p.key, l[p].version)], l, b, rest - {p})
  {
    var more := objs + [Listed(p.key, l[p].version)];
    assert p == Path(b, p.key) && more[|objs|].key == p.key;
    forall k | Path(b, k) in l && Path(b, k) !in rest - {p} ensures exists i :: 0 <= i < |more| && more[i].key == k {
      if k != p.key {
        var i :| 0 <= i < |objs| && objs[i].key == k;
        assert more[i].key == k;
      }
    }
  }

  class World {
    const local: nat -> Local
    const outcome: nat -> Outcome
    var now: nat
    var objects: Bucket

    constructor (local: nat -> Local, outcome: nat -> Outcome)
      ensures this.local == local && this.outcome == outcome && now == 0 && objects == map[]
    {
      this.local := local;
      this.outcome := outcome;
      now := 0;
      objects := map[];
    }

    method ListLocal(b: string) returns (r: Reply, objs: seq<Listed>)
      modifies this`now
      ensures now == old(now) + 1
      ensures r == ReplyOf(outcome(old(now)))
      ensures r.Ok? ==> Lists(objs, local(old(now)), b)
    {
      var l := local(now);
      r := ReplyOf(outcome(now));
      now := now + 1;
      objs := [];
      var rest := set p | p in l && p.bucket == b;
      while rest != {}
        invariant now == old(now) + 1 && ListsAllBut(objs, l, b, rest)
        decreases rest
      {
        var p :| p in rest;
        ListedNext(objs, l, b, rest, p);
        objs := objs + [Listed(p.key, l[p].version)];
        rest := rest - {p};
      }
    }

    /** Reading an object that is gone is an error. */
    method GetLocal(p: Path) returns (r: Reply, c: Content)
      modifies this`now
      ensures now == old(now) + 1
      ensures r.Ok? <==> outcome(old(now)).Done? && p in local(old(now))
      ensures r.Ok? ==> c == local(old(now))[p].content
    {
      var l := local(now);
      r := ReplyOf(outcome(now));
      now := now + 1;
      c := 0;
      if r.Ok? {
        if p in l {
          c := l[p].content;
        } else {
          r := Error;
        }
      }
    }

    method Put(s: string, blob: Blob) returns (r: Reply)
      modifies this
      ensures now == old(now) + 1
      ensures r == ReplyOf(outcome(old(now)))
      ensures objects == if TakesEffect(outcome(old(now))) then old(objects)[s := blob] else old(objects)
    {
      r := ReplyOf(outcome(now));
      if TakesEffect(outcome(now)) {
        objects := objects[s := blob];
      }
      now := now + 1;
    }

    method Delete(s: string) returns (r: Reply)
      modifies this
      ensures now == old(now) + 1
      ensures r == ReplyOf(outcome(old(now)))
      ensures objects == if TakesEffect(outcome(old(now))) then old(objects) - {s} else old(objects)
    {
      r := ReplyOf(outcome(now));
      if TakesEffect(outcome(now)) {
        objects := objects - {s};
      }
      now := now + 1;
    }

    method GetDest(s: string) returns (r: Reply, blob: Option<Blob>)
      modifies this`now
      ensures now == old(now) + 1
      ensures r == ReplyOf(outcome(old(now)))
      ensures blob == if s in objects then Some(objects[s]) else None
    {
      r := ReplyOf(outcome(now));
      now := now + 1;
      blob := if s in objects then Some(objects[s]) else None;
    }

    /** The keys that begin with `p`, each once. */
    method ListDest(p: string) returns (r: Reply, keys: seq<string>)
      modifies this`now
      ensures now == old(now) + 1
      ensures r == ReplyOf(outcome(old(now)))
      ensures forall s :: s in keys <==> s in objects && p <= s
    {
      r := ReplyOf(outcome(now));
      now := now + 1;
      keys := [];
      var rest := set s | s in objects && p <= s;
      while rest != {}
        invariant forall s :: s in objects && p <= s <==> s in keys || s in rest
        decreases rest
      {
        var s :| s in rest;
        keys := keys + [s];
        rest := rest - {s};
      }
    }
  }
}
