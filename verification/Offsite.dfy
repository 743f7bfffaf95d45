/**
 The off-site mirror as it runs: loops of store calls, any of which may fail or be the last
 the process makes, over local storage that anybody may change between two calls.
 */
module Offsite {
  import opened Options
  import opened MirrorKeys
  import opened MirrorStorage
  import opened MirrorPass
  import opened Powers

  // ---------- local storage over time ----------

  type History = nat -> Local

  predicate HasVersion(local: History, n: nat, p: Path, v: Version) {
    p in local(n) && local(n)[p].version == v
  }

  /** A version that was replaced or removed never comes back, and one version is one content. */
  ghost predicate NeverRepeats(local: History) {
    forall p, v, i: nat, j: nat, k: nat ::
      i <= j <= k && HasVersion(local, i, p, v) && HasVersion(local, k, p, v) ==>
        HasVersion(local, j, p, v) && local(j)[p] == local(i)[p]
  }

  // ---------- soundness of a manifest ----------

  predicate SeenBefore(local: History, n: nat, p: Path, v: Version) {
    exists i: nat :: i < n && HasVersion(local, i, p, v)
  }

  /** Every recorded version was listed some time before `n`. */
  ghost predicate Seen(local: History, man: Manifest, n: nat) {
    forall p :: p in man ==> SeenBefore(local, n, p, man[p])
  }

  /** From `n` on, an object at its recorded version has that version's content in its copy. */
  ghost predicate Sound(local: History, dest: Dest, man: Manifest, n: nat) {
    forall p, m: nat :: n <= m && p in man && Copy(p) in dest && HasVersion(local, m, p, man[p]) ==>
      dest[Copy(p)] == Sealed(local(m)[p].content)
  }

  /** The manifest in hand and the one at the destination are both sound. */
  ghost predicate Safe(local: History, dest: Dest, man: Manifest, n: nat) {
    && Seen(local, man, n) && Sound(local, dest, man, n)
    && Seen(local, Saved(dest), n) && Sound(local, dest, Saved(dest), n)
  }

  /**
   What soundness is for: an object that `stale` calls up to date, at any later time, has at
   the destination the content of exactly the version it has then.
   */
  lemma UpToDateMeansCopied(local: History, dest: Dest, n: nat, m: nat, p: Path)
    requires Sound(local, dest, Saved(dest), n) && n <= m && p in local(m)
    requires !IsStale(Remote(dest, p.bucket), Saved(dest), p, local(m)[p].version)
    ensures Copy(p) in dest && dest[Copy(p)] == Sealed(local(m)[p].content)
  {
  }

  lemma SafeFaithful(local: History, dest: Dest, man: Manifest, n: nat, b: string)
    requires Sound(local, dest, man, n)
    ensures Faithful(Pass(dest, man), local(n), b)
  {
  }

  lemma SeenLater(local: History, man: Manifest, n: nat, m: nat)
    requires Seen(local, man, n) && n <= m
    ensures Seen(local, man, m)
  {
  }

  lemma SafeLater(local: History, dest: Dest, man: Manifest, n: nat, m: nat)
    requires Safe(local, dest, man, n) && n <= m
    ensures Safe(local, dest, man, m)
  {
  }

  /**
   Replacing a copy by the content read at time `g` keeps every manifest sound whose versions
   were all seen by then, whatever version was listed and whatever happened meanwhile.
   */
  lemma PutKeepsSound(local: History, dest: Dest, man: Manifest, n: nat, p: Path, g: nat, m: nat)
    requires NeverRepeats(local) && Seen(local, man, n) && Sound(local, dest, man, n)
    requires n <= g < m && p in local(g)
    ensures Sound(local, dest[Copy(p) := Sealed(local(g)[p].content)], man, m)
  {
  }

  lemma PutKeepsSafe(local: History, dest: Dest, man: Manifest, n: nat, p: Path, g: nat, m: nat)
    requires NeverRepeats(local) && Safe(local, dest, man, n) && n <= g < m && p in local(g)
    ensures Safe(local, dest[Copy(p) := Sealed(local(g)[p].content)], man, m)
  {
    var after := dest[Copy(p) := Sealed(local(g)[p].content)];
    assert Saved(after) == Saved(dest);
    PutKeepsSound(local, dest, man, n, p, g, m);
    PutKeepsSound(local, dest, Saved(dest), n, p, g, m);
    SeenLater(local, man, n, m);
    SeenLater(local, Saved(dest), n, m);
  }

  /** Recording, once the copy is there, the version that was listed before the copy was read. */
  lemma RecordKeepsSafe(local: History, dest: Dest, man: Manifest, p: Path, v: Version, t: nat, g: nat, m: nat)
    requires NeverRepeats(local) && Safe(local, dest, man, m)
    requires t <= g < m && HasVersion(local, t, p, v) && p in local(g)
    requires Copy(p) in dest && dest[Copy(p)] == Sealed(local(g)[p].content)
    ensures Safe(local, dest, man[p := v], m)
  {
  }

  lemma DeleteKeepsSafe(local: History, dest: Dest, man: Manifest, n: nat, p: Path, m: nat)
    requires Safe(local, dest, man, n) && n <= m
    ensures Safe(local, dest - {Copy(p)}, man, m)
    ensures Safe(local, dest - {Copy(p)}, man - {p}, m)
  {
  }

  /**
   From a sound manifest, a pass over unchanging local storage without failures leaves at
   the destination every local object with its content, and no other key where the guard
   held nothing; what it copies is what Status counted; nothing is missing afterwards, and
   a second such pass copies nothing, nor deletes anything where nothing was held.
   */
  lemma QuietPassConverges(local: History, dest: Dest, n: nat, b: string)
    requires IsBucket(b) && Sound(local, dest, Saved(dest), n)
    ensures var l, after := local(n), WholePass(dest, local(n));
            && (forall p :: p in l && p.bucket == b ==> Copy(p) in after && after[Copy(p)] == Sealed(l[p].content))
            && LocalKeys(l, b) <= Remote(after, b)
            && (!Held(l, Remote(dest, b), b) ==> Remote(after, b) == LocalKeys(l, b))
            && Missing(after, l, b) == 0
            && (!Held(l, Remote(dest, b), b) ==> Deleted(l, Remote(after, b), b) == {})
  {
    SafeFaithful(local, dest, Saved(dest), n, b);
    PassConverges(dest, local(n), b);
    SecondPassIsIdle(dest, local(n), b);
  }

  // ---------- a quiet stretch ----------

  /** From call `n` until call `m` no store call fails and nobody changes local storage. */
  ghost predicate Quiet(w: World, n: nat, m: nat) {
    forall i: nat :: n <= i <= m ==> w.local(i) == w.local(n) && (i < m ==> w.outcome(i).Done?)
  }

  lemma QuietPart(w: World, n: nat, m: nat, k: nat)
    requires Quiet(w, n, m) && n <= k <= m
    ensures Quiet(w, n, k) && Quiet(w, k, m) && w.local(k) == w.local(n)
  {
  }

  /** Only copies of bucket `b` differ. */
  ghost predicate TouchesOnly(before: Dest, after: Dest, b: string) {
    forall t: Slot :: !(t.Copy? && t.path.bucket == b) ==>
      (t in before <==> t in after) && (t in before ==> before[t] == after[t])
  }

  lemma TouchesOnlyKeepsOthers(before: Dest, after: Dest, b: string, other: string)
    requires TouchesOnly(before, after, b) && other != b
    ensures Remote(after, other) == Remote(before, other)
  {
  }

  /** One more copy, one more recorded version. */
  lemma OneMoreCopy(dest: Dest, man: Manifest, l: Local, done: set<Path>, p: Path)
    requires done <= l.Keys && p in l
    ensures WithCopies(dest, l, done + {p}) == WithCopies(dest, l, done)[Copy(p) := Sealed(l[p].content)]
    ensures WithVersions(man, l, done + {p}) == WithVersions(man, l, done)[p := l[p].version]
  {
    assert CopiesOf(done + {p}) == CopiesOf(done) + {Copy(p)};
  }

  /** The state of the copying loop: exactly the objects `done` were copied and recorded. */
  ghost predicate CopiedAll(done: set<Path>, l: Local, d0: Dest, man0: Manifest, d: Dest, man: Manifest, copied: nat) {
    done <= l.Keys && d == WithCopies(d0, l, done) && man == WithVersions(man0, l, done) && copied == |done|
  }

  lemma NothingCopied(l: Local, d0: Dest, man0: Manifest)
    ensures CopiedAll({}, l, d0, man0, d0, man0, 0)
  {
  }

  lemma CopiedOneMore(done: set<Path>, l: Local, d0: Dest, man0: Manifest, d: Dest, man: Manifest, copied: nat,
                      p: Path, remote: set<string>)
    requires CopiedAll(done, l, d0, man0, d, man, copied) && p in l && p !in done
    ensures CopiedAll(done + {p}, l, d0, man0, d[Copy(p) := Sealed(l[p].content)], man[p := l[p].version], copied + 1)
    ensures IsStale(remote, man, p, l[p].version) <==> IsStale(remote, man0, p, l[p].version)
  {
    OneMoreCopy(d0, man0, l, done, p);
  }

  /** The stale objects among the first `n` of a listing. */
  ghost function StaleUpTo(objs: seq<Listed>, n: nat, remote: set<string>, man: Manifest, b: string): set<Path>
    requires n <= |objs|
  {
    set j | 0 <= j < n && IsStale(remote, man, Path(b, objs[j].key), objs[j].version) :: Path(b, objs[j].key)
  }

  /** Each object of a listing is met once. */
  lemma StaleUpToNext(objs: seq<Listed>, i: nat, remote: set<string>, man: Manifest, b: string)
    requires i < |objs| && forall j, k :: 0 <= j < k < |objs| ==> objs[j].key != objs[k].key
    ensures var p := Path(b, objs[i].key);
            && p !in StaleUpTo(objs, i, remote, man, b)
            && StaleUpTo(objs, i + 1, remote, man, b) ==
               StaleUpTo(objs, i, remote, man, b) + if IsStale(remote, man, p, objs[i].version) then {p} else {}
  {
  }

  lemma AllStale(objs: seq<Listed>, l: Local, remote: set<string>, man: Manifest, b: string)
    requires Lists(objs, l, b)
    ensures StaleUpTo(objs, |objs|, remote, man, b) == Stale(l, remote, man, b)
  {
  }

  /** What one turn of the copying loop does while nothing fails. */
  lemma CalmTurn(objs: seq<Listed>, i: nat, remote: set<string>, b: string, l: Local, d0: Dest, man0: Manifest, d: Dest, man: Manifest, copied: nat)
    requires i < |objs| && Lists(objs, l, b)
    requires CopiedAll(StaleUpTo(objs, i, remote, man0, b), l, d0, man0, d, man, copied)
    ensures var p, v := Path(b, objs[i].key), objs[i].version;
            p in l && l[p].version == v
    ensures var p, v := Path(b, objs[i].key), objs[i].version;
            if IsStale(remote, man, p, v)
            then CopiedAll(StaleUpTo(objs, i + 1, remote, man0, b), l, d0, man0, d[Copy(p) := Sealed(l[p].content)], man[p := v], copied + 1)
            else CopiedAll(StaleUpTo(objs, i + 1, remote, man0, b), l, d0, man0, d, man, copied)
  {
    StaleUpToNext(objs, i, remote, man0, b);
    CopiedOneMore(StaleUpTo(objs, i, remote, man0, b), l, d0, man0, d, man, copied, Path(b, objs[i].key), remote);
  }

  /** Nothing outside the copies of `gone` is missing. */
  ghost predicate Spares(before: Dest, after: Dest, gone: set<string>) {
    forall t: Slot :: t in before && !(t.Copy? && t.path.key in gone) ==> t in after
  }

  /** The state of the deleting loop. */
  ghost predicate DeletedAll(done: set<string>, b: string, d0: Dest, man0: Manifest, d: Dest, man: Manifest, deleted: nat) {
    d == d0 - CopiesOf(PathsOf(b, done)) && man == man0 - PathsOf(b, done) && deleted == |done|
  }

  lemma NothingDeleted(b: string, d0: Dest, man0: Manifest)
    ensures DeletedAll({}, b, d0, man0, d0, man0, 0)
  {
  }

  lemma NothingLost(keys: set<string>)
    ensures KeepsEnough(keys, keys)
  {
    assert MayLose({}, keys) && keys - {} <= keys;
  }

  lemma RemoteGrows(before: Dest, after: Dest, b: string)
    requires before.Keys <= after.Keys
    ensures Remote(before, b) <= Remote(after, b)
    ensures KeepsEnough(Remote(before, b), Remote(after, b))
  {
    forall k | k in Remote(before, b) ensures k in Remote(after, b) {
      RemoteIs(before, b, k);
      RemoteIs(after, b, k);
      assert Copy(Path(b, k)) in before.Keys;
    }
    assert MayLose({}, Remote(before, b)) && Remote(before, b) - {} <= Remote(after, b);
  }

  lemma ListedKeysAre(objs: seq<Listed>, l: Local, b: string)
    requires Lists(objs, l, b)
    ensures (set i | 0 <= i < |objs| :: objs[i].key) == LocalKeys(l, b)
    ensures |objs| == 0 <==> LocalKeys(l, b) == {}
  {
    forall k ensures k in (set i | 0 <= i < |objs| :: objs[i].key) <==> k in LocalKeys(l, b) {
      LocalKeysIs(l, b, k);
      if Path(b, k) in l {
        var i :| 0 <= i < |objs| && objs[i].key == k;
      }
    }
    if |objs| > 0 {
      LocalKeysIs(l, b, objs[0].key);
    }
    if k :| k in LocalKeys(l, b) {
      LocalKeysIs(l, b, k);
      assert exists i :: 0 <= i < |objs| && objs[i].key == k;
    }
  }

  lemma DeletedIs(l: Local, remote: set<string>, b: string)
    ensures Deleted(l, remote, b) == if Held(l, remote, b) then {} else PathsOf(b, Gone(l, remote, b))
    ensures Held(l, remote, b) ==> CopiesOf(Deleted(l, remote, b)) == {}
  {
  }

  lemma RemoveNothing<K, V>(m: map<K, V>)
    ensures m - {} == m
  {
  }

  lemma AllKept(before: Dest, after: Dest)
    requires forall b :: IsBucket(b) ==> Remote(before, b) <= Remote(after, b)
    ensures forall b :: IsBucket(b) ==> KeepsEnough(Remote(before, b), Remote(after, b))
  {
    forall b | IsBucket(b) ensures KeepsEnough(Remote(before, b), Remote(after, b)) {
      assert MayLose({}, Remote(before, b)) && Remote(before, b) - {} <= Remote(after, b);
    }
  }

  /** Enough is kept of every bucket, and those not in `done` are as they were. */
  ghost predicate KeptThrough(done: seq<string>, before: Dest, after: Dest) {
    && (forall b :: IsBucket(b) ==> KeepsEnough(Remote(before, b), Remote(after, b)))
    && (forall b :: IsBucket(b) && b !in done ==> Remote(after, b) == Remote(before, b))
  }

  lemma NothingKept(d: Dest)
    ensures KeptThrough([], d, d)
  {
    AllKept(d, d);
  }

  lemma KeptThroughNext(done: seq<string>, b: string, before: Dest, mid: Dest, after: Dest)
    requires IsBucket(b) && b !in done && KeptThrough(done, before, mid)
    requires TouchesOnly(mid, after, b) && KeepsEnough(Remote(mid, b), Remote(after, b))
    ensures KeptThrough(done + [b], before, after)
  {
    forall other | other != b ensures Remote(after, other) == Remote(mid, other) {
      TouchesOnlyKeepsOthers(mid, after, b, other);
    }
  }

  lemma BucketsNext(i: nat)
    requires i < |BUCKETS|
    ensures BUCKETS[..i + 1] == BUCKETS[..i] + [BUCKETS[i]]
    ensures IsBucket(BUCKETS[i]) && BUCKETS[i] !in BUCKETS[..i]
  {
    BucketsAreDistinct();
    forall j | 0 <= j < i ensures BUCKETS[..i][j] != BUCKETS[i] {
      assert BUCKETS[..i][j] == BUCKETS[j];
    }
  }

  /** The counts of bucket `b` are those of destination `d` and local storage as it was at `at[b]`. */
  ghost predicate Counted(local: History, d: Dest, b: string, missing: map<string, nat>, copies: map<string, nat>, at: map<string, nat>) {
    && b in copies && copies[b] == |Remote(d, b)|
    && b in at && b in missing && missing[b] == Missing(d, local(at[b]), b)
  }

  lemma CountedNext(local: History, d: Dest, bs: seq<string>, i: nat,
                    missing: map<string, nat>, copies: map<string, nat>, at: map<string, nat>, n: nat, m: nat, t: nat)
    requires i < |bs| && n == Missing(d, local(t), bs[i]) && m == |Remote(d, bs[i])|
    requires forall j :: 0 <= j < i ==> Counted(local, d, bs[j], missing, copies, at)
    ensures forall j :: 0 <= j < i + 1 ==> Counted(local, d, bs[j], missing[bs[i] := n], copies[bs[i] := m], at[bs[i] := t])
  {
  }

  /** What a quiet pass does to bucket `b` and to the counts of the report. */
  ghost predicate BucketResult(l: Local, b: string, d0: Dest, man0: Manifest, d: Dest, man: Manifest,
                               copied: nat, deleted: nat, held: nat) {
    var remote := Remote(d0, b);
    && Pass(d, man) == BucketPass(Pass(d0, man0), l, b)
    && copied == |Stale(l, remote, man0, b)|
    && deleted == (if Held(l, remote, b) then 0 else |Gone(l, remote, b)|)
    && held == if Held(l, remote, b) then |Gone(l, remote, b)| else 0
  }

  /** What a quiet pass has done with the buckets `done` behind it. */
  ghost predicate PassedBuckets(done: seq<string>, d0: Dest, l: Local, d: Dest, man: Manifest, report: Report) {
    && Pass(d, man) == BucketsPass(Pass(d0, Saved(d0)), l, done)
    && report.copied == MissingIn(d0, l, done)
    && (forall b :: b in report.held <==> b in done && Held(l, Remote(d0, b), b))
  }

  /** The report of a pass after one more bucket. */
  function Reported(report: Report, b: string, copied: nat, deleted: nat, held: nat): Report {
    Report(report.copied + copied, report.deleted + deleted, if held > 0 then report.held[b := held] else report.held)
  }

  lemma OneMoreBucket(done: seq<string>, b: string, d0: Dest, l: Local, d: Dest, man: Manifest, report: Report,
                      d': Dest, man': Manifest, copied: nat, deleted: nat, held: nat)
    requires b !in done && PassedBuckets(done, d0, l, d, man, report)
    requires BucketResult(l, b, d, man, d', man', copied, deleted, held)
    ensures PassedBuckets(done + [b], d0, l, d', man', Reported(report, b, copied, deleted, held))
  {
    NextBucket(d0, l, done, b, Pass(d, man));
    OneMoreHeld(done, b, d0, l, report.held, held);
  }

  lemma OneMoreHeld(done: seq<string>, b: string, d0: Dest, l: Local, helds: map<string, nat>, held: nat)
    requires b !in done && forall k :: k in helds <==> k in done && Held(l, Remote(d0, k), k)
    requires held == if Held(l, Remote(d0, b), b) then |Gone(l, Remote(d0, b), b)| else 0
    ensures forall k :: k in (if held > 0 then helds[b := held] else helds) <==> k in done + [b] && Held(l, Remote(d0, k), k)
  {
  }

  /** The next bucket is decided upon as it was at the start of the pass. */
  lemma NextBucket(d0: Dest, l: Local, done: seq<string>, b: string, st: Pass)
    requires b !in done && st == BucketsPass(Pass(d0, Saved(d0)), l, done)
    ensures BucketPass(st, l, b) == BucketsPass(Pass(d0, Saved(d0)), l, done + [b])
    ensures MissingIn(d0, l, done + [b]) == MissingIn(d0, l, done) + |Stale(l, Remote(st.dest, b), st.man, b)|
    ensures Remote(st.dest, b) == Remote(d0, b)
  {
    var more := done + [b];
    assert more[..|more| - 1] == done && more[|more| - 1] == b;
    OthersLeaveBucket(Pass(d0, Saved(d0)), l, done, b);
    SameBucketSameDecisions(Pass(d0, Saved(d0)), st, l, b);
  }

  lemma PassedAll(d0: Dest, l: Local, d: Dest, man: Manifest, report: Report)
    requires PassedBuckets(BUCKETS, d0, l, d, man, report)
    ensures Completed(Pass(d, man)) == WholePass(d0, l)
    ensures report.copied == MissingIn(d0, l, BUCKETS)
    ensures forall b :: IsBucket(b) ==> (b in report.held <==> Held(l, Remote(d0, b), b))
  {
  }

  /**
   One copy, however it went: the content read at time `g` was stored or not, and where it was
   stored the version listed at time `t` was recorded or not.
   */
  lemma CopyKeepsSafe(local: History, d: Dest, d': Dest, man: Manifest, n: nat, p: Path, v: Version, t: nat, g: nat, m: nat, recorded: bool)
    requires NeverRepeats(local) && Safe(local, d, man, n)
    requires t <= n <= g < m && HasVersion(local, t, p, v)
    requires d' == d || (p in local(g) && d' == d[Copy(p) := Sealed(local(g)[p].content)])
    requires recorded ==> p in local(g) && d' == d[Copy(p) := Sealed(local(g)[p].content)]
    ensures Safe(local, d', if recorded then man[p := v] else man, m)
  {
    if d' == d && !recorded {
      SafeLater(local, d, man, n, m);
    } else {
      PutKeepsSafe(local, d, man, n, p, g, m);
    }
    if recorded {
      RecordKeepsSafe(local, d', man, p, v, t, g, m);
    }
  }

  /**
   Of one bucket, before and after a quiet pass: what is gone locally is deleted if and only if
   local storage is not empty and that is at most five objects or at most half of the copy;
   otherwise it is held, and every copy stays.
   */
  ghost predicate DeletesWhenItShould(before: set<string>, after: set<string>, locals: set<string>, held: bool) {
    var gone := before - locals;
    && (held <==> gone != {} && (locals == {} || (|gone| > 5 && 2 * |gone| > |before|)))
    && after == locals + if held then before else {}
  }

  lemma QuietPassDeletes(d0: Dest, l: Local, held: map<string, nat>)
    requires forall b :: IsBucket(b) ==> (b in held <==> Held(l, Remote(d0, b), b))
    ensures forall b :: IsBucket(b) ==>
              DeletesWhenItShould(Remote(d0, b), Remote(WholePass(d0, l), b), LocalKeys(l, b), b in held)
  {
    forall b | IsBucket(b)
      ensures DeletesWhenItShould(Remote(d0, b), Remote(WholePass(d0, l), b), LocalKeys(l, b), b in held)
    {
      PassKeysAfter(d0, l, b);
      HeldIff(l, Remote(d0, b), b);
    }
  }

  /** Writing the manifest in hand, or the stamp, or failing to. */
  lemma MarkerKeepsSafe(local: History, d: Dest, d': Dest, man: Manifest, n: nat, m: nat)
    requires Safe(local, d, man, n) && n <= m
    requires d' == d || d' == d[ManifestSlot := ManifestBlob(man)] || d' == d[StatusSlot := Stamp]
    ensures Safe(local, d', Saved(d'), m)
  {
  }

  lemma MarkerKeepsRemote(d: Dest, d': Dest)
    requires forall t: Slot :: t.Copy? ==> (t in d <==> t in d')
    ensures forall b :: Remote(d', b) == Remote(d, b)
  {
  }

  function PathsOf(b: string, ks: set<string>): set<Path> {
    set k | k in ks :: Path(b, k)
  }

  lemma OneMoreDeletion(dest: Dest, man: Manifest, b: string, done: set<string>, k: string)
    ensures dest - CopiesOf(PathsOf(b, done + {k})) == dest - CopiesOf(PathsOf(b, done)) - {Copy(Path(b, k))}
    ensures man - PathsOf(b, done + {k}) == man - PathsOf(b, done) - {Path(b, k)}
  {
  }

  datatype Report = Report(copied: nat, deleted: nat, held: map<string, nat>)

  // ---------- the mirror ----------

  class Mirror {
    const world: World
    const prefix: string

    constructor (world: World, prefix: string)
      ensures this.world == world && this.prefix == prefix
    {
      this.world := world;
      this.prefix := prefix;
    }

    ghost function Dst(): Dest
      reads world
    {
      View(world.objects, prefix)
    }

    ghost predicate IsSafe(man: Manifest)
      reads world
    {
      NeverRepeats(world.local) && Safe(world.local, Dst(), man, world.now)
    }

    /** copy: read the object, seal it, send it.  `g` is when it was read. */
    method SendCopy(p: Path) returns (r: Reply, ghost g: nat)
      requires IsBucket(p.bucket)
      modifies world
      ensures old(world.now) < world.now && g == old(world.now)
      ensures Dst() == old(Dst()) || (p in world.local(g) && Dst() == old(Dst())[Copy(p) := Sealed(world.local(g)[p].content)])
      ensures r.Ok? ==> p in world.local(g) && Dst() == old(Dst())[Copy(p) := Sealed(world.local(g)[p].content)]
      ensures Quiet(world, g, world.now) && p in world.local(g) ==> r.Ok?
    {
      g := world.now;
      var c;
      r, c := world.GetLocal(p);
      if r.Ok? {
        ViewAfterPut(world.objects, prefix, Copy(p), Sealed(c));
        r := world.Put(Key(prefix, p), Sealed(c));
      }
    }

    method DeleteCopy(p: Path) returns (r: Reply)
      requires IsBucket(p.bucket)
      modifies world
      ensures world.now == old(world.now) + 1
      ensures r == ReplyOf(world.outcome(old(world.now)))
      ensures Dst() == old(Dst()) || Dst() == old(Dst()) - {Copy(p)}
      ensures r.Ok? ==> Dst() == old(Dst()) - {Copy(p)}
    {
      ViewAfterDelete(world.objects, prefix, Copy(p));
      r := world.Delete(Key(prefix, p));
    }

    method PutMarker(slot: Slot, blob: Blob) returns (r: Reply)
      requires slot == ManifestSlot || slot == StatusSlot
      modifies world
      ensures world.now == old(world.now) + 1
      ensures r == ReplyOf(world.outcome(old(world.now)))
      ensures Dst() == old(Dst()) || Dst() == old(Dst())[slot := blob]
      ensures r.Ok? ==> Dst() == old(Dst())[slot := blob]
    {
      ViewAfterPut(world.objects, prefix, slot, blob);
      r := world.Put(prefix + if slot.ManifestSlot? then MANIFEST_KEY else STATUS_KEY, blob);
    }

    /** manifest: a missing or unreadable one starts again from nothing. */
    method ReadManifest() returns (r: Reply, man: Manifest)
      modifies world`now
      ensures world.now == old(world.now) + 1
      ensures r == ReplyOf(world.outcome(old(world.now)))
      ensures man == Saved(Dst())
    {
      ViewAt(world.objects, prefix, ManifestSlot);
      var blob;
      r, blob := world.GetDest(prefix + MANIFEST_KEY);
      man := if blob.Some? && blob.value.ManifestBlob? then blob.value.man else map[];
    }

    /** remote: the listing of one bucket's copies, by local key. */
    method ListRemote(b: string) returns (r: Reply, remote: set<string>)
      requires IsBucket(b)
      modifies world`now
      ensures world.now == old(world.now) + 1
      ensures r == ReplyOf(world.outcome(old(world.now)))
      ensures remote == Remote(Dst(), b)
    {
      var p := prefix + b + "/";
      var keys;
      r, keys := world.ListDest(p);
      remote := {};
      for i := 0 to |keys|
        invariant forall k :: k in remote <==> exists j :: 0 <= j < i && ListedKey(prefix, b, keys[j]) == Some(k)
      {
        assert keys[i] in keys;
        match CutSuffix(TrimPrefix(keys[i], p), SUFFIX)
        case Some(k) => remote := remote + {k};
        case None =>
      }
      forall k ensures k in remote <==> k in Remote(Dst(), b) {
        RemoteListed(keys, b, k);
      }
    }

    lemma RemoteListed(keys: seq<string>, b: string, k: string)
      requires IsBucket(b) && forall s :: s in keys <==> s in world.objects && ListPrefix(prefix, b) <= s
      ensures (exists j :: 0 <= j < |keys| && ListedKey(prefix, b, keys[j]) == Some(k)) <==> k in Remote(Dst(), b)
    {
      var s := Key(prefix, Path(b, k));
      RemoteIs(Dst(), b, k);
      ViewAt(world.objects, prefix, Copy(Path(b, k)));
      ListedKeyInvertsKey(prefix, b, s, k);
      if s in world.objects {
        assert s in keys;
        var j :| 0 <= j < |keys| && keys[j] == s;
      }
      if j :| 0 <= j < |keys| && ListedKey(prefix, b, keys[j]) == Some(k) {
        ListedKeyInvertsKey(prefix, b, keys[j], k);
        assert keys[j] in keys;
      }
    }

    /** One stale object: copied and recorded, or neither recorded nor lost. */
    method CopyOne(p: Path, v: Version, man0: Manifest, ghost t: nat) returns (r: Reply, man: Manifest)
      requires IsBucket(p.bucket) && t < world.now && HasVersion(world.local, t, p, v)
      modifies world
      ensures old(world.now) <= world.now
      ensures old(IsSafe(man0)) ==> IsSafe(man)
      ensures TouchesOnly(old(Dst()), Dst(), p.bucket) && old(Dst()).Keys <= Dst().Keys
      ensures man == if r.Ok? then man0[p := v] else man0
      ensures Quiet(world, t, world.now) ==>
                r.Ok? && Dst() == old(Dst())[Copy(p) := Sealed(world.local(t)[p].content)]
    {
      ghost var n, d, safe, g := world.now, Dst(), IsSafe(man0), 0;
      r, g := SendCopy(p);
      man := if r.Ok? then man0[p := v] else man0;
      if safe {
        CopyKeepsSafe(world.local, d, Dst(), man0, n, p, v, t, g, world.now, r.Ok?);
      }
      ghost var quiet := Quiet(world, t, world.now);
      if quiet {
        QuietPart(world, t, world.now, n);
      }
    }

    /** One copy, and what it means for the counts of the pass. */
    method CopyCounted(p: Path, v: Version, man1: Manifest, copied1: nat, failed1: bool, ghost t: nat)
      returns (man: Manifest, copied: nat, failed: bool, died: bool)
      requires IsBucket(p.bucket) && t < world.now && HasVersion(world.local, t, p, v)
      modifies world
      ensures old(world.now) <= world.now
      ensures old(IsSafe(man1)) ==> IsSafe(man)
      ensures TouchesOnly(old(Dst()), Dst(), p.bucket) && old(Dst()).Keys <= Dst().Keys
      ensures Quiet(world, t, world.now) ==>
                && Quiet(world, t, old(world.now)) && !died && failed == failed1 && copied == copied1 + 1
                && man == man1[p := v] && Dst() == old(Dst())[Copy(p) := Sealed(world.local(t)[p].content)]
    {
      ghost var n := world.now;
      var r;
      r, man := CopyOne(p, v, man1, t);
      ghost var quiet := Quiet(world, t, world.now);
      if quiet {
        QuietPart(world, t, world.now, n);
      }
      copied, failed, died := copied1 + (if r.Ok? then 1 else 0), failed1 || !r.Ok?, r.Crash?;
    }

    /** Where the copying loop stands after `i` objects of the listing taken at time `t`. */
    ghost predicate Copying(b: string, objs: seq<Listed>, i: nat, remote: set<string>, t: nat, safe: bool,
                            d0: Dest, man0: Manifest, man: Manifest, copied: nat, failed: bool)
      requires i <= |objs|
      reads world
    {
      && (safe ==> IsSafe(man)) && t < world.now
      && TouchesOnly(d0, Dst(), b) && d0.Keys <= Dst().Keys
      && (Quiet(world, t, world.now) ==>
            !failed && CopiedAll(StaleUpTo(objs, i, remote, man0, b), world.local(t), d0, man0, Dst(), man, copied))
    }

    /** One turn of the loop. */
    method CopyNext(b: string, objs: seq<Listed>, i: nat, remote: set<string>, ghost t: nat, ghost safe: bool,
                    ghost d0: Dest, ghost man0: Manifest, man1: Manifest, copied1: nat, failed1: bool)
      returns (man: Manifest, copied: nat, failed: bool, died: bool)
      requires IsBucket(b) && i < |objs| && Lists(objs, world.local(t), b)
      requires Copying(b, objs, i, remote, t, safe, d0, man0, man1, copied1, failed1)
      modifies world
      ensures old(world.now) <= world.now
      ensures Copying(b, objs, i + 1, remote, t, safe, d0, man0, man, copied, failed)
      ensures Quiet(world, t, world.now) ==> !died
    {
      man, copied, failed, died := man1, copied1, failed1, false;
      var o := objs[i];
      var p := Path(b, o.key);
      ghost var calm := Quiet(world, t, world.now);
      if calm {
        CalmTurn(objs, i, remote, b, world.local(t), d0, man0, Dst(), man, copied);
      }
      if IsStale(remote, man, p, o.version) {
        man, copied, failed, died := CopyCounted(p, o.version, man, copied, failed, t);
      }
    }

    /** The copying loop over a listing of the bucket taken at time `t`. */
    method CopyStale(b: string, objs: seq<Listed>, remote: set<string>, man0: Manifest, ghost t: nat)
      returns (man: Manifest, copied: nat, failed: bool, died: bool)
      requires IsBucket(b) && t < world.now
      requires Lists(objs, world.local(t), b)
      modifies world
      ensures old(world.now) <= world.now
      ensures old(IsSafe(man0)) ==> IsSafe(man)
      ensures TouchesOnly(old(Dst()), Dst(), b) && old(Dst()).Keys <= Dst().Keys
      ensures Quiet(world, t, world.now) ==>
                !failed && !died && CopiedAll(Stale(world.local(t), remote, man0, b), world.local(t), old(Dst()), man0, Dst(), man, copied)
    {
      man, copied, failed, died := man0, 0, false, false;
      ghost var d0, safe := Dst(), IsSafe(man0);
      assert StaleUpTo(objs, 0, remote, man0, b) == {};
      NothingCopied(world.local(t), d0, man0);
      var i := 0;
      while i < |objs| && !died
        invariant i <= |objs| && old(world.now) <= world.now
        invariant Copying(b, objs, i, remote, t, safe, d0, man0, man, copied, failed)
        invariant Quiet(world, t, world.now) ==> !died
      {
        man, copied, failed, died := CopyNext(b, objs, i, remote, t, safe, d0, man0, man, copied, failed);
        i := i + 1;
      }
      if i == |objs| {
        AllStale(objs, world.local(t), remote, man0, b);
      }
    }

    /** One deletion at the destination and in the manifest. */
    method DeleteOne(p: Path, man0: Manifest) returns (r: Reply, man: Manifest)
      requires IsBucket(p.bucket)
      modifies world
      ensures world.now == old(world.now) + 1
      ensures old(IsSafe(man0)) ==> IsSafe(man)
      ensures Dst() == old(Dst()) || Dst() == old(Dst()) - {Copy(p)}
      ensures r == ReplyOf(world.outcome(old(world.now)))
      ensures r.Ok? ==> Dst() == old(Dst()) - {Copy(p)}
      ensures man == if r.Ok? then man0 - {p} else man0
    {
      ghost var n, d, safe := world.now, Dst(), IsSafe(man0);
      r := DeleteCopy(p);
      if safe {
        DeleteKeepsSafe(world.local, d, man0, n, p, world.now);
        SafeLater(world.local, d, man0, n, world.now);
      }
      man := if r.Ok? then man0 - {p} else man0;
    }

    /** Where the deleting loop, begun at time `n0`, stands with `done` behind it. */
    ghost predicate Deleting(b: string, gone: set<string>, n0: nat, safe: bool, d0: Dest, man0: Manifest,
                             done: set<string>, man: Manifest, deleted: nat, failed: bool)
      reads world
    {
      && (safe ==> IsSafe(man)) && n0 <= world.now && done <= gone
      && TouchesOnly(d0, Dst(), b) && Spares(d0, Dst(), gone)
      && (Quiet(world, n0, world.now) ==> !failed && DeletedAll(done, b, d0, man0, Dst(), man, deleted))
    }

    /** One turn of the loop. */
    method DeleteNext(b: string, key: string, ghost gone: set<string>, ghost n0: nat, ghost safe: bool, ghost d0: Dest,
                      ghost man0: Manifest, ghost done: set<string>, man1: Manifest, deleted1: nat, failed1: bool)
      returns (man: Manifest, deleted: nat, failed: bool, died: bool)
      requires IsBucket(b) && key in gone && key !in done
      requires Deleting(b, gone, n0, safe, d0, man0, done, man1, deleted1, failed1)
      modifies world
      ensures old(world.now) <= world.now
      ensures Deleting(b, gone, n0, safe, d0, man0, done + {key}, man, deleted, failed)
      ensures Quiet(world, n0, world.now) ==> !died
    {
      ghost var n := world.now;
      var r;
      r, man := DeleteOne(Path(b, key), man1);
      OneMoreDeletion(d0, man0, b, done, key);
      ghost var quiet := Quiet(world, n0, world.now);
      if quiet {
        QuietPart(world, n0, world.now, n);
      }
      died := r.Crash?;
      failed := failed1 || !r.Ok?;
      deleted := deleted1 + if r.Ok? then 1 else 0;
    }

    /** The deleting loop, in the arbitrary order of a map's keys. */
    method DeleteGone(b: string, gone: set<string>, man0: Manifest)
      returns (man: Manifest, deleted: nat, failed: bool, died: bool)
      requires IsBucket(b)
      modifies world
      ensures old(world.now) <= world.now
      ensures old(IsSafe(man0)) ==> IsSafe(man)
      ensures TouchesOnly(old(Dst()), Dst(), b)
      ensures Remote(old(Dst()), b) - gone <= Remote(Dst(), b)
      ensures Quiet(world, old(world.now), world.now) ==>
                !failed && !died && DeletedAll(gone, b, old(Dst()), man0, Dst(), man, deleted)
    {
      man, deleted, failed, died := man0, 0, false, false;
      ghost var d0, n0, safe := Dst(), world.now, IsSafe(man0);
      var rest := gone;
      NothingDeleted(b, d0, man0);
      assert gone - rest == {};
      while rest != {} && !died
        invariant rest <= gone
        invariant Deleting(b, gone, n0, safe, d0, man0, gone - rest, man, deleted, failed)
        invariant Quiet(world, n0, world.now) ==> !died
        decreases rest
      {
        var key :| key in rest;
        assert gone - (rest - {key}) == gone - rest + {key};
        man, deleted, failed, died := DeleteNext(b, key, gone, n0, safe, d0, man0, gone - rest, man, deleted, failed);
        rest := rest - {key};
      }
      GoneOnly(d0, Dst(), b, gone);
      if rest == {} {
        assert gone - rest == gone;
      }
    }

    lemma GoneOnly(before: Dest, after: Dest, b: string, gone: set<string>)
      requires Spares(before, after, gone)
      ensures Remote(before, b) - gone <= Remote(after, b)
    {
    }

    /** The second half of a bucket's pass: delete what is gone locally, unless the guard holds it. */
    method DeleteUnlessHeld(b: string, objs: seq<Listed>, remote: set<string>, man0: Manifest, ghost l: Local)
      returns (man: Manifest, deleted: nat, held: nat, failed: bool, died: bool, ghost lost: set<string>)
      requires IsBucket(b) && Lists(objs, l, b)
      modifies world
      ensures old(world.now) <= world.now
      ensures old(IsSafe(man0)) ==> IsSafe(man)
      ensures TouchesOnly(old(Dst()), Dst(), b)
      ensures MayLose(lost, remote) && Remote(old(Dst()), b) - lost <= Remote(Dst(), b)
      ensures LocalKeys(l, b) == {} ==> lost == {}
      ensures Quiet(world, old(world.now), world.now) ==>
                && !failed && !died
                && Dst() == old(Dst()) - CopiesOf(Deleted(l, remote, b)) && man == man0 - Deleted(l, remote, b)
                && deleted == (if Held(l, remote, b) then 0 else |Gone(l, remote, b)|)
                && held == if Held(l, remote, b) then |Gone(l, remote, b)| else 0
    {
      man, deleted, held, failed, died, lost := man0, 0, 0, false, false, {};
      var inLocal := set i | 0 <= i < |objs| :: objs[i].key;
      ListedKeysAre(objs, l, b);
      DeletedIs(l, remote, b);
      var gone := remote - inLocal;
      if gone == {} {
        NothingDeleted(b, Dst(), man);
        return;
      }
      if Guarded(|objs|, |gone|, |remote|) {
        held := |gone|;
        RemoveNothing(Dst());
        RemoveNothing(man);
        return;
      }
      lost := gone;
      man, deleted, failed, died := DeleteGone(b, gone, man);
    }

    /** Both sides of a bucket, local storage first. */
    method ListBoth(b: string) returns (r: Reply, objs: seq<Listed>, remote: set<string>)
      requires IsBucket(b)
      modifies world`now
      ensures old(world.now) < world.now
      ensures r.Ok? ==> Lists(objs, world.local(old(world.now)), b) && remote == Remote(Dst(), b)
      ensures Quiet(world, old(world.now), world.now) ==> r.Ok?
    {
      remote := {};
      r, objs := world.ListLocal(b);
      if r.Ok? {
        r, remote := ListRemote(b);
      }
    }

    /** Copy what is stale, then delete what is gone, according to listings begun at time `t`. */
    method CopyThenDelete(b: string, objs: seq<Listed>, remote: set<string>, man0: Manifest, ghost t: nat)
      returns (man: Manifest, copied: nat, deleted: nat, held: nat, failed: bool, died: bool)
      requires IsBucket(b) && t < world.now && Lists(objs, world.local(t), b) && remote == Remote(Dst(), b)
      modifies world
      ensures old(world.now) <= world.now
      ensures old(IsSafe(man0)) ==> IsSafe(man)
      ensures TouchesOnly(old(Dst()), Dst(), b)
      ensures KeepsEnough(remote, Remote(Dst(), b))
      ensures LocalKeys(world.local(t), b) == {} ==> remote <= Remote(Dst(), b)
      ensures Quiet(world, t, world.now) ==>
                !failed && !died && BucketResult(world.local(t), b, old(Dst()), man0, Dst(), man, copied, deleted, held)
    {
      deleted, held := 0, 0;
      ghost var d0 := Dst();
      man, copied, failed, died := CopyStale(b, objs, remote, man0, t);
      RemoteGrows(d0, Dst(), b);
      ghost var n1 := world.now;
      if died {
        return;
      }
      var failedToo;
      ghost var lost;
      man, deleted, held, failedToo, died, lost := DeleteUnlessHeld(b, objs, remote, man, world.local(t));
      failed := failed || failedToo;
      assert MayLose(lost, remote) && remote - lost <= Remote(Dst(), b);
      ghost var quiet := Quiet(world, t, world.now);
      if quiet {
        QuietPart(world, t, world.now, n1);
      }
    }

    /** mirrorBucket: list both sides, copy what is stale, delete what is gone. */
    method MirrorBucket(b: string, man0: Manifest)
      returns (man: Manifest, copied: nat, deleted: nat, held: nat, failed: bool, died: bool)
      requires IsBucket(b)
      modifies world
      ensures old(world.now) <= world.now
      ensures old(IsSafe(man0)) ==> IsSafe(man)
      ensures TouchesOnly(old(Dst()), Dst(), b)
      ensures KeepsEnough(Remote(old(Dst()), b), Remote(Dst(), b))
      ensures (forall t: nat :: old(world.now) <= t < world.now ==> LocalKeys(world.local(t), b) == {}) ==>
                Remote(old(Dst()), b) <= Remote(Dst(), b)
      ensures Quiet(world, old(world.now), world.now) ==>
                && !failed && !died
                && BucketResult(world.local(old(world.now)), b, old(Dst()), man0, Dst(), man, copied, deleted, held)
    {
      man, copied, deleted, held := man0, 0, 0, 0;
      ghost var t, d0, safe := world.now, Dst(), IsSafe(man0);
      NothingLost(Remote(d0, b));
      var r, objs, remote := ListBoth(b);
      ghost var n1 := world.now;
      if safe {
        SafeLater(world.local, d0, man0, t, n1);
      }
      if !r.Ok? {
        return man0, 0, 0, 0, true, r.Crash?;
      }
      man, copied, deleted, held, failed, died := CopyThenDelete(b, objs, remote, man0, t);
    }

    /** Where a pass begun at time `n0` stands with the buckets `done` behind it. */
    ghost predicate Passing(done: seq<string>, n0: nat, safe: bool, d0: Dest, man: Manifest, report: Report, failed: bool)
      reads world
    {
      && (safe ==> IsSafe(man)) && n0 < world.now
      && KeptThrough(done, d0, Dst())
      && (Quiet(world, n0, world.now) ==> !failed && PassedBuckets(done, d0, world.local(n0), Dst(), man, report))
    }

    method PassBucket(b: string, man0: Manifest, report0: Report, failed0: bool, ghost done: seq<string>,
                      ghost n0: nat, ghost safe: bool, ghost d0: Dest)
      returns (man: Manifest, report: Report, failed: bool, died: bool)
      requires IsBucket(b) && b !in done && Passing(done, n0, safe, d0, man0, report0, failed0)
      modifies world
      ensures old(world.now) <= world.now
      ensures Passing(done + [b], n0, safe, d0, man, report, failed)
      ensures Quiet(world, n0, world.now) ==> !died
    {
      ghost var n, d := world.now, Dst();
      var copied, deleted, held;
      man, copied, deleted, held, failed, died := MirrorBucket(b, man0);
      report := Reported(report0, b, copied, deleted, held);
      failed := failed || failed0;
      KeptThroughNext(done, b, d0, d, Dst());
      ghost var quiet := Quiet(world, n0, world.now);
      if quiet {
        QuietPart(world, n0, world.now, n);
        OneMoreBucket(done, b, d0, world.local(n0), d, man0, report0, Dst(), man, copied, deleted, held);
      }
    }

    /** The end of a pass: save the manifest in any case, and stamp a pass without failures. */
    method Finish(man: Manifest, failed: bool) returns (ok: bool, died: bool)
      modifies world
      ensures old(world.now) <= world.now
      ensures old(IsSafe(man)) ==> IsSafe(Saved(Dst()))
      ensures forall b :: Remote(Dst(), b) == Remote(old(Dst()), b)
      ensures died ==> !ok
      ensures Quiet(world, old(world.now), world.now) && !failed ==> ok && Dst() == Completed(Pass(old(Dst()), man))
    {
      ghost var n, d, safe := world.now, Dst(), IsSafe(man);
      var r := PutMarker(ManifestSlot, ManifestBlob(man));
      if safe {
        MarkerKeepsSafe(world.local, d, Dst(), man, n, world.now);
      }
      MarkerKeepsRemote(d, Dst());
      ok, died := false, r.Crash?;
      if !r.Ok? || failed {
        return;
      }
      ghost var m, e := world.now, Dst();
      r := PutMarker(StatusSlot, Stamp);
      if safe {
        MarkerKeepsSafe(world.local, e, Dst(), Saved(e), m, world.now);
      }
      MarkerKeepsRemote(e, Dst());
      ok, died := r.Ok?, r.Crash?;
    }

    /** The loop over the buckets, from the manifest just read. */
    method PassBuckets(man0: Manifest, ghost n0: nat)
      returns (man: Manifest, report: Report, failed: bool, died: bool)
      requires man0 == Saved(Dst()) && n0 < world.now
      modifies world
      ensures old(world.now) <= world.now
      ensures old(IsSafe(man0)) ==> IsSafe(man)
      ensures forall b :: IsBucket(b) ==> KeepsEnough(Remote(old(Dst()), b), Remote(Dst(), b))
      ensures Quiet(world, n0, world.now) ==>
                !failed && !died && PassedBuckets(BUCKETS, old(Dst()), world.local(n0), Dst(), man, report)
    {
      man, report, failed, died := man0, Report(0, 0, map[]), false, false;
      ghost var d0, safe := Dst(), IsSafe(man0);
      NothingKept(d0);
      assert BUCKETS[..0] == [];
      var i := 0;
      while i < |BUCKETS| && !died
        invariant i <= |BUCKETS| && old(world.now) <= world.now
        invariant Passing(BUCKETS[..i], n0, safe, d0, man, report, failed)
        invariant Quiet(world, n0, world.now) ==> !died
      {
        BucketsNext(i);
        man, report, failed, died := PassBucket(BUCKETS[i], man, report, failed, BUCKETS[..i], n0, safe, d0);
        i := i + 1;
      }
      if i == |BUCKETS| {
        assert BUCKETS[..i] == BUCKETS;
      }
    }

    /** Once: one pass over all the buckets. */
    method Once() returns (report: Report, ok: bool, died: bool)
      modifies world
      ensures old(world.now) <= world.now
      ensures old(IsSafe(Saved(Dst()))) ==> IsSafe(Saved(Dst()))
      ensures forall b :: IsBucket(b) ==> KeepsEnough(Remote(old(Dst()), b), Remote(Dst(), b))
      ensures died ==> !ok
      ensures Quiet(world, old(world.now), world.now) ==>
                var l := world.local(old(world.now));
                && ok
                && Dst() == WholePass(old(Dst()), l)
                && report.copied == MissingIn(old(Dst()), l, BUCKETS)
                && forall b :: IsBucket(b) ==> DeletesWhenItShould(Remote(old(Dst()), b), Remote(Dst(), b), LocalKeys(l, b), b in report.held)
    {
      ghost var n0, d0, safe := world.now, Dst(), IsSafe(Saved(Dst()));
      AllKept(d0, d0);
      var r, man := ReadManifest();
      if safe {
        SafeLater(world.local, d0, man, n0, world.now);
      }
      if !r.Ok? {
        return Report(0, 0, map[]), false, r.Crash?;
      }
      ok := false;
      var failed;
      man, report, failed, died := PassBuckets(man, n0);
      ghost var n, d1 := world.now, Dst();
      if died {
        return;
      }
      ok, died := Finish(man, failed);
      ghost var quiet := Quiet(world, n0, world.now);
      if quiet {
        QuietPart(world, n0, world.now, n);
        PassedAll(d0, world.local(n0), d1, man, report);
        QuietPassDeletes(d0, world.local(n0), report.held);
      }
    }

    /** How many objects of a listing are missing or out of date at the destination. */
    method CountStale(b: string, objs: seq<Listed>, remote: set<string>, man: Manifest, ghost l: Local) returns (n: nat)
      requires Lists(objs, l, b)
      ensures n == |Stale(l, remote, man, b)|
    {
      n := 0;
      for i := 0 to |objs|
        invariant n == |StaleUpTo(objs, i, remote, man, b)|
      {
        StaleUpToNext(objs, i, remote, man, b);
        if IsStale(remote, man, Path(b, objs[i].key), objs[i].version) {
          n := n + 1;
        }
      }
      AllStale(objs, l, remote, man, b);
    }

    /** One bucket of Status: its stale objects and the size of its copy. */
    method CountBucket(b: string, man: Manifest) returns (r: Reply, missing: nat, copies: nat)
      requires IsBucket(b) && man == Saved(Dst())
      modifies world`now
      ensures old(world.now) < world.now && Dst() == old(Dst())
      ensures r.Ok? ==> copies == |Remote(Dst(), b)| && missing == Missing(Dst(), world.local(old(world.now)), b)
      ensures Quiet(world, old(world.now), world.now) ==> r.Ok?
    {
      ghost var t := world.now;
      var objs, remote;
      missing, copies := 0, 0;
      r, objs, remote := ListBoth(b);
      if !r.Ok? {
        return;
      }
      missing := CountStale(b, objs, remote, man, world.local(t));
      copies := |remote|;
    }

    /** The loop of Status; `at` says when each bucket was listed. */
    method CountBuckets(bs: seq<string>, man: Manifest)
      returns (r: Reply, missing: map<string, nat>, copies: map<string, nat>, ghost at: map<string, nat>)
      requires man == Saved(Dst()) && forall j :: 0 <= j < |bs| ==> IsBucket(bs[j])
      modifies world`now
      ensures old(world.now) <= world.now && Dst() == old(Dst())
      ensures r.Ok? ==> forall j :: 0 <= j < |bs| ==> Counted(world.local, Dst(), bs[j], missing, copies, at)
      ensures forall b :: b in at ==> old(world.now) <= at[b] < world.now
      ensures Quiet(world, old(world.now), world.now) ==> r.Ok?
    {
      r, missing, copies, at := Reply.Ok, map[], map[], map[];
      ghost var d := Dst();
      for i := 0 to |bs|
        invariant old(world.now) <= world.now && Dst() == d && r.Ok?
        invariant forall j :: 0 <= j < i ==> Counted(world.local, d, bs[j], missing, copies, at)
        invariant forall b :: b in at ==> old(world.now) <= at[b] < world.now
      {
        var n, m;
        ghost var t := world.now;
        r, n, m := CountBucket(bs[i], man);
        if !r.Ok? {
          return;
        }
        CountedNext(world.local, d, bs, i, missing, copies, at, n, m, t);
        missing, copies, at := missing[bs[i] := n], copies[bs[i] := m], at[bs[i] := t];
      }
    }

    /**
     Status: compares without copying.  Each bucket's count is what a pass that found local
     storage as it was when the bucket was listed would copy; `synced` is whether a pass was
     ever completed.
     */
    method Status() returns (ok: bool, missing: map<string, nat>, copies: map<string, nat>, synced: bool, ghost at: map<string, nat>)
      modifies world`now
      ensures old(world.now) <= world.now && Dst() == old(Dst())
      ensures ok ==> forall b :: IsBucket(b) ==> Counted(world.local, Dst(), b, missing, copies, at)
      ensures forall b :: b in at ==> old(world.now) <= at[b] < world.now
      ensures ok ==> (synced <==> StatusSlot in Dst())
      ensures Quiet(world, old(world.now), world.now) ==> ok
    {
      ok, missing, copies, synced, at := false, map[], map[], false, map[];
      var r, man := ReadManifest();
      if !r.Ok? {
        return;
      }
      r, missing, copies, at := CountBuckets(BUCKETS, man);
      if !r.Ok? {
        return;
      }
      ViewAt(world.objects, prefix, StatusSlot);
      var blob;
      r, blob := world.GetDest(prefix + STATUS_KEY);
      ok, synced := r.Ok?, blob.Some?;
    }

    /**
     Run: passes one after the other, whatever fails, wherever the process dies and is
     started again, and whatever happens to local storage.
     */
    method Run(passes: nat)
      modifies world
      ensures old(IsSafe(Saved(Dst()))) ==> IsSafe(Saved(Dst()))
      ensures forall b :: IsBucket(b) && |Remote(old(Dst()), b)| >= 10 * Pow2(passes) ==> |Remote(Dst(), b)| >= 10
    {
      ghost var d0 := Dst();
      for i := 0 to passes
        invariant old(IsSafe(Saved(Dst()))) ==> IsSafe(Saved(Dst()))
        invariant forall b :: IsBucket(b) && |Remote(d0, b)| >= 10 * Pow2(passes) ==>
                                |Remote(Dst(), b)| >= 10 * Pow2(passes - i)
      {
        ghost var d := Dst();
        var report, ok, died := Once();
        forall b | IsBucket(b) && |Remote(d0, b)| >= 10 * Pow2(passes)
          ensures |Remote(Dst(), b)| >= 10 * Pow2(passes - i - 1)
        {
          OnePassKeepsHalf(Remote(d, b), Remote(Dst(), b));
        }
      }
    }
  }
}
