/**
 What one pass of the mirror does, as functions of the two stores and the manifest, and the
 properties of those functions: convergence, and what the deletion guard lets go.
 */
module MirrorPass {
  import opened Sets
  import opened MirrorKeys
  import opened MirrorStorage

  // ---------- the decisions of a pass over one bucket ----------

  /** `remote`: the local keys of the bucket that have a copy. */
  function Remote(dest: Dest, b: string): set<string> {
    set t | t in dest && t.Copy? && t.path.bucket == b :: t.path.key
  }

  lemma RemoteIs(dest: Dest, b: string, k: string)
    ensures k in Remote(dest, b) <==> Copy(Path(b, k)) in dest
  {
  }

  lemma LocalKeysIs(l: Local, b: string, k: string)
    ensures k in LocalKeys(l, b) <==> Path(b, k) in l
  {
  }

  /** The manifest at the destination; a missing or unreadable one is empty. */
  function Saved(dest: Dest): Manifest {
    if ManifestSlot in dest && dest[ManifestSlot].ManifestBlob? then dest[ManifestSlot].man else map[]
  }

  /** `stale`: no copy, or a copy of another version. */
  predicate IsStale(remote: set<string>, man: Manifest, p: Path, v: Version) {
    p.key !in remote || p !in man || man[p] != v
  }

  function Stale(l: Local, remote: set<string>, man: Manifest, b: string): set<Path> {
    set p | p in l && p.bucket == b && IsStale(remote, man, p, l[p].version)
  }

  function Gone(l: Local, remote: set<string>, b: string): set<string> {
    remote - LocalKeys(l, b)
  }

  const FREE_DELETES := 5

  /** The guard: deletions stop when the local bucket is empty or too much of the copy would go. */
  predicate Guarded(locals: nat, gone: nat, remote: nat) {
    locals == 0 || (gone > FREE_DELETES && 2 * gone > remote)
  }

  predicate Held(l: Local, remote: set<string>, b: string) {
    var gone := Gone(l, remote, b);
    gone != {} && Guarded(|LocalKeys(l, b)|, |gone|, |remote|)
  }

  function Deleted(l: Local, remote: set<string>, b: string): set<Path> {
    if Held(l, remote, b) then {} else set k | k in Gone(l, remote, b) :: Path(b, k)
  }

  // ---------- the effect of a pass ----------

  function CopiesOf(ps: set<Path>): set<Slot> {
    set p | p in ps :: Copy(p)
  }

  /** `dest` with the objects `ps` copied from `l`. */
  function WithCopies(dest: Dest, l: Local, ps: set<Path>): Dest
    requires ps <= l.Keys
  {
    dest + map t: Slot | t in CopiesOf(ps) :: Sealed(l[t.path].content)
  }

  function WithVersions(man: Manifest, l: Local, ps: set<Path>): Manifest
    requires ps <= l.Keys
  {
    man + map p | p in ps :: l[p].version
  }

  /** The destination and the manifest a pass works on. */
  datatype Pass = Pass(dest: Dest, man: Manifest)

  /** One bucket, with no failure and unchanging local storage. */
  function BucketPass(st: Pass, l: Local, b: string): Pass {
    var remote := Remote(st.dest, b);
    var stale := Stale(l, remote, st.man, b);
    var gone := Deleted(l, remote, b);
    Pass(WithCopies(st.dest, l, stale) - CopiesOf(gone), WithVersions(st.man, l, stale) - gone)
  }

  /** Some buckets, in order. */
  function BucketsPass(st: Pass, l: Local, bs: seq<string>): Pass {
    if bs == [] then st else BucketPass(BucketsPass(st, l, bs[..|bs| - 1]), l, bs[|bs| - 1])
  }

  /** After the buckets, the manifest and the stamp of a complete pass. */
  function Completed(st: Pass): Dest {
    st.dest[ManifestSlot := ManifestBlob(st.man)][StatusSlot := Stamp]
  }

  function WholePass(dest: Dest, l: Local): Dest {
    Completed(BucketsPass(Pass(dest, Saved(dest)), l, BUCKETS))
  }

  // ---------- convergence ----------

  /** Two pass states agree on everything about bucket `b`. */
  ghost predicate SameBucket(s: Pass, t: Pass, b: string) {
    forall p: Path :: p.bucket == b ==>
      && (Copy(p) in s.dest <==> Copy(p) in t.dest)
      && (Copy(p) in s.dest ==> s.dest[Copy(p)] == t.dest[Copy(p)])
      && (p in s.man <==> p in t.man)
      && (p in s.man ==> s.man[p] == t.man[p])
  }

  lemma SameBucketSameDecisions(s: Pass, t: Pass, l: Local, b: string)
    requires SameBucket(s, t, b)
    ensures Remote(s.dest, b) == Remote(t.dest, b)
    ensures Stale(l, Remote(s.dest, b), s.man, b) == Stale(l, Remote(t.dest, b), t.man, b)
  {
  }

  /** The pass over one bucket touches no other and no marker. */
  lemma BucketPassLeavesOthers(st: Pass, l: Local, b: string, other: string)
    requires b != other
    ensures SameBucket(st, BucketPass(st, l, b), other)
    ensures forall t :: t in BucketPass(st, l, b).dest && !t.Copy? ==> t in st.dest && st.dest[t] == BucketPass(st, l, b).dest[t]
  {
  }

  /** Every copy that is not stale has the content of its local object. */
  ghost predicate Faithful(st: Pass, l: Local, b: string) {
    forall p :: p in l && p.bucket == b && p !in Stale(l, Remote(st.dest, b), st.man, b) ==>
      Copy(p) in st.dest && st.dest[Copy(p)] == Sealed(l[p].content)
  }

  /** Every local object of the bucket is at the destination, with its content, and recorded. */
  ghost predicate Mirrored(st: Pass, l: Local, b: string) {
    forall p :: p in l && p.bucket == b ==>
      && Copy(p) in st.dest && st.dest[Copy(p)] == Sealed(l[p].content)
      && p in st.man && st.man[p] == l[p].version
  }

  lemma MirroredIsNotStale(st: Pass, l: Local, b: string)
    requires Mirrored(st, l, b)
    ensures Stale(l, Remote(st.dest, b), st.man, b) == {}
  {
  }

  lemma DeletedIsNotLocal(l: Local, remote: set<string>, b: string, p: Path)
    requires p in Deleted(l, remote, b)
    ensures p !in l && p.bucket == b && p.key in remote
  {
  }

  /** Where one object of the bucket stands after the pass. */
  lemma BucketPassAt(st: Pass, l: Local, b: string, p: Path)
    requires p.bucket == b
    ensures var remote := Remote(st.dest, b);
            var stale, gone := p in Stale(l, remote, st.man, b), p in Deleted(l, remote, b);
            var after := BucketPass(st, l, b);
            && (Copy(p) in after.dest <==> !gone && (stale || Copy(p) in st.dest))
            && (Copy(p) in after.dest ==> after.dest[Copy(p)] == if stale then Sealed(l[p].content) else st.dest[Copy(p)])
            && (p in after.man <==> !gone && (stale || p in st.man))
            && (p in after.man ==> after.man[p] == if stale then l[p].version else st.man[p])
  {
  }

  lemma BucketGetsMirrored(st: Pass, l: Local, b: string)
    requires Faithful(st, l, b)
    ensures Mirrored(BucketPass(st, l, b), l, b)
  {
    var after := BucketPass(st, l, b);
    var remote := Remote(st.dest, b);
    forall p | p in l && p.bucket == b
      ensures Copy(p) in after.dest && after.dest[Copy(p)] == Sealed(l[p].content)
      ensures p in after.man && after.man[p] == l[p].version
    {
      BucketPassAt(st, l, b, p);
      if p in Deleted(l, remote, b) { DeletedIsNotLocal(l, remote, b, p); }
    }
  }

  /** Whether a key has a copy after the pass. */
  lemma BucketKeyAt(st: Pass, l: Local, b: string, k: string)
    ensures var remote := Remote(st.dest, b);
            k in Remote(BucketPass(st, l, b).dest, b) <==> k in LocalKeys(l, b) || (Held(l, remote, b) && k in remote)
  {
    var p := Path(b, k);
    RemoteIs(BucketPass(st, l, b).dest, b, k);
    RemoteIs(st.dest, b, k);
    LocalKeysIs(l, b, k);
    BucketPassAt(st, l, b, p);
    assert p in Deleted(l, Remote(st.dest, b), b) <==> !Held(l, Remote(st.dest, b), b) && k in Gone(l, Remote(st.dest, b), b);
  }

  /** The keys of the bucket at the destination after the pass. */
  lemma BucketKeysAfter(st: Pass, l: Local, b: string)
    ensures var remote := Remote(st.dest, b);
            Remote(BucketPass(st, l, b).dest, b) == LocalKeys(l, b) + if Held(l, remote, b) then remote else {}
  {
    var remote := Remote(st.dest, b);
    var extra := if Held(l, remote, b) then remote else {};
    forall k ensures k in Remote(BucketPass(st, l, b).dest, b) <==> k in LocalKeys(l, b) || k in extra {
      BucketKeyAt(st, l, b, k);
    }
    Together(Remote(BucketPass(st, l, b).dest, b), LocalKeys(l, b), extra);
  }

  lemma Together(all: set<string>, some: set<string>, others: set<string>)
    requires forall k :: k in all <==> k in some || k in others
    ensures all == some + others
  {
  }

  /** Across the whole loop, each bucket sees the decisions it would take first, and converges. */
  lemma {:induction false} BucketsConverge(st: Pass, l: Local, bs: seq<string>, i: nat)
    requires i < |bs| && (forall j :: 0 <= j < |bs| && j != i ==> bs[j] != bs[i])
    ensures var after := BucketsPass(st, l, bs);
            var remote := Remote(st.dest, bs[i]);
            && (Faithful(st, l, bs[i]) ==> Mirrored(after, l, bs[i]))
            && Remote(after.dest, bs[i]) == LocalKeys(l, bs[i]) + if Held(l, remote, bs[i]) then remote else {}
    decreases |bs|
  {
    var last := |bs| - 1;
    var before := BucketsPass(st, l, bs[..last]);
    if i == last {
      OthersLeaveBucket(st, l, bs[..last], bs[i]);
      SameBucketSameDecisions(st, before, l, bs[i]);
      if Faithful(st, l, bs[i]) {
        SameBucketSameFaith(st, before, l, bs[i]);
        BucketGetsMirrored(before, l, bs[i]);
      }
      BucketKeysAfter(before, l, bs[i]);
    } else {
      BucketsConverge(st, l, bs[..last], i);
      BucketPassLeavesOthers(before, l, bs[last], bs[i]);
      SameBucketSameDecisions(before, BucketsPass(st, l, bs), l, bs[i]);
    }
  }

  lemma SameBucketSameFaith(s: Pass, t: Pass, l: Local, b: string)
    requires SameBucket(s, t, b) && Faithful(s, l, b)
    ensures Faithful(t, l, b)
  {
    SameBucketSameDecisions(s, t, l, b);
  }

  lemma {:induction false} OthersLeaveBucket(st: Pass, l: Local, bs: seq<string>, b: string)
    requires b !in bs
    ensures SameBucket(st, BucketsPass(st, l, bs), b)
    decreases bs
  {
    if bs != [] {
      var last := |bs| - 1;
      OthersLeaveBucket(st, l, bs[..last], b);
      BucketPassLeavesOthers(BucketsPass(st, l, bs[..last]), l, bs[last], b);
    }
  }

  /** How many objects of the bucket a pass from this destination copies: what Status calls missing. */
  function Missing(dest: Dest, l: Local, b: string): nat {
    |Stale(l, Remote(dest, b), Saved(dest), b)|
  }

  /**
   Convergence of a whole quiet pass, bucket by bucket: every local object is at the
   destination with its content, the destination's keys are the local ones plus what the
   guard held, and nothing is missing any more.
   */
  lemma PassConverges(dest: Dest, l: Local, b: string)
    requires IsBucket(b) && Faithful(Pass(dest, Saved(dest)), l, b)
    ensures var after := WholePass(dest, l);
            var remote := Remote(dest, b);
            && (forall p :: p in l && p.bucket == b ==> Copy(p) in after && after[Copy(p)] == Sealed(l[p].content))
            && Remote(after, b) == LocalKeys(l, b) + (if Held(l, remote, b) then remote else {})
            && (!Held(l, remote, b) ==> Remote(after, b) == LocalKeys(l, b))
            && Missing(after, l, b) == 0
            && Mirrored(Pass(after, Saved(after)), l, b)
  {
    var i :| 0 <= i < |BUCKETS| && BUCKETS[i] == b;
    BucketsAreDistinct();
    BucketsConverge(Pass(dest, Saved(dest)), l, BUCKETS, i);
    CompletedKeepsBuckets(BucketsPass(Pass(dest, Saved(dest)), l, BUCKETS), l, b);
  }

  lemma BucketsAreDistinct()
    ensures forall i, j :: 0 <= i < j < |BUCKETS| ==> BUCKETS[i] != BUCKETS[j]
  {
  }

  lemma CompletedKeepsBuckets(st: Pass, l: Local, b: string)
    requires Mirrored(st, l, b)
    ensures var after := Completed(st);
            Remote(after, b) == Remote(st.dest, b) && Mirrored(Pass(after, Saved(after)), l, b) && Missing(after, l, b) == 0
  {
  }

  /**
   A second quiet pass over the same local storage copies nothing, and where the first held
   nothing it deletes nothing.
   */
  lemma SecondPassIsIdle(dest: Dest, l: Local, b: string)
    requires IsBucket(b) && Faithful(Pass(dest, Saved(dest)), l, b)
    ensures var after := WholePass(dest, l);
            && Stale(l, Remote(after, b), Saved(after), b) == {}
            && (!Held(l, Remote(dest, b), b) ==> Deleted(l, Remote(after, b), b) == {} && !Held(l, Remote(after, b), b))
  {
    PassConverges(dest, l, b);
    var after := WholePass(dest, l);
    MirroredIsNotStale(Pass(after, Saved(after)), l, b);
  }

  /** The keys of a bucket after a whole quiet pass, whatever the manifest said. */
  lemma PassKeysAfter(dest: Dest, l: Local, b: string)
    requires IsBucket(b)
    ensures Remote(WholePass(dest, l), b) == LocalKeys(l, b) + if Held(l, Remote(dest, b), b) then Remote(dest, b) else {}
  {
    var i :| 0 <= i < |BUCKETS| && BUCKETS[i] == b;
    BucketsAreDistinct();
    var st := Pass(dest, Saved(dest));
    BucketsConverge(st, l, BUCKETS, i);
    MarkersKeepKeys(BucketsPass(st, l, BUCKETS), b);
  }

  lemma MarkersKeepKeys(st: Pass, b: string)
    ensures Remote(Completed(st), b) == Remote(st.dest, b)
  {
    forall k ensures k in Remote(Completed(st), b) <==> k in Remote(st.dest, b) {
      RemoteIs(Completed(st), b, k);
      RemoteIs(st.dest, b, k);
    }
  }

  /** The guard, in so many words. */
  lemma HeldIff(l: Local, remote: set<string>, b: string)
    ensures var gone := remote - LocalKeys(l, b);
            Held(l, remote, b) <==> gone != {} && (LocalKeys(l, b) == {} || (|gone| > 5 && 2 * |gone| > |remote|))
  {
  }

  lemma AddsNothingIff(some: set<string>, others: set<string>)
    ensures some + others == some <==> others - some == {}
  {
    forall k | k in others - some ensures k in some + others && k !in some {
    }
    if others - some == {} {
      forall k | k in others ensures k in some {
        assert k !in others - some;
      }
    }
  }

  /**
   Exactly when a quiet pass deletes: what is gone locally leaves the destination if and only if
   local storage is not empty and that is at most five objects or at most half of the copy;
   otherwise every copy stays.
   */
  lemma PassDeletesIff(dest: Dest, l: Local, b: string)
    requires IsBucket(b)
    ensures var before, after, locals := Remote(dest, b), Remote(WholePass(dest, l), b), LocalKeys(l, b);
            var gone := before - locals;
            && (gone == {} ==> after == locals)
            && (gone != {} ==> (after == locals <==> locals != {} && (|gone| <= 5 || 2 * |gone| <= |before|)))
            && (after != locals ==> after == locals + before)
  {
    PassKeysAfter(dest, l, b);
    HeldIff(l, Remote(dest, b), b);
    AddsNothingIff(LocalKeys(l, b), Remote(dest, b));
  }

  // ---------- the deletion guard ----------

  /** What may disappear from a bucket in one pass. */
  predicate MayLose(lost: set<string>, remote: set<string>) {
    lost <= remote && (|lost| <= FREE_DELETES || 2 * |lost| <= |remote|)
  }

  lemma DeletedMayBeLost(l: Local, remote: set<string>, b: string, lost: set<string>)
    requires !Held(l, remote, b) && lost <= Gone(l, remote, b)
    ensures MayLose(lost, remote)
  {
    SubsetSize(lost, Gone(l, remote, b));
    if Gone(l, remote, b) == {} {
      assert lost == {};
    }
  }

  /** After some passes' worth of loss, what is left of the bucket. */
  ghost predicate KeepsEnough(before: set<string>, after: set<string>) {
    exists lost :: MayLose(lost, before) && before - lost <= after
  }

  /** A bucket of ten copies or more keeps at least half of them in one pass. */
  lemma OnePassKeepsHalf(before: set<string>, after: set<string>)
    requires KeepsEnough(before, after) && |before| >= 10
    ensures 2 * |after| >= |before|
  {
    var lost :| MayLose(lost, before) && before - lost <= after;
    SubsetSize(before - lost, after);
    assert |before| == |before - lost| + |lost| by { assert before == (before - lost) + lost; }
  }

  /** What a pass over some buckets copies: the sum of what Status calls missing in each. */
  function MissingIn(dest: Dest, l: Local, bs: seq<string>): nat {
    if bs == [] then 0 else MissingIn(dest, l, bs[..|bs| - 1]) + Missing(dest, l, bs[|bs| - 1])
  }
}
