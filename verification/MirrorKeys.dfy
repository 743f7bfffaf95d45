/**
 Names at the mirror's destination: which key holds which local object, how a listing is
 read back, and why the mirror's own marker objects are never mistaken for copies.
 */
module MirrorKeys {
  import opened Options

  const SUFFIX := ".age"
  const STATUS_KEY := "last-sync"
  const MANIFEST_KEY := "manifest.json"

  /** The platform buckets that are mirrored. */
  const BUCKETS := ["database", "config", "addon-backups"]

  predicate IsBucket(b: string) { b in BUCKETS }

  /** A local object: its bucket and its key. */
  datatype Path = Path(bucket: string, key: string)

  /** The manifest's name for an object. */
  function ManifestName(p: Path): string { p.bucket + "/" + p.key }

  function ListPrefix(prefix: string, bucket: string): string { prefix + bucket + "/" }

  /** Target.Key */
  function Key(prefix: string, p: Path): string { prefix + p.bucket + "/" + p.key + SUFFIX }

  function TrimPrefix(s: string, p: string): string {
    if p <= s then s[|p|..] else s
  }

  function CutSuffix(s: string, suffix: string): Option<string> {
    if |suffix| <= |s| && s[|s| - |suffix|..] == suffix then Some(s[..|s| - |suffix|]) else None
  }

  /** What `remote` makes of one listed key of the bucket: the local key, or nothing. */
  function ListedKey(prefix: string, bucket: string, s: string): Option<string> {
    var p := ListPrefix(prefix, bucket);
    if p <= s then CutSuffix(TrimPrefix(s, p), SUFFIX) else None
  }

  /** Reading a listing back undoes the naming, and only copies are read back. */
  lemma ListedKeyInvertsKey(prefix: string, bucket: string, s: string, k: string)
    ensures ListedKey(prefix, bucket, s) == Some(k) <==> s == Key(prefix, Path(bucket, k))
  {
    var p := ListPrefix(prefix, bucket);
    if s == Key(prefix, Path(bucket, k)) {
      assert s == p + (k + SUFFIX);
      assert TrimPrefix(s, p) == k + SUFFIX;
    }
    if ListedKey(prefix, bucket, s) == Some(k) {
      assert s == p + s[|p|..];
      assert s[|p|..] == k + SUFFIX;
    }
  }

  predicate NoSlash(b: string) { forall i :: 0 <= i < |b| ==> b[i] != '/' }

  lemma BucketsHaveNoSlash(b: string)
    requires IsBucket(b)
    ensures NoSlash(b) && |b| > 0 && b[0] in {'d', 'c', 'a'}
  {
  }

  /** A slash-free bucket and its key can be read off the name. */
  lemma ManifestNameInjective(p: Path, q: Path)
    requires NoSlash(p.bucket) && NoSlash(q.bucket) && ManifestName(p) == ManifestName(q)
    ensures p == q
  {
    var s := ManifestName(p);
    assert s[|p.bucket|] == '/' && s[|q.bucket|] == '/';
    assert p.bucket == s[..|p.bucket|] && q.bucket == s[..|q.bucket|];
    assert p.key == s[|p.bucket| + 1..] && q.key == s[|q.bucket| + 1..];
  }

  lemma KeyInjective(prefix: string, p: Path, q: Path)
    requires NoSlash(p.bucket) && NoSlash(q.bucket) && Key(prefix, p) == Key(prefix, q)
    ensures p == q
  {
    var s := Key(prefix, p);
    assert s == prefix + ManifestName(p) + SUFFIX && s == prefix + ManifestName(q) + SUFFIX;
    assert ManifestName(p) == s[|prefix|..|s| - |SUFFIX|] == ManifestName(q);
    ManifestNameInjective(p, q);
  }

  /** The manifest and the status stamp are no object's copy. */
  lemma MarkersAreNotCopies(prefix: string, p: Path)
    requires IsBucket(p.bucket)
    ensures Key(prefix, p) != prefix + MANIFEST_KEY && Key(prefix, p) != prefix + STATUS_KEY
  {
    BucketsHaveNoSlash(p.bucket);
    assert Key(prefix, p)[|prefix|] == p.bucket[0];
    assert (prefix + MANIFEST_KEY)[|prefix|] == 'm' && (prefix + STATUS_KEY)[|prefix|] == 'l';
  }

  // ---------- slots ----------

  /** What a key at the destination stands for. */
  datatype Slot = Copy(path: Path) | ManifestSlot | StatusSlot | Foreign(name: string)

  predicate Ours(slot: Slot) {
    !slot.Foreign? && (slot.Copy? ==> IsBucket(slot.path.bucket))
  }

  function NameOf(prefix: string, slot: Slot): string {
    match slot
    case Copy(p) => Key(prefix, p)
    case ManifestSlot => prefix + MANIFEST_KEY
    case StatusSlot => prefix + STATUS_KEY
    case Foreign(s) => s
  }

  function SlotOf(prefix: string, s: string): Slot {
    if s == prefix + MANIFEST_KEY then ManifestSlot
    else if s == prefix + STATUS_KEY then StatusSlot
    else match CopyIn(prefix, s, BUCKETS)
      case Some(p) => Copy(p)
      case None => Foreign(s)
  }

  /** The first bucket in whose listing the key is a copy. */
  function CopyIn(prefix: string, s: string, buckets: seq<string>): Option<Path> {
    if buckets == [] then None
    else match ListedKey(prefix, buckets[0], s)
      case Some(k) => Some(Path(buckets[0], k))
      case None => CopyIn(prefix, s, buckets[1..])
  }

  lemma {:induction false} CopyInIs(prefix: string, s: string, buckets: seq<string>, p: Path)
    requires NoSlash(p.bucket) && forall b :: b in buckets ==> NoSlash(b)
    ensures p.bucket in buckets && s == Key(prefix, p) ==> CopyIn(prefix, s, buckets) == Some(p)
    ensures CopyIn(prefix, s, buckets) == Some(p) ==> s == Key(prefix, p) && p.bucket in buckets
  {
    if buckets != [] {
      CopyInIs(prefix, s, buckets[1..], p);
      match ListedKey(prefix, buckets[0], s)
      case Some(k) =>
        ListedKeyInvertsKey(prefix, buckets[0], s, k);
        if s == Key(prefix, p) {
          KeyInjective(prefix, p, Path(buckets[0], k));
        }
      case None =>
        if s == Key(prefix, p) && p.bucket == buckets[0] {
          ListedKeyInvertsKey(prefix, buckets[0], s, p.key);
        }
    }
  }

  lemma {:induction false} CopyInBucket(prefix: string, s: string, buckets: seq<string>)
    ensures CopyIn(prefix, s, buckets).Some? ==> CopyIn(prefix, s, buckets).value.bucket in buckets
    decreases buckets
  {
    if buckets != [] {
      CopyInBucket(prefix, s, buckets[1..]);
    }
  }

  lemma AllBucketsHaveNoSlash()
    ensures forall b :: b in BUCKETS ==> NoSlash(b)
  {
  }

  /** Slots and keys name each other. */
  lemma SlotOfInvertsNameOf(prefix: string, slot: Slot)
    requires Ours(slot)
    ensures SlotOf(prefix, NameOf(prefix, slot)) == slot
  {
    AllBucketsHaveNoSlash();
    match slot
    case Copy(p) =>
      MarkersAreNotCopies(prefix, p);
      CopyInIs(prefix, Key(prefix, p), BUCKETS, p);
    case ManifestSlot =>
    case StatusSlot =>
      assert (prefix + MANIFEST_KEY)[|prefix|] == 'm' && (prefix + STATUS_KEY)[|prefix|] == 'l';
    case Foreign(_) =>
  }

  lemma NameOfInvertsSlotOf(prefix: string, s: string)
    ensures NameOf(prefix, SlotOf(prefix, s)) == s
  {
    if SlotOf(prefix, s).Copy? {
      AllBucketsHaveNoSlash();
      CopyInBucket(prefix, s, BUCKETS);
      CopyInIs(prefix, s, BUCKETS, SlotOf(prefix, s).path);
    }
  }

  /** A key is listed as the copy of a local object of bucket `b` exactly when that is its slot. */
  lemma ListedIsSlot(prefix: string, b: string, s: string, k: string)
    requires IsBucket(b)
    ensures ListedKey(prefix, b, s) == Some(k) <==> SlotOf(prefix, s) == Copy(Path(b, k))
  {
    ListedKeyInvertsKey(prefix, b, s, k);
    if s == Key(prefix, Path(b, k)) {
      SlotOfInvertsNameOf(prefix, Copy(Path(b, k)));
    }
    NameOfInvertsSlotOf(prefix, s);
  }
}
