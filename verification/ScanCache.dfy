/** Scanning with the hash cache: the same manifest as hashing every file. */
module ScanCache {
  import opened Paths
  import opened Wrappers
  import opened Digests
  import opened Engine

  /** What a stat call tells about a file. */
  datatype Identity = Identity(size: nat, mtimeS: nat, mtimeNs: nat, inode: nat) {
    function Ms(): nat {
      mtimeS * 1000 + mtimeNs / 1_000_000
    }
  }

  datatype FsNode = Dir(mtime: nat) | File(content: Bytes, mtimeS: nat, mtimeNs: nat, inode: nat) {
    function Id(): Identity
      requires File?
    {
      Identity(|content|, mtimeS, mtimeNs, inode)
    }
  }

  /** What the walker finds below the root, exclusions already applied. */
  type Tree = map<Path, FsNode>

  datatype CachedEntry = CachedEntry(id: Identity, hash: string)

  const CACHE_MIN_AGE_MS := 5_000

  const ZERO_HASH: Digest := seq(DIGEST_BYTES, _ => 0)

  ghost predicate IsDigest(digest: Bytes -> Digest) {
    forall content :: |digest(content)| == DIGEST_BYTES
  }

  /** The manifest entry of a file or directory, hashed from its content. */
  function MetaOf(digest: Bytes -> Digest, p: Path, n: FsNode): Meta {
    match n
    case Dir(mtime) => Meta(p, 0, ZERO_HASH, mtime, true)
    case File(content, _, _, _) => Meta(p, |content|, digest(content), n.Id().Ms(), false)
  }

  /** A scan without any cache. */
  function ColdScan(digest: Bytes -> Digest, tree: Tree): Manifest {
    map p | p in tree :: MetaOf(digest, p, tree[p])
  }

  /** What such a scan reports: every path once, files with size, content and mtime in milliseconds, directories without. */
  lemma ColdScanMeans(digest: Bytes -> Digest, tree: Tree, p: Path)
    ensures p in ColdScan(digest, tree) <==> p in tree
    ensures p in tree ==> ColdScan(digest, tree)[p].relPath == p && ColdScan(digest, tree)[p].isDir == tree[p].Dir?
    ensures p in tree && tree[p].File? ==>
              var m := ColdScan(digest, tree)[p];
              m.size == |tree[p].content| && m.hash == digest(tree[p].content) && m.modifiedMs == tree[p].mtimeS * 1000 + tree[p].mtimeNs / 1_000_000
    ensures p in tree && tree[p].Dir? ==> ColdScan(digest, tree)[p].modifiedMs == tree[p].mtime
  {
  }

  /** A content change always changes size, mtime or inode. */
  ghost predicate Honest(trees: seq<Tree>) {
    forall i, j, p :: 0 <= i < |trees| && 0 <= j < |trees| ==> Consistent(trees[i], trees[j], p)
  }

  predicate Consistent(a: Tree, b: Tree, p: Path) {
    p in a && p in b && a[p].File? && b[p].File? && a[p].Id() == b[p].Id() ==> a[p].content == b[p].content
  }

  /** Every cached hash is that of a file one of the earlier scans saw under the same identity. */
  ghost predicate Sound(digest: Bytes -> Digest, entries: map<Path, CachedEntry>, past: seq<Tree>) {
    forall p :: p in entries ==> exists i :: 0 <= i < |past| && Saw(digest, past[i], p, entries[p])
  }

  ghost predicate Saw(digest: Bytes -> Digest, tree: Tree, p: Path, e: CachedEntry) {
    p in tree && tree[p].File? && tree[p].Id() == e.id && e.hash == Hex(digest(tree[p].content))
  }

  class ManifestCache {
    var entries: map<Path, CachedEntry>
    var dirty: bool

    constructor (entries: map<Path, CachedEntry>)
      ensures this.entries == entries && !dirty
    {
      this.entries, dirty := entries, false;
    }

    /** The hash on record, only for an unchanged identity and a file that has rested long enough. */
    function Lookup(p: Path, id: Identity, nowMs: nat): Option<string>
      reads this
    {
      if p in entries && entries[p].id == id && nowMs > id.Ms() + CACHE_MIN_AGE_MS then Some(entries[p].hash) else None
    }

    method Upsert(p: Path, e: CachedEntry)
      modifies this
      ensures entries == old(entries)[p := e]
      ensures dirty <==> old(dirty) || entries != old(entries)
    {
      if !(p in entries && entries[p] == e) {
        entries, dirty := entries[p := e], true;
      } else {
        assert entries[p := e] == entries;
      }
    }

    method PruneMissing(existing: set<Path>) returns (removed: nat)
      modifies this
      ensures entries == map p | p in old(entries) && p in existing :: old(entries)[p]
      ensures removed == |old(entries)| - |entries|
      ensures dirty <==> old(dirty) || entries != old(entries)
    {
      var kept := map p | p in entries && p in existing :: entries[p];
      var gone := entries.Keys - kept.Keys;
      assert entries.Keys == kept.Keys + gone && |entries.Keys| == |kept.Keys| + |gone|;
      assert |entries| == |entries.Keys| && |kept| == |kept.Keys|;
      removed := |entries| - |kept|;
      assert removed == 0 <==> gone == {};
      assert gone == {} ==> kept == entries;
      entries := kept;
      if removed > 0 {
        dirty := true;
      }
    }
  }

  function EntryOf(digest: Bytes -> Digest, n: FsNode): CachedEntry
    requires n.File?
  {
    CachedEntry(n.Id(), Hex(digest(n.content)))
  }

  /** One path: the trusted hash when there is one, else the file is hashed and recorded. */
  method HashOne(digest: Bytes -> Digest, p: Path, n: FsNode, cache: ManifestCache, dirty: set<Path>, nowMs: nat, ghost past: seq<Tree>)
    returns (meta: Meta, upsert: Option<CachedEntry>)
    requires IsDigest(digest) && Sound(digest, cache.entries, past)
    requires forall i :: 0 <= i < |past| ==> Consistent(past[i], map[p := n], p)
    ensures meta == MetaOf(digest, p, n)
    ensures upsert.Some? <==>
              n.File? && (p in dirty || p !in cache.entries || cache.entries[p].id != n.Id() || nowMs <= n.Id().Ms() + CACHE_MIN_AGE_MS)
    ensures upsert.Some? ==> upsert.value == EntryOf(digest, n)
    ensures n.File? && upsert.None? ==> p in cache.entries && cache.entries[p] == EntryOf(digest, n)
  {
    if n.Dir? {
      return MetaOf(digest, p, n), None;
    }
    if p !in dirty {
      var hex := cache.Lookup(p, n.Id(), nowMs);
      if hex.Some? {
        var hash := ParseHex32(hex.value);
        if hash.Some? {
          ghost var i :| 0 <= i < |past| && Saw(digest, past[i], p, cache.entries[p]);
          assert past[i][p].content == n.content;
          return Meta(p, |n.content|, hash.value, n.Id().Ms(), false), None;
        }
      }
    }
    var hash := digest(n.content);
    return Meta(p, |n.content|, hash, n.Id().Ms(), false), Some(CachedEntry(n.Id(), Hex(hash)));
  }

  ghost predicate UpToDate(digest: Bytes -> Digest, tree: Tree, entries: map<Path, CachedEntry>, p: Path)
    requires p in tree
  {
    tree[p].File? ==> p in entries && entries[p] == EntryOf(digest, tree[p])
  }

  /** Take over one outcome: its manifest entry, and its hash if it had to be computed. */
  method Collect(digest: Bytes -> Digest, tree: Tree, p: Path, cache: ManifestCache, dirty: set<Path>, nowMs: nat,
                 next: ManifestCache, ghost past: seq<Tree>)
    returns (meta: Meta)
    requires IsDigest(digest) && Sound(digest, cache.entries, past) && Honest(past + [tree]) && p in tree && cache != next
    requires Sound(digest, next.entries, past + [tree])
    requires p in cache.entries ==> p in next.entries && next.entries[p] == cache.entries[p]
    modifies next
    ensures meta == MetaOf(digest, p, tree[p]) && Sound(digest, next.entries, past + [tree])
    ensures UpToDate(digest, tree, next.entries, p)
    ensures forall q :: q != p && q in old(next.entries) ==> q in next.entries && next.entries[q] == old(next.entries)[q]
  {
    PastConsistent(past, tree, p);
    var upsert;
    meta, upsert := HashOne(digest, p, tree[p], cache, dirty, nowMs, past);
    if upsert.Some? {
      SoundUpsert(digest, next.entries, past, tree, p, upsert.value);
      next.Upsert(p, upsert.value);
    }
  }

  /** What the collection loop has done: all paths but `todo` are in the manifest, and up to date in the next cache. */
  ghost predicate Collected(
      digest: Bytes -> Digest, tree: Tree, known: map<Path, CachedEntry>, todo: set<Path>, manifest: Manifest, entries: map<Path, CachedEntry>)
  {
    && manifest.Keys == tree.Keys - todo && (forall p :: p in manifest ==> manifest[p] == MetaOf(digest, p, tree[p]))
    && (forall p :: p in manifest ==> UpToDate(digest, tree, entries, p))
    && (forall p :: p in todo && p in known ==> p in entries && entries[p] == known[p])
  }

  lemma CollectedOneMore(
      digest: Bytes -> Digest, tree: Tree, known: map<Path, CachedEntry>, todo: set<Path>, manifest: Manifest,
      before: map<Path, CachedEntry>, after: map<Path, CachedEntry>, p: Path)
    requires Collected(digest, tree, known, todo, manifest, before) && todo <= tree.Keys && p in todo
    requires UpToDate(digest, tree, after, p)
    requires forall q :: q != p && q in before ==> q in after && after[q] == before[q]
    ensures Collected(digest, tree, known, todo - {p}, manifest[p := MetaOf(digest, p, tree[p])], after)
  {
    forall q | q in manifest
      ensures UpToDate(digest, tree, after, q)
    {
      assert UpToDate(digest, tree, before, q);
    }
  }

  /** The collection loop: paths in whatever order the walker and the hash threads yield them. */
  method HashAll(digest: Bytes -> Digest, tree: Tree, known: map<Path, CachedEntry>, dirty: set<Path>, nowMs: nat,
                 next: ManifestCache, ghost past: seq<Tree>)
    returns (manifest: Manifest)
    requires IsDigest(digest) && Sound(digest, known, past) && Honest(past + [tree]) && next.entries == known
    modifies next
    ensures manifest == ColdScan(digest, tree)
    ensures Sound(digest, next.entries, past + [tree])
    ensures forall p :: p in tree ==> UpToDate(digest, tree, next.entries, p)
  {
    var cache := new ManifestCache(known);
    manifest := map[];
    var todo := tree.Keys;
    SoundLater(digest, known, past, tree);
    while todo != {}
      invariant todo <= tree.Keys && cache.entries == known && cache != next
      invariant Sound(digest, next.entries, past + [tree]) && Collected(digest, tree, known, todo, manifest, next.entries)
    {
      var p :| p in todo;
      ghost var before := next.entries;
      var meta := Collect(digest, tree, p, cache, dirty, nowMs, next, past);
      CollectedOneMore(digest, tree, known, todo, manifest, before, next.entries, p);
      manifest := manifest[p := meta];
      todo := todo - {p};
    }
  }

  /** A scan, then the entries of vanished paths go. */
  method BuildManifest(digest: Bytes -> Digest, tree: Tree, known: map<Path, CachedEntry>, dirty: set<Path>, nowMs: nat, ghost past: seq<Tree>)
    returns (manifest: Manifest, updated: map<Path, CachedEntry>)
    requires IsDigest(digest) && Sound(digest, known, past) && Honest(past + [tree])
    ensures manifest == ColdScan(digest, tree)
    ensures Sound(digest, updated, past + [tree]) && updated.Keys <= tree.Keys
    ensures forall p :: p in tree ==> UpToDate(digest, tree, updated, p)
  {
    var next := new ManifestCache(known);
    manifest := HashAll(digest, tree, known, dirty, nowMs, next, past);
    ghost var all := next.entries;
    var _ := next.PruneMissing(manifest.Keys);
    updated := next.entries;
    SoundPart(digest, updated, all, past + [tree]);
  }

  lemma PastConsistent(past: seq<Tree>, tree: Tree, p: Path)
    requires Honest(past + [tree]) && p in tree
    ensures forall i :: 0 <= i < |past| ==> Consistent(past[i], map[p := tree[p]], p)
  {
    forall i | 0 <= i < |past|
      ensures Consistent(past[i], map[p := tree[p]], p)
    {
      assert (past + [tree])[i] == past[i] && (past + [tree])[|past|] == tree;
      assert Consistent(past[i], tree, p);
    }
  }

  lemma SoundLater(digest: Bytes -> Digest, entries: map<Path, CachedEntry>, past: seq<Tree>, tree: Tree)
    requires Sound(digest, entries, past)
    ensures Sound(digest, entries, past + [tree])
  {
    forall p | p in entries
      ensures exists i :: 0 <= i < |past + [tree]| && Saw(digest, (past + [tree])[i], p, entries[p])
    {
      var i :| 0 <= i < |past| && Saw(digest, past[i], p, entries[p]);
      assert (past + [tree])[i] == past[i];
    }
  }

  lemma SoundPart(digest: Bytes -> Digest, part: map<Path, CachedEntry>, entries: map<Path, CachedEntry>, past: seq<Tree>)
    requires Sound(digest, entries, past) && forall p :: p in part ==> p in entries && part[p] == entries[p]
    ensures Sound(digest, part, past)
  {
  }

  lemma SoundUpsert(digest: Bytes -> Digest, entries: map<Path, CachedEntry>, past: seq<Tree>, tree: Tree, p: Path, e: CachedEntry)
    requires Sound(digest, entries, past + [tree]) && Saw(digest, tree, p, e)
    ensures Sound(digest, entries[p := e], past + [tree])
  {
    assert (past + [tree])[|past|] == tree;
  }

  datatype Scan = Scan(tree: Tree, dirty: set<Path>, nowMs: nat)

  /** Any run of edits and scans, the cache carried from scan to scan: every manifest is the cold one. */
  method RunScans(digest: Bytes -> Digest, scans: seq<Scan>) returns (manifests: seq<Manifest>)
    requires IsDigest(digest) && Honest(TreesOf(scans))
    ensures |manifests| == |scans|
    ensures forall i :: 0 <= i < |scans| ==> manifests[i] == ColdScan(digest, scans[i].tree)
  {
    manifests := [];
    var cache: map<Path, CachedEntry> := map[];
    for i := 0 to |scans|
      invariant |manifests| == i && Sound(digest, cache, TreesOf(scans[..i]))
      invariant forall k :: 0 <= k < i ==> manifests[k] == ColdScan(digest, scans[k].tree)
    {
      TreesOneMore(scans, i);
      var manifest;
      manifest, cache := BuildManifest(digest, scans[i].tree, cache, scans[i].dirty, scans[i].nowMs, TreesOf(scans[..i]));
      manifests := manifests + [manifest];
    }
  }

  function TreesOf(scans: seq<Scan>): seq<Tree> {
    seq(|scans|, i requires 0 <= i < |scans| => scans[i].tree)
  }

  lemma TreesOneMore(scans: seq<Scan>, i: nat)
    requires i < |scans| && Honest(TreesOf(scans))
    ensures TreesOf(scans[..i + 1]) == TreesOf(scans[..i]) + [scans[i].tree] && Honest(TreesOf(scans[..i]) + [scans[i].tree])
  {
    var part := TreesOf(scans[..i]) + [scans[i].tree];
    assert TreesOf(scans[..i + 1]) == part;
    assert forall k :: 0 <= k <= i ==> part[k] == TreesOf(scans)[k];
  }
}
