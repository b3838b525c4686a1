/** The sync engine's mutations: admission, subtree deletes under the live-action guard, and renames. */
module Engine {
  import opened Paths
  import opened Wrappers
  import opened Digests
  import opened Ledgers

  datatype Meta = Meta(relPath: Path, size: nat, hash: Digest, modifiedMs: nat, isDir: bool)

  type Manifest = map<Path, Meta>

  /** The engine's state. `disk` is what a scan of the root would report at this moment. */
  datatype Node = Node(manifest: Manifest, disk: Manifest, ledger: Ledger)

  // ---- Admission ----

  /** The tombstoned path that vetoes a write: a covering tombstone newer than the write's stamp. */
  function VetoFor(l: Ledger, p: Path, actionMs: Option<nat>, modifiedMs: nat): Option<Path> {
    var cmp := if actionMs.Some? then actionMs.value else modifiedMs;
    var t := l.CoveringTombstone(p);
    if t.Some? && t.value.deletedAt > cmp then Some(t.value.path) else None
  }

  /** A live action raises the live record; a catch-up write lifts an older exact tombstone. */
  function AdmitRecord(l: Ledger, p: Path, actionMs: Option<nat>, modifiedMs: nat): Ledger {
    match actionMs
    case Some(at) => l.RecordAlive(p, at)
    case None => if p in l.tombs && modifiedMs > l.tombs[p].deletedAt then l.RecordAlive(p, modifiedMs) else l
  }

  /** Stamp of an outgoing file: the newer of its live record and its mtime, or none for catch-up. */
  function WireStamp(l: Ledger, p: Path, modifiedMs: nat): Option<nat> {
    var alive := l.AliveSince(p);
    if alive > 0 then Some(if alive < modifiedMs then modifiedMs else alive) else None
  }

  /** A file goes out as a live action exactly if its path has a live record, with a stamp no older than record and mtime. */
  lemma WireStampMeans(l: Ledger, p: Path, modifiedMs: nat)
    ensures WireStamp(l, p, modifiedMs).Some? <==> l.AliveSince(p) > 0
    ensures WireStamp(l, p, modifiedMs).Some? ==>
              var at := WireStamp(l, p, modifiedMs).value;
              at >= l.AliveSince(p) && at >= modifiedMs && (at == l.AliveSince(p) || at == modifiedMs)
  {
  }

  /**
   Checking an admitted live action again (at the commit of a large file, or on redelivery) sees
   past the tombstones its own record superseded: it is vetoed exactly when some covering
   tombstone, near or far, is newer than the live record the action left behind.
   */
  lemma RecheckAfterAdmission(l: Ledger, p: Path, at: nat)
    requires l.Valid() && at > 0 && VetoFor(l, p, Some(at), 0).None?
    ensures var again := AdmitRecord(l, p, Some(at), 0);
            VetoFor(again, p, Some(at), 0).Some? <==> AnyCoverNewer(l, p, again.AliveSince(p))
  {
    var again := AdmitRecord(l, p, Some(at), 0);
    CoverNearest(again, p);
    forall q
      ensures again.Covers(q, p) <==> l.Covers(q, p) && l.tombs[q].deletedAt > again.AliveSince(p)
      ensures again.Covers(q, p) ==> again.tombs[q] == l.tombs[q]
    {
      AdmittedCover(l, p, at, q);
    }
  }

  /** What covers a path after its action was admitted: the tombstones newer than its live record. */
  lemma AdmittedCover(l: Ledger, p: Path, at: nat, q: Path)
    requires l.Valid() && at > 0
    ensures var again := l.RecordAlive(p, at);
            && (again.Covers(q, p) <==> l.Covers(q, p) && l.tombs[q].deletedAt > again.AliveSince(p))
            && (again.Covers(q, p) ==> again.tombs[q] == l.tombs[q])
  {
  }

  /** An action admitted past the nearer, older tombstone of a subdirectory is vetoed by the farther one when checked again. */
  lemma RecheckVetoes()
    ensures exists l: Ledger, p: Path, at: nat ::
              && l.Valid() && at > 0 && VetoFor(l, p, Some(at), 0).None?
              && VetoFor(AdmitRecord(l, p, Some(at), 0), p, Some(at), 0).Some?
  {
    var dir, sub, file: Path := ["d"], ["d", "s"], ["d", "s", "a"];
    var l := EMPTY.Record(Tombstone(dir, 200, "peer", None, None)).Record(Tombstone(sub, 100, "peer", None, None));
    assert file[..3] == file && file[..2] == sub && file[..1] == dir;
    assert l.Covers(dir, file) && l.Covers(sub, file) && !l.Covers(file, file);
    assert l.CoverFrom(file, 3) == l.CoverFrom(file, 2) == Some(l.tombs[sub]);
    RecheckAfterAdmission(l, file, 150);
    assert AnyCoverNewer(l, file, AdmitRecord(l, file, Some(150), 0).AliveSince(file));
    assert VetoFor(l, file, Some(150), 0).None?;
  }

  /** A received file: its description on the sender's disk, and its action stamp if it is a live action. */
  datatype FileData = FileData(path: Path, meta: Meta, actionMs: Option<nat>)

  /** One file of a bundle: skipped when vetoed, otherwise admitted and written. */
  function WriteFile(n: Node, fd: FileData): Node {
    if !Admits(n, fd) then n
    else
      Node(n.manifest[fd.path := fd.meta], n.disk[fd.path := fd.meta],
           AdmitRecord(n.ledger, fd.path, fd.actionMs, fd.meta.modifiedMs))
  }

  function WriteFiles(n: Node, fds: seq<FileData>): Node {
    if fds == [] then n else WriteFile(WriteFiles(n, fds[..|fds| - 1]), fds[|fds| - 1])
  }

  /** A file where the disk has a directory or the other way round, or a file where a parent directory is needed. */
  predicate Clashes(disk: Manifest, fd: FileData) {
    || (fd.path in disk && disk[fd.path].isDir != fd.meta.isDir)
    || exists i :: 0 < i < |fd.path| && fd.path[..i] in disk && !disk[fd.path[..i]].isDir
  }

  /** The write is admitted and fails on disk. */
  predicate Obstructs(n: Node, fd: FileData) {
    Admits(n, fd) && Clashes(n.disk, fd)
  }

  predicate Admits(n: Node, fd: FileData) {
    VetoFor(n.ledger, fd.path, fd.actionMs, fd.meta.modifiedMs).None?
  }

  /** No write of the sequence fails; only then does `WriteFiles` describe what becomes of the node. */
  ghost predicate Unobstructed(n: Node, fds: seq<FileData>) {
    forall i :: 0 <= i < |fds| ==> !ObstructedAt(n, fds, i)
  }

  predicate ObstructedAt(n: Node, fds: seq<FileData>, i: nat)
    requires i < |fds|
  {
    Obstructs(WriteFiles(n, fds[..i]), fds[i])
  }

  /** The files came from one tree: each path once, and only directories above others. */
  ghost predicate Treelike(fds: seq<FileData>) {
    forall i, j :: 0 <= i < |fds| && 0 <= j < |fds| && i != j ==>
      fds[i].path != fds[j].path && (Below(fds[i].path, fds[j].path) ==> fds[j].meta.isDir)
  }

  predicate AdmittedAt(n: Node, fds: seq<FileData>, i: nat)
    requires i < |fds|
  {
    Admits(WriteFiles(n, fds[..i]), fds[i])
  }

  /** What the disk holds at a path after some writes: the file of an admitted write `j` there, or (`j` = -1) what it held. */
  lemma {:induction false} DiskAfter(n: Node, fds: seq<FileData>, k: nat, q: Path) returns (j: int)
    requires k <= |fds|
    ensures -1 <= j < k
    ensures var disk := WriteFiles(n, fds[..k]).disk;
            if j == -1 then (q in disk <==> q in n.disk) && (q in disk ==> disk[q] == n.disk[q])
            else AdmittedAt(n, fds, j) && fds[j].path == q && q in disk && disk[q] == fds[j].meta
  {
    j := -1;
    if k > 0 {
      assert fds[..k][..k - 1] == fds[..k - 1];
      j := DiskAfter(n, fds, k - 1, q);
      if AdmittedAt(n, fds, k - 1) && fds[k - 1].path == q {
        j := k - 1;
      }
    }
  }

  /** While no admitted file clashed with the disk as it was, later ones clash exactly when they did from the start. */
  lemma ClashSettled(n: Node, fds: seq<FileData>, i: nat)
    requires Treelike(fds) && i < |fds|
    requires forall j :: 0 <= j < i && AdmittedAt(n, fds, j) ==> !Clashes(n.disk, fds[j])
    ensures Clashes(WriteFiles(n, fds[..i]).disk, fds[i]) <==> Clashes(n.disk, fds[i])
  {
    var disk, p := WriteFiles(n, fds[..i]).disk, fds[i].path;
    SamePlace(n, fds, i, p);
    forall k | 0 < k < |p|
      ensures (p[..k] in disk && !disk[p[..k]].isDir) <==> (p[..k] in n.disk && !n.disk[p[..k]].isDir)
    {
      SamePlace(n, fds, i, p[..k]);
    }
  }

  /** At a file's own path nothing was written before it; above it only directories, where a directory or nothing stood. */
  lemma SamePlace(n: Node, fds: seq<FileData>, i: nat, q: Path)
    requires Treelike(fds) && i < |fds| && StartsWith(fds[i].path, q)
    requires forall j :: 0 <= j < i && AdmittedAt(n, fds, j) ==> !Clashes(n.disk, fds[j])
    ensures var disk := WriteFiles(n, fds[..i]).disk;
            && (q in disk && !disk[q].isDir <==> q in n.disk && !n.disk[q].isDir)
            && (q == fds[i].path ==> (q in disk <==> q in n.disk) && (q in disk ==> disk[q] == n.disk[q]))
  {
    var j := DiskAfter(n, fds, i, q);
    if j >= 0 {
      StartsWithTransitive(fds[i].path, fds[i].path, q);
      assert Below(fds[i].path, fds[j].path);
    }
  }

  /** The writes all succeed exactly when no admitted file clashes with the disk as it was before them. */
  lemma WritesSucceedExactly(n: Node, fds: seq<FileData>)
    requires Treelike(fds)
    ensures Unobstructed(n, fds) <==> forall i :: 0 <= i < |fds| && AdmittedAt(n, fds, i) ==> !Clashes(n.disk, fds[i])
  {
    if Unobstructed(n, fds) {
      NoClashUpTo(n, fds, |fds|);
    } else {
      var i :| 0 <= i < |fds| && ObstructedAt(n, fds, i);
      if forall j :: 0 <= j < i && AdmittedAt(n, fds, j) ==> !Clashes(n.disk, fds[j]) {
        ClashSettled(n, fds, i);
      }
    }
  }

  lemma {:induction false} NoClashUpTo(n: Node, fds: seq<FileData>, k: nat)
    requires Treelike(fds) && Unobstructed(n, fds) && k <= |fds|
    ensures forall j :: 0 <= j < k && AdmittedAt(n, fds, j) ==> !Clashes(n.disk, fds[j])
  {
    if k > 0 {
      NoClashUpTo(n, fds, k - 1);
      ClashSettled(n, fds, k - 1);
      assert !ObstructedAt(n, fds, k - 1);
    }
  }

  const MAX_FUTURE_SKEW_MS := 5 * 60 * 1000

  /** A peer's stamp from beyond the skew allowance is replaced by the local clock. */
  function ClampFutureStamp(raw: nat, now: nat): nat {
    if raw > now + MAX_FUTURE_SKEW_MS then now else raw
  }

  // ---- Deletes ----

  predicate Protects(l: Ledger, p: Path, deletedAt: nat) {
    l.AliveSince(p) > 0 && l.AliveSince(p) >= deletedAt
  }

  function Subtree(m: Manifest, rel: Path): set<Path> {
    {rel} + set k | k in m && StartsWith(k, rel)
  }

  /** Paths whose live action is at least as new as the delete. */
  function Protected(m: Manifest, l: Ledger, rel: Path, deletedAt: nat): set<Path> {
    set p | p in Subtree(m, rel) && Protects(l, p, deletedAt)
  }

  predicate IsDir(disk: Manifest, p: Path) {
    p in disk && disk[p].isDir
  }

  /** A directory on disk that still holds a protected path is left in place. */
  predicate Spared(disk: Manifest, keep: set<Path>, target: Path) {
    IsDir(disk, target) && exists q :: q in keep && Below(q, target)
  }

  /** `k` lies at or under an unprotected path that is not spared. */
  predicate Doomed(m: Manifest, disk: Manifest, l: Ledger, rel: Path, deletedAt: nat, k: Path) {
    var keep := Protected(m, l, rel, deletedAt);
    exists t :: t in Subtree(m, rel) - keep && !Spared(disk, keep, t) && StartsWith(k, t)
  }

  /** A directory on disk takes its whole subtree along; anything else only itself. */
  predicate Unlisted(m: Manifest, disk: Manifest, l: Ledger, rel: Path, deletedAt: nat, k: Path) {
    if Protected(m, l, rel, deletedAt) == {} then
      if IsDir(disk, rel) then StartsWith(k, rel) else k == rel
    else
      Doomed(m, disk, l, rel, deletedAt, k)
  }

  predicate Trashed(m: Manifest, disk: Manifest, l: Ledger, rel: Path, deletedAt: nat, k: Path) {
    if Protected(m, l, rel, deletedAt) == {} then StartsWith(k, rel) else Doomed(m, disk, l, rel, deletedAt, k)
  }

  /** The tombstone of a delete, with what the manifest knew about the path. */
  function DeleteTomb(m: Manifest, rel: Path, deletedAt: nat, deleter: string): Tombstone {
    if rel in m then Tombstone(rel, deletedAt, deleter, Some(Hex(m[rel].hash)), Some(m[rel].modifiedMs))
    else Tombstone(rel, deletedAt, deleter, None, None)
  }

  function Listed(m: Manifest, disk: Manifest, l: Ledger, rel: Path, deletedAt: nat): Manifest {
    map k | k in m && !Unlisted(m, disk, l, rel, deletedAt, k) :: m[k]
  }

  function Kept(m: Manifest, disk: Manifest, l: Ledger, rel: Path, deletedAt: nat): Manifest {
    map k | k in disk && !Trashed(m, disk, l, rel, deletedAt, k) :: disk[k]
  }

  function DeletePath(n: Node, rel: Path, deletedAt: nat, deleter: string): Node {
    Node(Listed(n.manifest, n.disk, n.ledger, rel, deletedAt), Kept(n.manifest, n.disk, n.ledger, rel, deletedAt),
         n.ledger.Record(DeleteTomb(n.manifest, rel, deletedAt, deleter)))
  }

  function DeletePaths(n: Node, rels: seq<Path>, deletedAt: nat, deleter: string): Node {
    if rels == [] then n
    else DeletePath(DeletePaths(n, rels[..|rels| - 1], deletedAt, deleter), rels[|rels| - 1], deletedAt, deleter)
  }

  /** Every path lies in a chain of directories. */
  ghost predicate Closed(m: Manifest) {
    forall k, i :: k in m && 0 < i < |k| ==> k[..i] in m && m[k[..i]].isDir
  }

  /** `p` has a live record at least as new as the stamp. */
  predicate LiveSince(l: Ledger, p: Path, stamp: nat) {
    p in l.alive && 0 < l.alive[p] && stamp <= l.alive[p]
  }

  /** What a delete of `rel` should leave: live paths, and the directories that contain one. */
  ghost predicate Survives(m: Manifest, l: Ledger, rel: Path, deletedAt: nat, k: Path)
    requires k in m
  {
    || !StartsWith(k, rel)
    || LiveSince(l, k, deletedAt)
    || (m[k].isDir && exists q :: q in m && Below(q, k) && LiveSince(l, q, deletedAt))
  }

  lemma BelowIsUnderDir(m: Manifest, q: Path, t: Path)
    requires Closed(m) && q in m && Below(q, t) && t != []
    ensures t in m && m[t].isDir
  {
    assert t == q[..|t|];
  }

  lemma GuardExact(l: Ledger, p: Path, stamp: nat)
    ensures LiveSince(l, p, stamp) <==> Protects(l, p, stamp)
  {
  }

  lemma UnlistedExact(m: Manifest, l: Ledger, rel: Path, deletedAt: nat, k: Path)
    requires Closed(m) && k in m && rel != []
    ensures Unlisted(m, m, l, rel, deletedAt, k) <==> !Survives(m, l, rel, deletedAt, k)
    ensures Trashed(m, m, l, rel, deletedAt, k) <==> !Survives(m, l, rel, deletedAt, k)
  {
    var keep := Protected(m, l, rel, deletedAt);
    if StartsWith(k, rel) {
      if k != rel {
        BelowIsUnderDir(m, k, rel);
      }
      if Survives(m, l, rel, deletedAt, k) {
        var q :| q in m && StartsWith(q, k) && LiveSince(l, q, deletedAt);
        StartsWithTransitive(q, k, rel);
        GuardExact(l, q, deletedAt);
        assert q in keep;
        forall t | t in Subtree(m, rel) - keep && StartsWith(k, t)
          ensures Spared(m, keep, t)
        {
          StartsWithTransitive(q, k, t);
          BelowIsUnderDir(m, q, t);
        }
      } else {
        forall q
          ensures LiveSince(l, q, deletedAt) <==> Protects(l, q, deletedAt)
        {
          GuardExact(l, q, deletedAt);
        }
        assert k in Subtree(m, rel) - keep && !Spared(m, keep, k);
      }
    } else {
      forall t | t in Subtree(m, rel)
        ensures !StartsWith(k, t)
      {
        if StartsWith(k, t) {
          StartsWithTransitive(k, t, rel);
          assert false;
        }
      }
    }
  }

  /**
   The live-action guard. When manifest and disk agree, a delete of `rel` leaves at or under `rel`
   exactly the paths whose live action is at least as new, plus the directories that contain one;
   both views still agree afterwards and still form a tree.
   */
  lemma DeleteGuard(n: Node, rel: Path, deletedAt: nat, deleter: string)
    requires n.manifest == n.disk && Closed(n.manifest) && rel != []
    ensures var after := DeletePath(n, rel, deletedAt, deleter);
            && after.manifest == after.disk && Closed(after.manifest)
            && after.manifest.Keys <= n.manifest.Keys
            && forall k :: k in n.manifest ==>
                 (k in after.manifest <==> Survives(n.manifest, n.ledger, rel, deletedAt, k))
                 && (k in after.manifest ==> after.manifest[k] == n.manifest[k])
  {
    var m, after := n.manifest, DeletePath(n, rel, deletedAt, deleter);
    forall k | k in m
      ensures k in after.manifest <==> Survives(m, n.ledger, rel, deletedAt, k)
      ensures k in after.disk <==> k in after.manifest
    {
      UnlistedExact(m, n.ledger, rel, deletedAt, k);
    }
    forall k, i | k in after.manifest && 0 < i < |k|
      ensures k[..i] in after.manifest && after.manifest[k[..i]].isDir
    {
      SurvivorsAreClosed(m, n.ledger, rel, deletedAt, k, k[..i]);
    }
  }

  lemma SurvivorsAreClosed(m: Manifest, l: Ledger, rel: Path, deletedAt: nat, k: Path, a: Path)
    requires Closed(m) && k in m && Survives(m, l, rel, deletedAt, k) && a != [] && Below(k, a)
    ensures a in m && m[a].isDir && Survives(m, l, rel, deletedAt, a)
  {
    BelowIsUnderDir(m, k, a);
    if StartsWith(a, rel) {
      StartsWithTransitive(k, a, rel);
      var q :| q in m && StartsWith(q, k) && LiveSince(l, q, deletedAt);
      StartsWithTransitive(q, k, a);
    }
  }

  /** A delete leaves alone what does not lie at or below its path. */
  lemma DeleteMisses(n: Node, rel: Path, deletedAt: nat, deleter: string, k: Path)
    requires !StartsWith(k, rel)
    ensures var after := DeletePath(n, rel, deletedAt, deleter);
            && (k in after.manifest <==> k in n.manifest) && (k in after.manifest ==> after.manifest[k] == n.manifest[k])
            && (k in after.disk <==> k in n.disk) && (k in after.disk ==> after.disk[k] == n.disk[k])
            && after.ledger.TombAt(k) == n.ledger.TombAt(k) && after.ledger.alive == n.ledger.alive
  {
    forall t | t in Subtree(n.manifest, rel)
      ensures !StartsWith(k, t)
    {
      if StartsWith(k, t) {
        StartsWithTransitive(k, t, rel);
        assert false;
      }
    }
  }

  // ---- What a tombstone remembers ----

  /** The tombstone knows who deleted which version: the one listed when it was deleted, or none. */
  ghost predicate Remembers(t: Tombstone, m: Manifest, rel: Path, deletedAt: nat, deleter: string) {
    && t.path == rel && t.deletedAt == deletedAt && t.deleter == deleter
    && t.prevHash == (if rel in m then Some(Hex(m[rel].hash)) else None)
    && t.prevMtime == (if rel in m then Some(m[rel].modifiedMs) else None)
  }

  /** The ledger holds no tombstone of `p` as new as `at`, and no live action. */
  predicate NewsAt(l: Ledger, p: Path, at: nat) {
    (p in l.tombs ==> l.tombs[p].deletedAt < at) && (p in l.alive ==> l.alive[p] < at)
  }

  /** A delete that is news leaves a tombstone that remembers the listed version; one that is not changes no record. */
  lemma DeleteRemembers(n: Node, rel: Path, deletedAt: nat, deleter: string)
    ensures var after := DeletePath(n, rel, deletedAt, deleter);
            if NewsAt(n.ledger, rel, deletedAt)
            then rel in after.ledger.tombs && Remembers(after.ledger.tombs[rel], n.manifest, rel, deletedAt, deleter)
            else after.ledger == n.ledger
  {
  }

  /** Several deletes at one stamp: each path not below an earlier one is remembered as it was listed before them all. */
  lemma {:induction false} DeletesRemember(n: Node, rels: seq<Path>, deletedAt: nat, deleter: string, i: nat)
    requires i < |rels| && NewsAt(n.ledger, rels[i], deletedAt)
    requires forall j :: 0 <= j < i ==> !StartsWith(rels[i], rels[j])
    ensures var tombs := DeletePaths(n, rels, deletedAt, deleter).ledger.tombs;
            rels[i] in tombs && Remembers(tombs[rels[i]], n.manifest, rels[i], deletedAt, deleter)
  {
    var init, last := rels[..|rels| - 1], rels[|rels| - 1];
    var before := DeletePaths(n, init, deletedAt, deleter);
    if i < |init| {
      DeletesRemember(n, init, deletedAt, deleter, i);
    } else {
      DeletesMiss(n, init, deletedAt, deleter, last);
      DeleteRemembers(before, last, deletedAt, deleter);
    }
  }

  lemma {:induction false} DeletesMiss(n: Node, rels: seq<Path>, deletedAt: nat, deleter: string, k: Path)
    requires forall j :: 0 <= j < |rels| ==> !StartsWith(k, rels[j])
    ensures var after := DeletePaths(n, rels, deletedAt, deleter);
            && (k in after.manifest <==> k in n.manifest) && (k in after.manifest ==> after.manifest[k] == n.manifest[k])
            && after.ledger.TombAt(k) == n.ledger.TombAt(k) && after.ledger.alive == n.ledger.alive
  {
    if rels != [] {
      var init, last := rels[..|rels| - 1], rels[|rels| - 1];
      DeletesMiss(n, init, deletedAt, deleter, k);
      DeleteMisses(DeletePaths(n, init, deletedAt, deleter), last, deletedAt, deleter, k);
    }
  }

  // ---- Renames ----

  ghost predicate NothingUnder(m: Manifest, dir: Path) {
    forall k :: k in m ==> !StartsWith(k, dir)
  }

  /** `k` moved from under `from` to under `to`. */
  function Rebase(k: Path, from: Path, to: Path): Path
    requires StartsWith(k, from)
  {
    to + k[|from|..]
  }

  /** The entry at its new path, with the mtime `disk` shows there. */
  function Moved(meta: Meta, at: Path, disk: Manifest): Meta {
    var mtime := if at in disk then disk[at].modifiedMs else meta.modifiedMs;
    meta.(relPath := at, modifiedMs := mtime)
  }

  /** When the source was already gone, only directories take their mtime from the disk. */
  function DirsOf(m: Manifest, from: Path, to: Path, disk: Manifest): Manifest {
    map k | k in disk && StartsWith(k, to) && Rebase(k, to, from) in m && m[Rebase(k, to, from)].isDir :: disk[k]
  }

  function MovedKeys(olds: set<Path>, from: Path, to: Path): set<Path>
    requires forall k :: k in olds ==> StartsWith(k, from)
  {
    set k | k in olds :: Rebase(k, from, to)
  }

  lemma RebaseBack(k: Path, from: Path, to: Path)
    requires StartsWith(k, from)
    ensures StartsWith(Rebase(k, from, to), to) && Rebase(Rebase(k, from, to), to, from) == k
  {
    assert Rebase(k, from, to)[|to|..] == k[|from|..];
  }

  /** `olds` moved over the rest of the manifest. */
  function MoveSome(m: Manifest, olds: set<Path>, from: Path, to: Path, disk: Manifest): Manifest
    requires forall k :: k in olds ==> StartsWith(k, from) && k in m
  {
    (m - olds) +
    map j | j in MovedKeys(olds, from, to) ::
      (RebaseAll(olds, from, to); Moved(m[Rebase(j, to, from)], j, disk))
  }

  lemma RebaseAll(olds: set<Path>, from: Path, to: Path)
    requires forall k :: k in olds ==> StartsWith(k, from)
    ensures forall j :: j in MovedKeys(olds, from, to) ==> StartsWith(j, to) && Rebase(j, to, from) in olds
  {
    forall j | j in MovedKeys(olds, from, to)
      ensures StartsWith(j, to) && Rebase(j, to, from) in olds
    {
      var k :| k in olds && j == Rebase(k, from, to);
      RebaseBack(k, from, to);
    }
  }

  function Under(m: Manifest, from: Path): set<Path> {
    set k | k in m && StartsWith(k, from)
  }

  function Remap(m: Manifest, from: Path, to: Path, disk: Manifest): Manifest {
    MoveSome(m, Under(m, from), from, to, disk)
  }

  /** Which manifest keys a rename leaves, and what stands under the target. */
  lemma RemapAt(m: Manifest, from: Path, to: Path, disk: Manifest)
    requires !Comparable(from, to)
    ensures forall k :: k in m && !StartsWith(k, from) && !StartsWith(k, to) ==>
              k in Remap(m, from, to, disk) && Remap(m, from, to, disk)[k] == m[k]
    ensures forall k :: k in m && StartsWith(k, from) ==>
              && Rebase(k, from, to) in Remap(m, from, to, disk)
              && Remap(m, from, to, disk)[Rebase(k, from, to)] == Moved(m[k], Rebase(k, from, to), disk)
    ensures forall j :: j in Remap(m, from, to, disk) ==>
              !StartsWith(j, from) && (j in m || (StartsWith(j, to) && Rebase(j, to, from) in m))
  {
    var r := Remap(m, from, to, disk);
    RebaseAll(Under(m, from), from, to);
    forall k | k in m && StartsWith(k, from)
      ensures Rebase(k, from, to) in r && r[Rebase(k, from, to)] == Moved(m[k], Rebase(k, from, to), disk)
    {
      RebaseBack(k, from, to);
      assert Rebase(k, from, to) in MovedKeys(Under(m, from), from, to);
    }
    forall j | j in r
      ensures !StartsWith(j, from) && (j in m || (StartsWith(j, to) && Rebase(j, to, from) in m))
    {
      if StartsWith(j, to) {
        NotBoth(j, from, to);
      }
    }
  }

  lemma NotBoth(j: Path, from: Path, to: Path)
    requires !Comparable(from, to) && StartsWith(j, to)
    ensures !StartsWith(j, from)
  {
    if StartsWith(j, from) {
      PrefixesComparable(from, to, j);
      assert false;
    }
  }

  /**
   A rename into an empty place moves the keys one-to-one: nothing else changes, sizes, hashes and
   the count are kept, and every moved entry carries its new path.
   */
  lemma RenameIsBijective(m: Manifest, from: Path, to: Path, disk: Manifest)
    requires !Comparable(from, to) && NothingUnder(m, to)
    requires forall k :: k in m ==> m[k].relPath == k
    ensures var r := Remap(m, from, to, disk);
            && |r| == |m| && NothingUnder(r, from)
            && (forall k :: k in r ==> r[k].relPath == k)
            && (forall k :: !StartsWith(k, from) && !StartsWith(k, to) ==> (k in r <==> k in m) && (k in m ==> r[k] == m[k]))
            && (forall k :: StartsWith(k, from) ==>
                  (k in m <==> Rebase(k, from, to) in r)
                  && (k in m ==> r[Rebase(k, from, to)].size == m[k].size && r[Rebase(k, from, to)].hash == m[k].hash))
  {
    var r := Remap(m, from, to, disk);
    RemapAt(m, from, to, disk);
    forall k: Path | StartsWith(k, from)
      ensures Rebase(k, from, to) in r ==> k in m
    {
      RebaseBack(k, from, to);
    }
    forall k | k in r
      ensures r[k].relPath == k
    {
      if k !in m {
        BackAgain(k, from, to);
      }
    }
    RemapCount(m, from, to, disk);
  }

  lemma BackAgain(j: Path, from: Path, to: Path)
    requires StartsWith(j, to)
    ensures StartsWith(Rebase(j, to, from), from) && Rebase(Rebase(j, to, from), from, to) == j
  {
    RebaseBack(j, to, from);
  }

  lemma RemapCount(m: Manifest, from: Path, to: Path, disk: Manifest)
    requires !Comparable(from, to) && NothingUnder(m, to)
    ensures |Remap(m, from, to, disk)| == |m|
  {
    var olds := Under(m, from);
    RemapKeys(m, from, to, disk);
    MovedCount(olds, from, to);
    RebaseAll(olds, from, to);
    SwapCount(m.Keys, olds, MovedKeys(olds, from, to));
    KeyCount(m);
    KeyCount(Remap(m, from, to, disk));
  }

  lemma RemapKeys(m: Manifest, from: Path, to: Path, disk: Manifest)
    ensures Remap(m, from, to, disk).Keys == (m.Keys - Under(m, from)) + MovedKeys(Under(m, from), from, to)
  {
  }

  lemma SwapCount<T>(all: set<T>, outgoing: set<T>, incoming: set<T>)
    requires outgoing <= all && all !! incoming && |incoming| == |outgoing|
    ensures |(all - outgoing) + incoming| == |all|
  {
    assert all == (all - outgoing) + outgoing;
  }

  lemma KeyCount<K, V>(m: map<K, V>)
    ensures |m| == |m.Keys|
  {
  }

  lemma {:induction false} MovedCount(olds: set<Path>, from: Path, to: Path)
    requires forall k :: k in olds ==> StartsWith(k, from)
    ensures |MovedKeys(olds, from, to)| == |olds|
  {
    if olds != {} {
      var k :| k in olds;
      var rest := olds - {k};
      MovedCount(rest, from, to);
      assert MovedKeys(olds, from, to) == MovedKeys(rest, from, to) + {Rebase(k, from, to)};
      RebaseAll(rest, from, to);
      RebaseBack(k, from, to);
      assert Rebase(k, from, to) !in MovedKeys(rest, from, to);
    }
  }

  /** Renaming there and back restores every key, size and hash. */
  lemma RenameRoundTrip(m: Manifest, from: Path, to: Path, disk: Manifest, diskBack: Manifest)
    requires !Comparable(from, to) && NothingUnder(m, to)
    ensures var back := Remap(Remap(m, from, to, disk), to, from, diskBack);
            && back.Keys == m.Keys
            && forall k :: k in m ==> back[k].size == m[k].size && back[k].hash == m[k].hash && back[k].isDir == m[k].isDir
  {
    var r := Remap(m, from, to, disk);
    var back := Remap(r, to, from, diskBack);
    RemapAt(m, from, to, disk);
    RemapAt(r, to, from, diskBack);
    forall k | k in m
      ensures k in back && back[k].size == m[k].size && back[k].hash == m[k].hash && back[k].isDir == m[k].isDir
    {
      if StartsWith(k, from) {
        RebaseBack(k, from, to);
      }
    }
    forall k | k in back
      ensures k in m
    {
      if k !in r {
        BackAgain(k, to, from);
      } else {
        assert !StartsWith(k, to);
      }
    }
  }

  /** The tree on disk after a successful `rename(2)`. */
  function MoveTree(disk: Manifest, from: Path, to: Path): Manifest {
    Remap(disk, from, to, map[])
  }

  /**
   A live rename: vetoed at the target, it deletes the source instead; a repeat whose source is gone
   only brings the manifest in line; otherwise disk and manifest move. `moved` tells whether the
   operating system carried out the move.
   */
  function RenamePath(n: Node, from: Path, to: Path, at: nat, deleter: string, moved: bool): Node {
    if VetoFor(n.ledger, to, Some(at), 0).Some? then DeletePath(n, from, at, deleter)
    else
      var l := AdmitRecord(n.ledger, to, Some(at), 0);
      if from !in n.disk then
        Node(if to in n.disk then Remap(n.manifest, from, to, DirsOf(n.manifest, from, to, n.disk)) else n.manifest, n.disk, l)
      else
        var disk := if moved then MoveTree(n.disk, from, to) else n.disk;
        Node(if moved || to in disk then Remap(n.manifest, from, to, disk) else n.manifest, disk, l)
  }

  /** Whatever stood under `from` stands under `to`, with its size, content and kind and its new path. */
  ghost predicate Followed(was: Manifest, now: Manifest, from: Path, to: Path) {
    && NothingUnder(now, from)
    && (forall k :: k in was && StartsWith(k, from) ==>
          var j := Rebase(k, from, to);
          j in now && now[j].size == was[k].size && now[j].hash == was[k].hash && now[j].isDir == was[k].isDir && now[j].relPath == j)
    && (forall k :: !StartsWith(k, from) && !StartsWith(k, to) ==> (k in now <==> k in was) && (k in now ==> now[k] == was[k]))
    && (forall k :: k in now && StartsWith(k, to) ==> Rebase(k, to, from) in was || (k in was && now[k] == was[k]))
  }

  lemma RemapFollows(m: Manifest, from: Path, to: Path, disk: Manifest)
    requires !Comparable(from, to)
    ensures Followed(m, Remap(m, from, to, disk), from, to)
  {
    var r := Remap(m, from, to, disk);
    RemapAt(m, from, to, disk);
    RebaseAll(Under(m, from), from, to);
    forall k | k in r && StartsWith(k, to)
      ensures Rebase(k, to, from) in m || (k in m && r[k] == m[k])
    {
      if k !in MovedKeys(Under(m, from), from, to) {
        assert k in m - Under(m, from);
      }
    }
  }

  /**
   An admitted rename that the operating system carried out: on disk and in the listing everything under the
   source stands under the target, and nothing else changes; if the two agreed before, they agree again.
   */
  lemma RenameMoves(n: Node, from: Path, to: Path, at: nat, deleter: string)
    requires !Comparable(from, to) && VetoFor(n.ledger, to, Some(at), 0).None? && from in n.disk
    ensures var after := RenamePath(n, from, to, at, deleter, true);
            && Followed(n.manifest, after.manifest, from, to) && Followed(n.disk, after.disk, from, to)
            && (n.manifest.Keys == n.disk.Keys ==> after.manifest.Keys == after.disk.Keys)
            && (n.manifest == n.disk ==> after.manifest == after.disk)
            && after.ledger.AliveSince(to) >= at
  {
    var after := RenamePath(n, from, to, at, deleter, true);
    RemapFollows(n.manifest, from, to, after.disk);
    RemapFollows(n.disk, from, to, map[]);
    if n.manifest.Keys == n.disk.Keys {
      RemapKeys(n.manifest, from, to, after.disk);
      RemapKeys(n.disk, from, to, map[]);
      assert Under(n.manifest, from) == Under(n.disk, from);
    }
    if n.manifest == n.disk {
      MovedAlike(n.disk, from, to);
    }
  }

  /** A listing equal to the disk, remapped with what the moved disk shows, equals the moved disk. */
  lemma MovedAlike(m: Manifest, from: Path, to: Path)
    requires !Comparable(from, to)
    ensures Remap(m, from, to, MoveTree(m, from, to)) == MoveTree(m, from, to)
  {
    var moved := MoveTree(m, from, to);
    RemapKeys(m, from, to, map[]);
    RemapKeys(m, from, to, moved);
    forall j | j in moved
      ensures Remap(m, from, to, moved)[j] == moved[j]
    {
      MovedAlikeAt(m, from, to, j);
    }
  }

  lemma MovedAlikeAt(m: Manifest, from: Path, to: Path, j: Path)
    requires !Comparable(from, to) && j in MoveTree(m, from, to)
    ensures var moved := MoveTree(m, from, to); j in Remap(m, from, to, moved) && Remap(m, from, to, moved)[j] == moved[j]
  {
    RebaseAll(Under(m, from), from, to);
    if j in MovedKeys(Under(m, from), from, to) {
      assert MoveTree(m, from, to)[j] == Moved(m[Rebase(j, to, from)], j, map[]);
    }
  }

  /**
   An admitted rename whose source is gone already, or that failed while the target exists: the disk stays,
   and the listing follows if the target is there.
   */
  lemma RenameCatchesUp(n: Node, from: Path, to: Path, at: nat, deleter: string, moved: bool)
    requires !Comparable(from, to) && VetoFor(n.ledger, to, Some(at), 0).None? && (from !in n.disk || !moved)
    ensures var after := RenamePath(n, from, to, at, deleter, moved);
            && after.disk == n.disk && after.ledger.AliveSince(to) >= at
            && (if to in n.disk then Followed(n.manifest, after.manifest, from, to) else after.manifest == n.manifest)
            && (to in n.disk ==> forall k :: k in n.manifest && StartsWith(k, from) ==>
                  var j := Rebase(k, from, to);
                  j in after.manifest &&
                  after.manifest[j].modifiedMs ==
                  if j in n.disk && (from in n.disk || n.manifest[k].isDir) then n.disk[j].modifiedMs else n.manifest[k].modifiedMs)
  {
    var after := RenamePath(n, from, to, at, deleter, moved);
    var seen := if from in n.disk then n.disk else DirsOf(n.manifest, from, to, n.disk);
    RemapFollows(n.manifest, from, to, seen);
    RemapAt(n.manifest, from, to, seen);
    if to in n.disk {
      forall k | k in n.manifest && StartsWith(k, from)
        ensures after.manifest[Rebase(k, from, to)].modifiedMs ==
                if Rebase(k, from, to) in n.disk && (from in n.disk || n.manifest[k].isDir) then n.disk[Rebase(k, from, to)].modifiedMs
                else n.manifest[k].modifiedMs
      {
        RebaseBack(k, from, to);
      }
    }
  }

  /** A vetoed rename deletes its source under the live-action guard and leaves everything else alone, the target included. */
  lemma RenameVetoed(n: Node, from: Path, to: Path, at: nat, deleter: string, moved: bool)
    requires VetoFor(n.ledger, to, Some(at), 0).Some? && n.manifest == n.disk && Closed(n.manifest) && from != []
    ensures var after := RenamePath(n, from, to, at, deleter, moved);
            && after.manifest == after.disk && after.manifest.Keys <= n.manifest.Keys
            && (forall k :: k in n.manifest ==>
                  (k in after.manifest <==> Survives(n.manifest, n.ledger, from, at, k))
                  && (k in after.manifest ==> after.manifest[k] == n.manifest[k]))
            && (NewsAt(n.ledger, from, at) ==>
                  from in after.ledger.tombs && Remembers(after.ledger.tombs[from], n.manifest, from, at, deleter))
  {
    DeleteGuard(n, from, at, deleter);
    DeleteRemembers(n, from, at, deleter);
  }

  /** Repeating a rename that went through changes no manifest entry, even when the repeat is vetoed. */
  lemma RenameRepeats(n: Node, from: Path, to: Path, at: nat, deleter: string, moved: bool)
    requires !Comparable(from, to) && VetoFor(n.ledger, to, Some(at), 0).None?
    requires from in n.disk
    ensures var once := RenamePath(n, from, to, at, deleter, true);
            RenamePath(once, from, to, at, deleter, moved).manifest == once.manifest
  {
    var once := RenamePath(n, from, to, at, deleter, true);
    RenameLeavesNothing(n, from, to, at, deleter);
    if VetoFor(once.ledger, to, Some(at), 0).Some? {
      DeleteNothing(once, from, at, deleter);
    } else {
      RemapNothing(once.manifest, from, to, DirsOf(once.manifest, from, to, once.disk));
    }
  }

  /** A rename that went through leaves nothing under its source. */
  lemma RenameLeavesNothing(n: Node, from: Path, to: Path, at: nat, deleter: string)
    requires !Comparable(from, to) && VetoFor(n.ledger, to, Some(at), 0).None? && from in n.disk
    ensures var once := RenamePath(n, from, to, at, deleter, true);
            NothingUnder(once.manifest, from) && from !in once.disk
  {
    var once := RenamePath(n, from, to, at, deleter, true);
    RemapAt(n.manifest, from, to, once.disk);
    RemapAt(n.disk, from, to, map[]);
    assert StartsWith(from, from);
  }

  lemma DeleteNothing(n: Node, rel: Path, deletedAt: nat, deleter: string)
    requires NothingUnder(n.manifest, rel)
    ensures DeletePath(n, rel, deletedAt, deleter).manifest == n.manifest
  {
    forall k | k in n.manifest
      ensures !Unlisted(n.manifest, n.disk, n.ledger, rel, deletedAt, k)
    {
      assert k != rel;
      assert Subtree(n.manifest, rel) == {rel};
    }
  }

  lemma RemapNothing(m: Manifest, from: Path, to: Path, disk: Manifest)
    requires NothingUnder(m, from)
    ensures Remap(m, from, to, disk) == m
  {
    assert Under(m, from) == {};
  }
}
