/** The engine as the program runs it: loops over the manifest, in whatever order its map yields. */
module EngineStore {
  import opened Paths
  import opened Wrappers
  import opened Ledgers
  import opened Engine

  class SyncEngine {
    var manifest: Manifest
    var disk: Manifest
    var ledger: Ledger

    function State(): Node
      reads this
    {
      Node(manifest, disk, ledger)
    }

    constructor (manifest: Manifest, disk: Manifest, ledger: Ledger)
      ensures State() == Node(manifest, disk, ledger)
    {
      this.manifest, this.disk, this.ledger := manifest, disk, ledger;
    }

    /** Move `target` and everything below it out of the root. */
    method MoveToTrash(target: Path)
      modifies this`disk
      ensures disk == map k | k in old(disk) && !StartsWith(k, target) :: old(disk)[k]
    {
      disk := map k | k in disk && !StartsWith(k, target) :: disk[k];
    }

    /**
     Apply a bundle file by file: a vetoed file is skipped, an admitted one updates the live record and
     is written. A file and a directory in each other's way end it with an error, the record already made.
     */
    method ApplyBundle(files: seq<FileData>) returns (written: nat, ok: bool)
      modifies this
      ensures ok <==> Unobstructed(old(State()), files)
      ensures ok ==> State() == WriteFiles(old(State()), files) && written == Written(old(State()), files, |files|)
      ensures !ok ==> exists i :: 0 <= i < |files| && StoppedAt(old(State()), files, i, State()) && written == Written(old(State()), files, i)
    {
      ghost var was := State();
      written := 0;
      for i := 0 to |files|
        invariant State() == WriteFiles(was, files[..i]) && written == Written(was, files, i)
        invariant UnobstructedUpTo(was, files, i)
      {
        WriteOneMore(was, files, i);
        ghost var admitted, blocked := AdmittedAt(was, files, i), ObstructedAt(was, files, i);
        var result := ApplyFile(files[i]);
        assert (admitted <==> !result.Skipped?) && (blocked <==> result.Failed?);
        if result.Failed? {
          assert StoppedAt(was, files, i, State());
          return written, false;
        }
        StillClear(was, files, i);
        assert Written(was, files, i + 1) == Written(was, files, i) + if admitted then 1 else 0;
        written := if result.Applied? then written + 1 else written;
      }
      assert files[..|files|] == files;
      ok := true;
    }

    /** One file: skipped, written, or stopped by what stands in its way. */
    method ApplyFile(fd: FileData) returns (r: FileResult)
      modifies this
      ensures r.Skipped? <==> !Admits(old(State()), fd)
      ensures r.Failed? <==> Obstructs(old(State()), fd)
      ensures !r.Failed? ==> State() == WriteFile(old(State()), fd)
      ensures r.Failed? ==>
                State() == old(State()).(ledger := AdmitRecord(old(ledger), fd.path, fd.actionMs, fd.meta.modifiedMs))
    {
      if VetoFor(ledger, fd.path, fd.actionMs, fd.meta.modifiedMs).Some? {
        return Skipped;
      }
      ledger := AdmitRecord(ledger, fd.path, fd.actionMs, fd.meta.modifiedMs);
      if Clashes(disk, fd) {
        return Failed;
      }
      disk := disk[fd.path := fd.meta];
      manifest := manifest[fd.path := fd.meta];
      r := Applied;
    }

    /** Lift the tombstones of paths that were legitimately recreated. */
    method ClearTombstones(paths: seq<Path>)
      modifies this`ledger
      ensures ledger == Lifted(old(ledger), paths)
    {
      for i := 0 to |paths|
        invariant ledger == Lifted(old(ledger), paths[..i])
      {
        assert paths[..i + 1][..i] == paths[..i];
        ledger := ledger.Remove(paths[i]);
      }
      assert paths[..|paths|] == paths;
    }

    /** Delete each path and what it is newer than; the tombstones are recorded together at the end. */
    method ApplyDeletes(paths: seq<Path>, deletedAt: nat, deleter: string) returns (count: nat)
      modifies this
      ensures State() == DeletePaths(old(State()), paths, deletedAt, deleter)
      ensures count == |paths|
      ensures forall i :: 0 <= i < |paths| && NewsAt(old(ledger), paths[i], deletedAt) && NoneAbove(paths, i) ==>
                paths[i] in ledger.tombs && Remembers(ledger.tombs[paths[i]], old(manifest), paths[i], deletedAt, deleter)
    {
      var tombstones: seq<Tombstone> := [];
      count := 0;
      ghost var was := State();
      for i := 0 to |paths|
        invariant ledger == was.ledger && count == i
        invariant manifest == DeletePaths(was, paths[..i], deletedAt, deleter).manifest
        invariant disk == DeletePaths(was, paths[..i], deletedAt, deleter).disk
        invariant RecordAll(was.ledger, tombstones) == DeletePaths(was, paths[..i], deletedAt, deleter).ledger
      {
        assert paths[..i + 1][..i] == paths[..i];
        var t := DeleteTomb(manifest, paths[i], deletedAt, deleter);
        RecordAllAlive(was.ledger, tombstones);
        SameGuard(manifest, disk, ledger, RecordAll(was.ledger, tombstones), paths[i], deletedAt);
        RemoveSubtree(paths[i], deletedAt);
        RecordAllSnoc(was.ledger, tombstones, t);
        tombstones := tombstones + [t];
        count := count + 1;
      }
      assert paths[..|paths|] == paths;
      for j := 0 to |tombstones|
        invariant ledger == RecordAll(was.ledger, tombstones[..j])
        invariant manifest == DeletePaths(was, paths, deletedAt, deleter).manifest
        invariant disk == DeletePaths(was, paths, deletedAt, deleter).disk
      {
        assert tombstones[..j + 1][..j] == tombstones[..j];
        ledger := ledger.Record(tombstones[j]);
      }
      assert tombstones[..|tombstones|] == tombstones;
      AllRemembered(was, paths, deletedAt, deleter);
    }

    /** A delete of a single path. */
    method ApplyDelete(path: Path, deletedAt: nat, deleter: string)
      modifies this
      ensures State() == DeletePath(old(State()), path, deletedAt, deleter)
    {
      ghost var was := State();
      assert [path][..0] == [];
      assert DeletePaths(was, [path], deletedAt, deleter) == DeletePath(was, path, deletedAt, deleter);
      var _ := ApplyDeletes([path], deletedAt, deleter);
    }

    /** The removal for one path: everything, or only what no newer live action protects. */
    method RemoveSubtree(rel: Path, deletedAt: nat)
      modifies this`manifest, this`disk
      ensures manifest == Listed(old(manifest), old(disk), ledger, rel, deletedAt)
      ensures disk == Kept(old(manifest), old(disk), ledger, rel, deletedAt)
    {
      var subtree := Subtree(manifest, rel);
      var keep := set p | p in subtree && Protects(ledger, p, deletedAt);
      assert keep == Protected(manifest, ledger, rel, deletedAt);
      if keep == {} {
        if IsDir(disk, rel) {
          MoveToTrash(rel);
          manifest := manifest - subtree;
        } else {
          MoveToTrash(rel);
          manifest := manifest - {rel};
        }
      } else {
        RemoveUnprotected(subtree - keep, keep);
      }
    }

    /** Targets are taken shallowest first; one below an already removed target is skipped. */
    method RemoveUnprotected(targets: set<Path>, keep: set<Path>)
      modifies this`manifest, this`disk
      ensures manifest == Unswept(old(manifest), old(disk), targets, keep)
      ensures disk == Unswept(old(disk), old(disk), targets, keep)
    {
      var todo := targets;
      var gone: set<Path> := {};
      ghost var was := disk;
      while todo != {}
        invariant todo <= targets && Visited(was, targets - todo, keep, gone)
        invariant manifest == Without(old(manifest), gone) && disk == Without(was, gone)
      {
        var target := Shallowest(todo);
        assert targets - (todo - {target}) == (targets - todo) + {target};
        VisitMore(was, targets - todo, keep, gone, target);
        todo := todo - {target};
        if CoveredBy(gone, target) {
          continue;
        }
        assert IsDir(disk, target) == IsDir(was, target);
        if IsDir(disk, target) && exists q :: q in keep && Below(q, target) {
          continue;
        }
        WithoutMore(old(manifest), gone, target);
        WithoutMore(was, gone, target);
        MoveToTrash(target);
        manifest := map k | k in manifest && !StartsWith(k, target) :: manifest[k];
        gone := gone + {target};
      }
      assert targets - {} == targets;
      SweptIsCovered(was, targets, keep, gone);
    }

    /** See `RenamePath`. Overlapping paths are refused by the operating system and not described here. */
    method ApplyRenameAt(from: Path, to: Path, actionMs: nat, deleter: string, moved: bool) returns (ok: bool)
      modifies this
      ensures ledger == RenamePath(old(State()), from, to, actionMs, deleter, moved).ledger
      ensures disk == RenamePath(old(State()), from, to, actionMs, deleter, moved).disk
      ensures !Comparable(from, to) ==> manifest == RenamePath(old(State()), from, to, actionMs, deleter, moved).manifest
      ensures !ok ==> !moved && from in old(disk) && to !in old(disk) && manifest == old(manifest)
    {
      ok := true;
      if VetoFor(ledger, to, Some(actionMs), 0).Some? {
        ApplyDelete(from, actionMs, deleter);
        return;
      }
      ledger := AdmitRecord(ledger, to, Some(actionMs), 0);
      if from !in disk {
        if to in disk {
          RemapManifest(from, to, DirsOf(manifest, from, to, disk));
        }
        return;
      }
      if moved {
        disk := MoveTree(disk, from, to);
      } else if to !in disk {
        return false;
      }
      RemapManifest(from, to, disk);
    }

    /** Take each key under `from` out and put it back under `to`, one pair at a time. */
    method RemapManifest(from: Path, to: Path, seen: Manifest)
      modifies this`manifest
      ensures !Comparable(from, to) ==> manifest == Remap(old(manifest), from, to, seen)
    {
      var todo := Under(manifest, from);
      ghost var done: set<Path> := {};
      ghost var was := manifest;
      while todo != {}
        invariant todo <= Under(was, from) && done == Under(was, from) - todo
        invariant !Comparable(from, to) ==> manifest == MoveSome(was, done, from, to, seen)
      {
        var k :| k in todo;
        if !Comparable(from, to) {
          MoveOneMore(was, done, k, from, to, seen);
        }
        if k in manifest {
          var meta := Moved(manifest[k], Rebase(k, from, to), seen);
          manifest := (manifest - {k})[Rebase(k, from, to) := meta];
        }
        todo, done := todo - {k}, done + {k};
      }
      assert done == Under(was, from);
    }
  }

  lemma AllRemembered(n: Node, paths: seq<Path>, deletedAt: nat, deleter: string)
    ensures var tombs := DeletePaths(n, paths, deletedAt, deleter).ledger.tombs;
            forall i :: 0 <= i < |paths| && NewsAt(n.ledger, paths[i], deletedAt) && NoneAbove(paths, i) ==>
              paths[i] in tombs && Remembers(tombs[paths[i]], n.manifest, paths[i], deletedAt, deleter)
  {
    forall i | 0 <= i < |paths| && NewsAt(n.ledger, paths[i], deletedAt) && NoneAbove(paths, i)
      ensures var tombs := DeletePaths(n, paths, deletedAt, deleter).ledger.tombs;
              paths[i] in tombs && Remembers(tombs[paths[i]], n.manifest, paths[i], deletedAt, deleter)
    {
      DeletesRemember(n, paths, deletedAt, deleter, i);
    }
  }

  /** No earlier path is at or above path `i`. */
  ghost predicate NoneAbove(paths: seq<Path>, i: nat)
    requires i < |paths|
  {
    forall j :: 0 <= j < i ==> !StartsWith(paths[i], paths[j])
  }

  ghost predicate UnobstructedUpTo(n: Node, fds: seq<FileData>, i: nat)
    requires i <= |fds|
  {
    forall k :: 0 <= k < i ==> !ObstructedAt(n, fds, k)
  }

  lemma StillClear(n: Node, fds: seq<FileData>, i: nat)
    requires i < |fds| && UnobstructedUpTo(n, fds, i) && !ObstructedAt(n, fds, i)
    ensures UnobstructedUpTo(n, fds, i + 1)
  {
  }

  datatype FileResult = Applied | Skipped | Failed

  lemma WriteOneMore(n: Node, fds: seq<FileData>, i: nat)
    requires i < |fds|
    ensures WriteFiles(n, fds[..i + 1]) == WriteFile(WriteFiles(n, fds[..i]), fds[i])
  {
    assert fds[..i + 1][..i] == fds[..i];
  }

  /** How many of the first `k` files of a bundle are admitted and written. */
  function Written(n: Node, fds: seq<FileData>, k: nat): nat
    requires k <= |fds|
  {
    if k == 0 then 0 else Written(n, fds, k - 1) + if AdmittedAt(n, fds, k - 1) then 1 else 0
  }

  /** The bundle failed at file `i`: everything before it is applied, and its own record is made. */
  ghost predicate StoppedAt(n: Node, fds: seq<FileData>, i: nat, now: Node)
    requires i < |fds|
  {
    var before := WriteFiles(n, fds[..i]);
    && UnobstructedUpTo(n, fds, i) && ObstructedAt(n, fds, i)
    && now == before.(ledger := AdmitRecord(before.ledger, fds[i].path, fds[i].actionMs, fds[i].meta.modifiedMs))
  }

  function Lifted(l: Ledger, paths: seq<Path>): Ledger {
    if paths == [] then l else Lifted(l, paths[..|paths| - 1]).Remove(paths[|paths| - 1])
  }

  predicate CoveredBy(gone: set<Path>, k: Path) {
    exists g :: g in gone && StartsWith(k, g)
  }

  /** `k` lies at or under a target that is not spared. */
  predicate Swept(disk: Manifest, targets: set<Path>, keep: set<Path>, k: Path) {
    exists t :: t in targets && !Spared(disk, keep, t) && StartsWith(k, t)
  }

  function Without(m: Manifest, gone: set<Path>): Manifest {
    map k | k in m && !CoveredBy(gone, k) :: m[k]
  }

  function Unswept(m: Manifest, disk: Manifest, targets: set<Path>, keep: set<Path>): Manifest {
    map k | k in m && !Swept(disk, targets, keep, k) :: m[k]
  }

  /** Each visited target was removed, lies under a removed one, or was spared. */
  ghost predicate Visited(disk: Manifest, visited: set<Path>, keep: set<Path>, gone: set<Path>) {
    && (forall g :: g in gone ==> g in visited && !Spared(disk, keep, g))
    && (forall t :: t in visited ==> CoveredBy(gone, t) || Spared(disk, keep, t))
  }

  lemma VisitMore(disk: Manifest, visited: set<Path>, keep: set<Path>, gone: set<Path>, t: Path)
    requires Visited(disk, visited, keep, gone)
    ensures CoveredBy(gone, t) || Spared(disk, keep, t) ==> Visited(disk, visited + {t}, keep, gone)
    ensures !Spared(disk, keep, t) ==> Visited(disk, visited + {t}, keep, gone + {t})
  {
    CoveredMore(gone, t);
    assert StartsWith(t, t);
    if !Spared(disk, keep, t) {
      forall v | v in visited + {t}
        ensures CoveredBy(gone + {t}, v) || Spared(disk, keep, v)
      {
        assert v == t || v in visited;
      }
    }
  }

  lemma CoveredMore(gone: set<Path>, t: Path)
    ensures forall k :: CoveredBy(gone + {t}, k) <==> CoveredBy(gone, k) || StartsWith(k, t)
  {
    forall k
      ensures CoveredBy(gone + {t}, k) <==> CoveredBy(gone, k) || StartsWith(k, t)
    {
      if CoveredBy(gone, k) {
        var g :| g in gone && StartsWith(k, g);
        assert g in gone + {t};
      }
      assert t in gone + {t};
    }
  }

  lemma WithoutMore(m: Manifest, gone: set<Path>, t: Path)
    ensures Without(m, gone + {t}) == map k | k in Without(m, gone) && !StartsWith(k, t) :: Without(m, gone)[k]
  {
    CoveredMore(gone, t);
  }

  lemma SweptIsCovered(disk: Manifest, targets: set<Path>, keep: set<Path>, gone: set<Path>)
    requires Visited(disk, targets, keep, gone)
    ensures forall k :: Swept(disk, targets, keep, k) <==> CoveredBy(gone, k)
    ensures forall m: Manifest :: Without(m, gone) == Unswept(m, disk, targets, keep)
  {
    forall k
      ensures Swept(disk, targets, keep, k) ==> CoveredBy(gone, k)
    {
      if t :| t in targets && !Spared(disk, keep, t) && StartsWith(k, t) {
        var g :| g in gone && StartsWith(t, g);
        StartsWithTransitive(k, t, g);
      }
    }
  }

  method Shallowest(ps: set<Path>) returns (p: Path)
    requires ps != {}
    ensures p in ps && forall t :: t in ps ==> |p| <= |t|
  {
    var x :| x in ps;
    ShallowestBelow(ps, x);
    p :| p in ps && forall t :: t in ps ==> |p| <= |t|;
  }

  lemma {:induction false} ShallowestBelow(ps: set<Path>, x: Path)
    requires x in ps
    ensures exists p :: p in ps && forall t :: t in ps ==> |p| <= |t|
    decreases |x|
  {
    if y :| y in ps && |y| < |x| {
      ShallowestBelow(ps, y);
    }
  }

  function RecordAll(l: Ledger, ts: seq<Tombstone>): Ledger {
    if ts == [] then l else RecordAll(l, ts[..|ts| - 1]).Record(ts[|ts| - 1])
  }

  lemma RecordAllSnoc(l: Ledger, ts: seq<Tombstone>, t: Tombstone)
    ensures RecordAll(l, ts + [t]) == RecordAll(l, ts).Record(t)
  {
    assert (ts + [t])[..|ts|] == ts;
  }

  lemma {:induction false} RecordAllAlive(l: Ledger, ts: seq<Tombstone>)
    ensures RecordAll(l, ts).alive == l.alive
  {
    if ts != [] {
      RecordAllAlive(l, ts[..|ts| - 1]);
    }
  }

  /** The guard looks at live records only, so tombstones staged meanwhile do not matter. */
  lemma SameGuard(m: Manifest, disk: Manifest, a: Ledger, b: Ledger, rel: Path, deletedAt: nat)
    requires a.alive == b.alive
    ensures Listed(m, disk, a, rel, deletedAt) == Listed(m, disk, b, rel, deletedAt)
    ensures Kept(m, disk, a, rel, deletedAt) == Kept(m, disk, b, rel, deletedAt)
  {
    assert forall p :: Protects(a, p, deletedAt) == Protects(b, p, deletedAt);
    assert Protected(m, a, rel, deletedAt) == Protected(m, b, rel, deletedAt);
  }

  lemma MoveSomeAt(m: Manifest, olds: set<Path>, from: Path, to: Path, seen: Manifest, j: Path)
    requires !Comparable(from, to) && olds <= Under(m, from)
    ensures var r := MoveSome(m, olds, from, to, seen);
            if StartsWith(j, to) && Rebase(j, to, from) in olds then
              j in r && r[j] == Moved(m[Rebase(j, to, from)], j, seen)
            else
              (j in r <==> j in m && j !in olds) && (j in r ==> r[j] == m[j])
  {
    RebaseAll(olds, from, to);
    if StartsWith(j, to) && Rebase(j, to, from) in olds {
      BackAgain(j, from, to);
      assert j in MovedKeys(olds, from, to);
    }
  }

  /** Moving one more key commutes with the keys moved so far, as long as the two places do not overlap. */
  lemma MoveOneMore(m: Manifest, done: set<Path>, k: Path, from: Path, to: Path, seen: Manifest)
    requires !Comparable(from, to) && done <= Under(m, from) && k in Under(m, from) && k !in done
    ensures k in MoveSome(m, done, from, to, seen) && MoveSome(m, done, from, to, seen)[k] == m[k]
    ensures MoveSome(m, done + {k}, from, to, seen) ==
            (MoveSome(m, done, from, to, seen) - {k})[Rebase(k, from, to) := Moved(m[k], Rebase(k, from, to), seen)]
  {
    var before, after := MoveSome(m, done, from, to, seen), MoveSome(m, done + {k}, from, to, seen);
    var place := Rebase(k, from, to);
    SourceApart(k, from, to);
    MoveSomeAt(m, done, from, to, seen, k);
    var stepped := (before - {k})[place := Moved(m[k], place, seen)];
    forall j
      ensures j in after <==> j in stepped
      ensures j in after ==> after[j] == stepped[j]
    {
      MoveOneMoreAt(m, done, k, from, to, seen, j);
    }
  }

  lemma SourceApart(k: Path, from: Path, to: Path)
    requires !Comparable(from, to) && StartsWith(k, from)
    ensures !StartsWith(k, to) && StartsWith(Rebase(k, from, to), to) && Rebase(Rebase(k, from, to), to, from) == k
  {
    RebaseBack(k, from, to);
    if StartsWith(k, to) {
      NotBoth(k, from, to);
    }
  }

  /** The same, at one key. */
  lemma MoveOneMoreAt(m: Manifest, done: set<Path>, k: Path, from: Path, to: Path, seen: Manifest, j: Path)
    requires !Comparable(from, to) && done <= Under(m, from) && k in Under(m, from) && k !in done
    ensures var before, after := MoveSome(m, done, from, to, seen), MoveSome(m, done + {k}, from, to, seen);
            var place := Rebase(k, from, to);
            && (j in after <==> j == place || (j in before && j != k))
            && (j in after ==> after[j] == if j == place then Moved(m[k], place, seen) else before[j])
  {
    SourceApart(k, from, to);
    MoveSomeAt(m, done, from, to, seen, j);
    MoveSomeAt(m, done + {k}, from, to, seen, j);
    if StartsWith(j, to) {
      BackAgain(j, from, to);
    }
  }
}
