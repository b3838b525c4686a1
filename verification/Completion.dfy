/** When a session gets to its end: files and directories in each other's way. */
module Completion {
  import opened Paths
  import opened Wrappers
  import opened Ledgers
  import opened Engine
  import opened Reconcile
  import opened Convergence

  /** Nothing lies below a file. */
  ghost predicate TreeShaped(disk: Manifest) {
    forall k, a :: k in disk && a in disk && Below(k, a) ==> disk[a].isDir
  }

  /** A scanned tree: listing and disk agree, the root is not listed, and every path lies in a chain of directories. */
  ghost predicate Scanned(n: Node) {
    n.manifest == n.disk && Closed(n.manifest) && [] !in n.manifest
  }

  /** No admitted file of the payload meets a directory, a directory a file, or any of them a file above it. */
  ghost predicate ClearWay(n: Node, fds: seq<FileData>) {
    forall i :: 0 <= i < |fds| && AdmittedAt(n, fds, i) ==> !Clashes(n.disk, fds[i])
  }

  lemma PayloadTreelike(sender: Node, send: seq<Path>, fds: seq<FileData>)
    requires PayloadOf(sender, send, fds) && TreeShaped(sender.disk)
    ensures Treelike(fds)
  {
    forall i, j | 0 <= i < |fds| && 0 <= j < |fds| && i != j
      ensures fds[i].path != fds[j].path && (Below(fds[i].path, fds[j].path) ==> fds[j].meta.isDir)
    {
      assert fds[i] in fds && fds[j] in fds;
      assert fds[i] != fds[j];
    }
  }

  lemma {:induction false} DeleteEachShrinks(n: Node, ds: seq<Deletion>)
    ensures DeleteEach(n, ds).disk.Keys <= n.disk.Keys
    ensures forall k :: k in DeleteEach(n, ds).disk ==> DeleteEach(n, ds).disk[k] == n.disk[k]
  {
    if ds != [] {
      DeleteEachShrinks(n, ds[..|ds| - 1]);
    }
  }

  lemma DeletedTree(n: Node, ds: seq<Deletion>)
    requires TreeShaped(n.disk)
    ensures TreeShaped(DeleteEach(n, ds).disk)
  {
    DeleteEachShrinks(n, ds);
  }

  lemma ClosedIsTree(disk: Manifest)
    requires Closed(disk) && [] !in disk
    ensures TreeShaped(disk)
  {
    forall k, a | k in disk && a in disk && Below(k, a)
      ensures disk[a].isDir
    {
      BelowIsUnderDir(disk, k, a);
    }
  }

  /** Deletes leave a scanned tree a tree. */
  lemma {:induction false} DeleteEachScanned(n: Node, ds: seq<Deletion>)
    requires Scanned(n) && forall d :: d in ds ==> d.path != []
    ensures Scanned(DeleteEach(n, ds))
  {
    if ds != [] {
      var d := ds[|ds| - 1];
      assert d in ds;
      DeleteEachScanned(n, ds[..|ds| - 1]);
      DeleteGuard(DeleteEach(n, ds[..|ds| - 1]), d.path, d.at, d.deleter);
    }
  }

  /** Files of one tree written without a clash into another leave a tree. */
  lemma WrittenTree(n: Node, fds: seq<FileData>)
    requires Closed(n.disk) && [] !in n.disk && Treelike(fds) && ClearWay(n, fds)
    requires forall fd :: fd in fds ==> fd.path != []
    ensures TreeShaped(WriteFiles(n, fds).disk)
  {
    var disk := WriteFiles(n, fds).disk;
    assert fds[..|fds|] == fds;
    forall k, a | k in disk && a in disk && Below(k, a)
      ensures disk[a].isDir
    {
      var ja := DiskAfter(n, fds, |fds|, a);
      var jk := DiskAfter(n, fds, |fds|, k);
      PairIsTree(n, fds, k, a, jk, ja);
    }
  }

  lemma PairIsTree(n: Node, fds: seq<FileData>, k: Path, a: Path, jk: int, ja: int)
    requires Closed(n.disk) && Treelike(fds) && ClearWay(n, fds) && Below(k, a) && a != []
    requires -1 <= jk < |fds| && -1 <= ja < |fds|
    requires if jk == -1 then k in n.disk else AdmittedAt(n, fds, jk) && fds[jk].path == k
    requires if ja == -1 then a in n.disk else AdmittedAt(n, fds, ja) && fds[ja].path == a
    ensures if ja == -1 then n.disk[a].isDir else fds[ja].meta.isDir
  {
    if jk == -1 {
      BelowIsUnderDir(n.disk, k, a);
    } else if ja == -1 {
      assert a == k[..|a|];
    }
  }

  /** The server's half completes exactly when its files find a clear way on the client. */
  lemma FirstCompletesExactly(run: Session)
    requires run.FollowsFirst() && TreeShaped(run.server.disk)
    ensures run.FirstCompletes() <==> ClearWay(run.ClientSwept(), run.toClient)
  {
    DeletedTree(run.server, run.serverPlan.vetoes);
    PayloadTreelike(run.ServerVetoed(), run.serverPlan.send, run.toClient);
    WritesSucceedExactly(run.ClientSwept(), run.toClient);
  }

  lemma {:induction false} ClampedPaths(ds: seq<Deletion>, now: nat)
    requires forall d :: d in ds ==> d.path != []
    ensures forall d :: d in Clamped(ds, now) ==> d.path != []
  {
    if ds != [] {
      assert ds[|ds| - 1] in ds;
      ClampedPaths(ds[..|ds| - 1], now);
    }
  }

  /** What the client streams from is a tree again once it has taken the server's files. */
  lemma ClientTree(run: Session)
    requires run.Follows() && run.FirstCompletes() && Scanned(run.client) && Scanned(run.server)
    requires [] !in run.Tombs()
    ensures TreeShaped(run.ClientVetoed().disk)
  {
    ClosedIsTree(run.server.disk);
    FirstCompletesExactly(run);
    DeletedTree(run.server, run.serverPlan.vetoes);
    PayloadTreelike(run.ServerVetoed(), run.serverPlan.send, run.toClient);
    ClampedPaths(run.serverPlan.pushes, run.clientNow);
    DeleteEachScanned(run.client, Clamped(run.serverPlan.pushes, run.clientNow));
    DeleteEachShrinks(run.server, run.serverPlan.vetoes);
    WrittenTree(run.ClientSwept(), run.toClient);
    DeletedTree(run.ClientReceived(), run.clientPlan.vetoes);
  }

  /** A session between two scanned trees completes exactly when the files of each half find a clear way. */
  lemma CompletesExactly(run: Session)
    requires run.Follows() && Scanned(run.client) && Scanned(run.server) && [] !in run.Tombs()
    ensures run.Completes() <==> ClearWay(run.ClientSwept(), run.toClient) && ClearWay(run.ServerSwept(), run.toServer)
  {
    ClosedIsTree(run.server.disk);
    FirstCompletesExactly(run);
    if run.FirstCompletes() {
      ClientTree(run);
      PayloadTreelike(run.ClientVetoed(), run.clientPlan.send, run.toServer);
      WritesSucceedExactly(run.ServerSwept(), run.toServer);
    }
  }

  // ---- A session that does not complete ----

  const NAME: Path := ["a"]
  const INSIDE: Path := ["a", "x"]

  /** The client holds a file where the server holds a directory with a file in it. */
  function ClashRun(): Session {
    var file, dir, inside := Meta(NAME, 1, [1], 10, false), Meta(NAME, 0, [0], 20, true), Meta(INSIDE, 1, [2], 20, false);
    var c, s := map[NAME := file], map[NAME := dir, INSIDE := inside];
    Session(Node(c, c, EMPTY), Node(s, s, EMPTY), 0, 0,
            Plan([], [], [NAME, INSIDE], []), [FileData(NAME, dir, None), FileData(INSIDE, inside, None)],
            Plan([], [], [], []), [])
  }

  lemma ClashVerdicts()
    ensures NAME != INSIDE && EMPTY.CoveringTombstone(NAME).None? && EMPTY.CoveringTombstone(INSIDE).None?
  {
    assert |NAME| == 1 && |INSIDE| == 2;
    CoverNearest(EMPTY, NAME);
    CoverNearest(EMPTY, INSIDE);
  }

  lemma ClashSends()
    ensures var run := ClashRun();
            forall p :: ShouldSend(run.server.manifest, run.client.manifest, true, p) <==> p == NAME || p == INSIDE
  {
    ClashVerdicts();
  }

  lemma ClashPlan()
    ensures var run := ClashRun(); PlanOf(run.serverPlan, run.server, run.server.manifest, run.client.manifest, true)
  {
    ClashVerdicts();
    ClashSends();
  }

  lemma ClashPayload()
    ensures var run := ClashRun(); PayloadOf(run.ServerVetoed(), run.serverPlan.send, run.toClient)
  {
    var run := ClashRun();
    ClashVerdicts();
    assert run.ServerVetoed() == run.server;
    assert DataOf(run.server, NAME) == run.toClient[0] && DataOf(run.server, INSIDE) == run.toClient[1];
  }

  /** Every path is ready, and the session still ends at the first write. */
  lemma ClashEndsSession()
    ensures ClashRun().FollowsFirst() && ClashRun().Ready(NAME) && ClashRun().Ready(INSIDE)
    ensures !ClashRun().FirstCompletes() && !ClashRun().Completes()
  {
    var run := ClashRun();
    ClashVerdicts();
    ClashPlan();
    ClashPayload();
    assert run.ClientSwept() == run.client && run.toClient[..0] == [];
    assert ObstructedAt(run.client, run.toClient, 0);
  }
}
