/** Two nodes after the ledger exchange: one initial sync in each direction, and what they end with. */
module Convergence {
  import opened Paths
  import opened Wrappers
  import opened Digests
  import opened Ledgers
  import opened LedgerExchange
  import opened Engine
  import opened EngineStore
  import opened Reconcile

  // ---- One side of the sync ----

  /** What one side decides: stale copies to delete here, deletes to push, files to send, tombstones to lift. */
  datatype Plan = Plan(vetoes: seq<Deletion>, pushes: seq<Deletion>, send: seq<Path>, recreated: seq<Path>)

  function DeleteEach(n: Node, ds: seq<Deletion>): Node {
    if ds == [] then n
    else
      var d := ds[|ds| - 1];
      DeletePath(DeleteEach(n, ds[..|ds| - 1]), d.path, d.at, d.deleter)
  }

  /** Pushed deletes as the receiver stamps them. */
  function Clamped(ds: seq<Deletion>, now: nat): (r: seq<Deletion>)
    ensures |r| == |ds|
  {
    if ds == [] then []
    else
      var d := ds[|ds| - 1];
      Clamped(ds[..|ds| - 1], now) + [d.(at := ClampFutureStamp(d.at, now))]
  }

  /** `me` decides with its ledger; `judged` is the listing it scanned, `remote` the peer's listing. */
  ghost predicate PlanOf(plan: Plan, me: Node, judged: Manifest, remote: Manifest, isServer: bool) {
    var snap := me.ledger;
    && Enumerates(plan.vetoes, (d: Deletion) =>
         ShouldSend(judged, remote, isServer, d.path) && Judge(snap, judged[d.path], d.path).Vetoed?
         && d.path in snap.tombs && d == DeletionOf(snap, d.path))
    && Enumerates(plan.pushes, (d: Deletion) =>
         MissedDelete(DeleteEach(me, plan.vetoes).manifest, remote, snap, d.path) && d == DeletionOf(snap, d.path))
    && Enumerates(plan.send, (p: Path) => ShouldSend(judged, remote, isServer, p) && !Judge(snap, judged[p], p).Vetoed?)
    && Enumerates(plan.recreated, (p: Path) => ShouldSend(judged, remote, isServer, p) && Judge(snap, judged[p], p).Recreated?)
  }

  function DataOf(n: Node, p: Path): FileData
    requires p in n.disk
  {
    FileData(p, n.disk[p], WireStamp(n.ledger, p, n.disk[p].modifiedMs))
  }

  /** The files of a send list that are still on disk, streamed in any order. */
  ghost predicate PayloadOf(n: Node, send: seq<Path>, files: seq<FileData>) {
    Enumerates(files, (fd: FileData) => fd.path in send && fd.path in n.disk && fd == DataOf(n, fd.path))
  }

  /** The receiver's side: deletes first, then files. */
  function Received(n: Node, pushes: seq<Deletion>, files: seq<FileData>, now: nat): Node {
    WriteFiles(DeleteEach(n, Clamped(pushes, now)), files)
  }

  function Settled(n: Node, recreated: seq<Path>): Node {
    n.(ledger := Lifted(n.ledger, recreated))
  }

  // ---- The session: the server's half, then the client's ----

  datatype Session = Session(
    client: Node, server: Node, clientNow: nat, serverNow: nat,
    serverPlan: Plan, toClient: seq<FileData>,
    clientPlan: Plan, toServer: seq<FileData>)
  {
    function ServerVetoed(): Node {
      DeleteEach(server, serverPlan.vetoes)
    }

    function ClientReceived(): Node {
      Received(client, serverPlan.pushes, toClient, clientNow)
    }

    function ClientVetoed(): Node {
      DeleteEach(ClientReceived(), clientPlan.vetoes)
    }

    function ClientAfter(): Node {
      Settled(ClientVetoed(), clientPlan.recreated)
    }

    function ServerAfter(): Node {
      Received(Settled(ServerVetoed(), serverPlan.recreated), clientPlan.pushes, toServer, serverNow)
    }

    /** The server's half as planned. */
    ghost predicate FollowsFirst() {
      && PlanOf(serverPlan, server, server.manifest, client.manifest, true)
      && PayloadOf(ServerVetoed(), serverPlan.send, toClient)
    }

    /** Both halves. The client judges the listing it scanned before the server's half reached it. */
    ghost predicate Follows() {
      && FollowsFirst()
      && PlanOf(clientPlan, ClientReceived(), client.manifest, server.manifest, false)
      && PayloadOf(ClientVetoed(), clientPlan.send, toServer)
    }

    function ClientSwept(): Node {
      DeleteEach(client, Clamped(serverPlan.pushes, clientNow))
    }

    function ServerSwept(): Node {
      DeleteEach(Settled(ServerVetoed(), serverPlan.recreated), Clamped(clientPlan.pushes, serverNow))
    }

    ghost predicate FirstCompletes() {
      Unobstructed(ClientSwept(), toClient)
    }

    /** No write of either half fails; a failed write ends the session, and nothing after it is delivered. */
    ghost predicate Completes() {
      FirstCompletes() && Unobstructed(ServerSwept(), toServer)
    }

    /**
     What agreement at `p` rests on: the same stamps there, no tombstone strictly above it, listing and
     disk in agreement there on both sides, and a stamp within the clock allowance.
     */
    ghost predicate Ready(p: Path) {
      && client.ledger.TombAt(p) == server.ledger.TombAt(p) && client.ledger.AliveSince(p) == server.ledger.AliveSince(p)
      && Exposed(Tombs(), p)
      && Fits(client, Files(), Tombs(), p) && Fits(server, Files(), Tombs(), p)
      && (p in client.ledger.tombs ==>
            client.ledger.tombs[p].deletedAt <= clientNow + MAX_FUTURE_SKEW_MS
            && client.ledger.tombs[p].deletedAt <= serverNow + MAX_FUTURE_SKEW_MS)
    }

    function Files(): set<Path> {
      client.manifest.Keys + client.disk.Keys + server.manifest.Keys + server.disk.Keys
    }

    function Tombs(): set<Path> {
      client.ledger.tombs.Keys + server.ledger.tombs.Keys
    }
  }

  /** No tombstone lies strictly above `p`. */
  ghost predicate Exposed(tombs: set<Path>, p: Path) {
    p != [] && forall t :: t in tombs && t != p ==> !StartsWith(p, t)
  }

  ghost predicate HoldsSomething(files: set<Path>, p: Path) {
    exists f :: f in files && Below(f, p)
  }

  /** Listing and disk agree at `p`, and if a tombstone could delete it, it is not a directory that holds something. */
  ghost predicate Fits(n: Node, files: set<Path>, tombs: set<Path>, p: Path) {
    && n.ledger.Valid() && n.ledger.tombs.Keys <= tombs
    && n.manifest.Keys <= files && n.disk.Keys <= files
    && (p in n.manifest <==> p in n.disk) && (p in n.manifest ==> n.manifest[p] == n.disk[p])
    && (p in tombs && HoldsSomething(files, p) ==> !IsDir(n.disk, p))
  }

  // ---- What one path sees ----

  /** What a node holds at one path. */
  datatype View = View(file: Option<Meta>, tomb: Option<Tombstone>, live: nat) {

    function Wrote(fd: FileData): View {
      var cmp := if fd.actionMs.Some? then fd.actionMs.value else fd.meta.modifiedMs;
      if tomb.Some? && tomb.value.deletedAt > cmp then this
      else
        var at := if fd.actionMs.Some? then fd.actionMs.value else if tomb.Some? && cmp > tomb.value.deletedAt then cmp else 0;
        View(Some(fd.meta), if tomb.Some? && at > 0 && tomb.value.deletedAt <= at then None else tomb, Max(live, at))
    }
  }

  function ViewAt(n: Node, p: Path): View {
    View(if p in n.manifest then Some(n.manifest[p]) else None,
         if p in n.ledger.tombs then Some(n.ledger.tombs[p]) else None,
         n.ledger.AliveSince(p))
  }

  /** A delete elsewhere does not reach an exposed path. */
  lemma DeleteElsewhere(n: Node, files: set<Path>, tombs: set<Path>, d: Deletion, p: Path)
    requires Exposed(tombs, p) && Fits(n, files, tombs, p) && d.path in tombs && d.path != p
    ensures var after := DeletePath(n, d.path, d.at, d.deleter);
            ViewAt(after, p) == ViewAt(n, p) && Fits(after, files, tombs, p)
  {
    assert !StartsWith(p, d.path);
    forall t | t in Subtree(n.manifest, d.path)
      ensures !StartsWith(p, t)
    {
      if StartsWith(p, t) {
        StartsWithTransitive(p, t, d.path);
        assert false;
      }
    }
  }

  /** A delete stamped like the tombstone already held removes the file and leaves the ledger alone. */
  lemma DeleteHere(n: Node, files: set<Path>, tombs: set<Path>, d: Deletion)
    requires Exposed(tombs, d.path) && Fits(n, files, tombs, d.path) && n.ledger.TombAt(d.path) == Some(d.at)
    ensures var after := DeletePath(n, d.path, d.at, d.deleter);
            ViewAt(after, d.path) == ViewAt(n, d.path).(file := None) && Fits(after, files, tombs, d.path)
  {
    var p := d.path;
    assert p in n.ledger.tombs && !Protects(n.ledger, p, d.at);
    var keep := Protected(n.manifest, n.ledger, p, d.at);
    forall q | q in keep
      ensures q in n.manifest && Below(q, p)
    {
      StartsWithTransitive(q, q, p);
    }
    if keep != {} {
      assert HoldsSomething(files, p);
      assert !Spared(n.disk, keep, p) && p in Subtree(n.manifest, p) - keep && StartsWith(p, p);
    }
    assert Unlisted(n.manifest, n.disk, n.ledger, p, d.at, p) && Trashed(n.manifest, n.disk, n.ledger, p, d.at, p);
    assert !n.ledger.Accepts(DeleteTomb(n.manifest, p, d.at, d.deleter));
  }

  function PathsOf(ds: seq<Deletion>): set<Path> {
    set d | d in ds :: d.path
  }

  lemma {:induction false} DeleteEachView(n: Node, files: set<Path>, tombs: set<Path>, ds: seq<Deletion>, p: Path)
    requires Exposed(tombs, p) && Fits(n, files, tombs, p)
    requires forall d :: d in ds ==> d.path in tombs && (d.path == p ==> n.ledger.TombAt(p) == Some(d.at))
    ensures Fits(DeleteEach(n, ds), files, tombs, p)
    ensures ViewAt(DeleteEach(n, ds), p) == if p in PathsOf(ds) then ViewAt(n, p).(file := None) else ViewAt(n, p)
  {
    if ds != [] {
      var d, init := ds[|ds| - 1], ds[..|ds| - 1];
      assert ds == init + [d];
      DeleteEachView(n, files, tombs, init, p);
      if d.path == p {
        DeleteHere(DeleteEach(n, init), files, tombs, d);
      } else {
        DeleteElsewhere(DeleteEach(n, init), files, tombs, d, p);
      }
      assert PathsOf(ds) == PathsOf(init) + {d.path};
    }
  }

  lemma {:induction false} ClampedAt(ds: seq<Deletion>, now: nat)
    ensures PathsOf(Clamped(ds, now)) == PathsOf(ds)
    ensures forall c :: c in Clamped(ds, now) ==>
              exists d :: d in ds && c.path == d.path && c.at == ClampFutureStamp(d.at, now)
  {
    if ds != [] {
      var d, init := ds[|ds| - 1], ds[..|ds| - 1];
      assert ds == init + [d];
      ClampedAt(init, now);
      assert PathsOf(ds) == PathsOf(init) + {d.path};
      assert PathsOf(Clamped(ds, now)) == PathsOf(Clamped(init, now)) + {d.path};
    }
  }

  /** With nothing above it, a path is covered by its own tombstone or by none. */
  lemma CoverExact(l: Ledger, tombs: set<Path>, p: Path)
    requires Exposed(tombs, p) && l.Valid() && l.tombs.Keys <= tombs
    ensures l.CoveringTombstone(p) == if p in l.tombs then Some(l.tombs[p]) else None
  {
    if p in l.tombs {
      ExactTombstoneWins(l, p);
    } else {
      CoverNearest(l, p);
    }
  }

  lemma WriteView(n: Node, files: set<Path>, tombs: set<Path>, fd: FileData, p: Path)
    requires Exposed(tombs, p) && Fits(n, files, tombs, p) && fd.path in files
    requires fd.path == p && p in tombs && HoldsSomething(files, p) ==> !fd.meta.isDir
    ensures Fits(WriteFile(n, fd), files, tombs, p)
    ensures ViewAt(WriteFile(n, fd), p) == if p == fd.path then ViewAt(n, p).Wrote(fd) else ViewAt(n, p)
  {
    AdmitAt(n.ledger, fd, p);
    if fd.path == p {
      CoverExact(n.ledger, tombs, p);
    }
  }

  /** Admitting a write keeps the ledger valid and touches the record of its own path only. */
  lemma AdmitAt(l: Ledger, fd: FileData, p: Path)
    requires l.Valid()
    ensures var m := AdmitRecord(l, fd.path, fd.actionMs, fd.meta.modifiedMs);
            && m.Valid() && m.tombs.Keys <= l.tombs.Keys
            && (p in m.tombs ==> m.tombs[p] == l.tombs[p])
            && (p != fd.path ==> m.AliveSince(p) == l.AliveSince(p) && (p in m.tombs <==> p in l.tombs))
  {
  }

  lemma {:induction false} WriteFilesView(n: Node, files: set<Path>, tombs: set<Path>, fds: seq<FileData>, p: Path)
    requires Exposed(tombs, p) && Fits(n, files, tombs, p)
    requires forall fd :: fd in fds ==> fd.path in files
    requires forall fd :: fd in fds && fd.path == p && p in tombs && HoldsSomething(files, p) ==> !fd.meta.isDir
    requires forall i, j :: 0 <= i < j < |fds| ==> fds[i].path != fds[j].path
    ensures Fits(WriteFiles(n, fds), files, tombs, p)
    ensures forall fd :: fd in fds && fd.path == p ==> ViewAt(WriteFiles(n, fds), p) == ViewAt(n, p).Wrote(fd)
    ensures (forall fd :: fd in fds ==> fd.path != p) ==> ViewAt(WriteFiles(n, fds), p) == ViewAt(n, p)
  {
    if fds != [] {
      var init, last := fds[..|fds| - 1], fds[|fds| - 1];
      assert fds == init + [last];
      WriteFilesView(n, files, tombs, init, p);
      WriteView(WriteFiles(n, init), files, tombs, last, p);
      if last.path == p {
        assert forall fd :: fd in init ==> fd.path != p;
      }
    }
  }

  lemma {:induction false} LiftedView(l: Ledger, paths: seq<Path>, p: Path)
    requires l.Valid()
    ensures Lifted(l, paths).Valid() && Lifted(l, paths).alive == l.alive && Lifted(l, paths).tombs.Keys <= l.tombs.Keys
    ensures p in Lifted(l, paths).tombs <==> p in l.tombs && p !in paths
    ensures p in Lifted(l, paths).tombs ==> Lifted(l, paths).tombs[p] == l.tombs[p]
  {
    if paths != [] {
      assert paths == paths[..|paths| - 1] + [paths[|paths| - 1]];
      LiftedView(l, paths[..|paths| - 1], p);
    }
  }

  // ---- What one half of the session does at one path ----

  /** The copy here loses to a tombstone held here. */
  predicate Loses(l: Ledger, judged: Manifest, remote: Manifest, isServer: bool, p: Path) {
    ShouldSend(judged, remote, isServer, p) && Judge(l, judged[p], p).Vetoed?
  }

  lemma AfterVetoes(plan: Plan, me: Node, judged: Manifest, remote: Manifest, isServer: bool, files: set<Path>, tombs: set<Path>, p: Path)
    requires PlanOf(plan, me, judged, remote, isServer)
    requires Exposed(tombs, p) && Fits(me, files, tombs, p)
    ensures var after := DeleteEach(me, plan.vetoes);
            && Fits(after, files, tombs, p)
            && ViewAt(after, p) == if Loses(me.ledger, judged, remote, isServer, p) then ViewAt(me, p).(file := None) else ViewAt(me, p)
  {
    DeleteEachView(me, files, tombs, plan.vetoes, p);
    if Loses(me.ledger, judged, remote, isServer, p) {
      CoverExact(me.ledger, tombs, p);
      assert DeletionOf(me.ledger, p) in plan.vetoes;
    }
  }

  lemma ReceivedView(n: Node, sender: Node, pushes: seq<Deletion>, send: seq<Path>, fds: seq<FileData>, now: nat,
                     files: set<Path>, tombs: set<Path>, p: Path)
    requires Exposed(tombs, p) && Fits(n, files, tombs, p) && Fits(sender, files, tombs, p)
    requires forall d :: d in pushes ==> d.path in tombs
    requires forall d :: d in pushes && d.path == p ==> n.ledger.TombAt(p) == Some(d.at) && d.at <= now + MAX_FUTURE_SKEW_MS
    requires PayloadOf(sender, send, fds)
    ensures Fits(Received(n, pushes, fds, now), files, tombs, p)
    ensures ViewAt(Received(n, pushes, fds, now), p) ==
            var v := if p in PathsOf(pushes) then ViewAt(n, p).(file := None) else ViewAt(n, p);
            if p in send && p in sender.disk then v.Wrote(DataOf(sender, p)) else v
  {
    ClampedAt(pushes, now);
    DeleteEachView(n, files, tombs, Clamped(pushes, now), p);
    forall i, j | 0 <= i < j < |fds|
      ensures fds[i].path != fds[j].path
    {
      assert fds[i] in fds && fds[j] in fds;
    }
    WriteFilesView(DeleteEach(n, Clamped(pushes, now)), files, tombs, fds, p);
    if p in send && p in sender.disk {
      assert DataOf(sender, p) in fds;
    }
  }

  lemma PushedPaths(plan: Plan, me: Node, judged: Manifest, remote: Manifest, isServer: bool, p: Path)
    requires PlanOf(plan, me, judged, remote, isServer)
    ensures p in PathsOf(plan.pushes) <==> MissedDelete(DeleteEach(me, plan.vetoes).manifest, remote, me.ledger, p)
  {
    if MissedDelete(DeleteEach(me, plan.vetoes).manifest, remote, me.ledger, p) {
      assert DeletionOf(me.ledger, p) in plan.pushes;
    }
  }

  // ---- Convergence ----

  /** The copy that wins when both sides hold different content: the newer one, the server's on a tie. */
  function Winner(c: Meta, s: Meta): Meta {
    if c.modifiedMs > s.modifiedMs then c else s
  }

  function WinnerLedger(run: Session, c: Meta, s: Meta): Ledger {
    if c.modifiedMs > s.modifiedMs then run.client.ledger else run.server.ledger
  }

  /**
   Both sides hold different content, a tombstone is newer than both copies, and the winning side's
   previous-version information does not recognise the winning copy: the sender lets it through,
   the receiver judges by stamp alone and refuses it.
   */
  predicate Stuck(run: Session, p: Path) {
    p in run.client.manifest && p in run.server.manifest &&
    var c, s := run.client.manifest[p], run.server.manifest[p];
    var w, l := Winner(c, s), WinnerLedger(run, c, s);
    c.hash != s.hash && l.HasNewerThan(p, w.modifiedMs) && !LooksDeleted(w, l.tombs[p])
  }

  /** Last writer wins: the newest copy, unless a newer tombstone beats it. */
  function Outcome(run: Session, p: Path): Option<Digest> {
    var c, s := run.client.manifest, run.server.manifest;
    if p !in c && p !in s then None
    else if p in c && p in s && c[p].hash == s[p].hash then Some(c[p].hash)
    else
      var w := if p !in c then s[p] else if p !in s then c[p] else Winner(c[p], s[p]);
      if run.client.ledger.HasNewerThan(p, w.modifiedMs) then None else Some(w.hash)
  }

  function HashAt(n: Node, p: Path): Option<Digest> {
    if p in n.manifest then Some(n.manifest[p].hash) else None
  }

  /** The server's half at one path: what each side holds before the client's half. */
  lemma FirstHalf(run: Session, p: Path)
    requires run.Ready(p) && run.FollowsFirst()
    ensures Fits(run.ServerVetoed(), run.Files(), run.Tombs(), p) && Fits(run.ClientReceived(), run.Files(), run.Tombs(), p)
    ensures ViewAt(run.ServerVetoed(), p) ==
            if Loses(run.server.ledger, run.server.manifest, run.client.manifest, true, p) then ViewAt(run.server, p).(file := None)
            else ViewAt(run.server, p)
    ensures ViewAt(run.ClientReceived(), p) ==
            var v := if MissedDelete(run.ServerVetoed().manifest, run.client.manifest, run.server.ledger, p)
                     then ViewAt(run.client, p).(file := None) else ViewAt(run.client, p);
            if p in run.serverPlan.send && p in run.ServerVetoed().disk then v.Wrote(DataOf(run.ServerVetoed(), p)) else v
  {
    AfterVetoes(run.serverPlan, run.server, run.server.manifest, run.client.manifest, true, run.Files(), run.Tombs(), p);
    ReceivedView(run.client, run.ServerVetoed(), run.serverPlan.pushes, run.serverPlan.send, run.toClient, run.clientNow,
                 run.Files(), run.Tombs(), p);
    PushedPaths(run.serverPlan, run.server, run.server.manifest, run.client.manifest, true, p);
  }

  /** A file's verdict depends on its own tombstone only. */
  lemma JudgedBy(l: Ledger, tombs: set<Path>, meta: Meta, p: Path)
    requires Exposed(tombs, p) && l.Valid() && l.tombs.Keys <= tombs
    ensures Judge(l, meta, p).Recreated? <==> p in l.tombs && meta.modifiedMs > l.tombs[p].deletedAt
    ensures Judge(l, meta, p).Vetoed? <==> l.HasNewerThan(p, meta.modifiedMs) && LooksDeleted(meta, l.tombs[p])
  {
    CoverExact(l, tombs, p);
  }

  /** What the server holds once it has lifted the tombstones of recreated files. */
  lemma ServerSettled(run: Session, p: Path)
    requires run.Ready(p) && run.Follows()
    ensures var settled := Settled(run.ServerVetoed(), run.serverPlan.recreated);
            && Fits(settled, run.Files(), run.Tombs(), p)
            && settled.manifest == run.ServerVetoed().manifest
            && settled.ledger.AliveSince(p) == run.server.ledger.AliveSince(p)
            && settled.ledger.TombAt(p) ==
               if p in run.server.manifest && p in run.serverPlan.recreated then None else run.server.ledger.TombAt(p)
  {
    FirstHalf(run, p);
    LiftedView(run.ServerVetoed().ledger, run.serverPlan.recreated, p);
  }

  /** A delete the client pushes at `p` carries the stamp the server still holds there. */
  lemma ClientPushStamp(run: Session, p: Path, d: Deletion)
    requires run.Ready(p) && run.Follows() && d in run.clientPlan.pushes && d.path == p
    ensures Settled(run.ServerVetoed(), run.serverPlan.recreated).ledger.TombAt(p) == Some(d.at)
    ensures d.at <= run.serverNow + MAX_FUTURE_SKEW_MS
  {
    FirstHalf(run, p);
    ServerSettled(run, p);
    var before, after := ViewAt(run.client, p), ViewAt(run.ClientReceived(), p);
    assert after.tomb.Some? && after.tomb == before.tomb;
    JudgedBy(run.server.ledger, run.Tombs(), run.server.manifest[p], p);
  }

  /** The client's half at one path: what each side ends with. */
  lemma SecondHalf(run: Session, p: Path)
    requires run.Ready(p) && run.Follows()
    ensures Fits(run.ClientAfter(), run.Files(), run.Tombs(), p) && Fits(run.ServerAfter(), run.Files(), run.Tombs(), p)
    ensures Fits(run.ClientVetoed(), run.Files(), run.Tombs(), p)
    ensures ViewAt(run.ClientVetoed(), p) ==
            if Loses(run.ClientReceived().ledger, run.client.manifest, run.server.manifest, false, p)
            then ViewAt(run.ClientReceived(), p).(file := None) else ViewAt(run.ClientReceived(), p)
    ensures run.ClientAfter().manifest == run.ClientVetoed().manifest
    ensures ViewAt(run.ServerAfter(), p) ==
            var settled := ViewAt(Settled(run.ServerVetoed(), run.serverPlan.recreated), p);
            var v := if MissedDelete(run.ClientVetoed().manifest, run.server.manifest, run.ClientReceived().ledger, p)
                     then settled.(file := None) else settled;
            if p in run.clientPlan.send && p in run.ClientVetoed().disk then v.Wrote(DataOf(run.ClientVetoed(), p)) else v
  {
    var files, tombs := run.Files(), run.Tombs();
    FirstHalf(run, p);
    ServerSettled(run, p);
    AfterVetoes(run.clientPlan, run.ClientReceived(), run.client.manifest, run.server.manifest, false, files, tombs, p);
    LiftedView(run.ClientVetoed().ledger, run.clientPlan.recreated, p);
    forall d | d in run.clientPlan.pushes && d.path == p
      ensures Settled(run.ServerVetoed(), run.serverPlan.recreated).ledger.TombAt(p) == Some(d.at)
      ensures d.at <= run.serverNow + MAX_FUTURE_SKEW_MS
    {
      ClientPushStamp(run, p, d);
    }
    ReceivedView(Settled(run.ServerVetoed(), run.serverPlan.recreated), run.ClientVetoed(), run.clientPlan.pushes,
                 run.clientPlan.send, run.toServer, run.serverNow, files, tombs, p);
    PushedPaths(run.clientPlan, run.ClientReceived(), run.client.manifest, run.server.manifest, false, p);
  }

  ghost predicate Ends(run: Session, p: Path) {
    && (!Stuck(run, p) ==> HashAt(run.ClientAfter(), p) == HashAt(run.ServerAfter(), p) == Outcome(run, p))
    && (Stuck(run, p) ==>
          HashAt(run.ClientAfter(), p) == HashAt(run.client, p) && HashAt(run.ServerAfter(), p) == HashAt(run.server, p))
  }

  lemma PathFacts(run: Session, p: Path)
    requires run.Ready(p) && run.Follows()
    ensures run.client.ledger.TombAt(p) == run.server.ledger.TombAt(p)
    ensures run.client.ledger.AliveSince(p) == run.server.ledger.AliveSince(p)
    ensures p in run.client.ledger.tombs ==> run.client.ledger.tombs[p].deletedAt > run.client.ledger.AliveSince(p) || run.client.ledger.AliveSince(p) == 0
    ensures p in run.server.manifest ==>
              && (Judge(run.server.ledger, run.server.manifest[p], p).Vetoed? <==>
                    run.server.ledger.HasNewerThan(p, run.server.manifest[p].modifiedMs)
                    && LooksDeleted(run.server.manifest[p], run.server.ledger.tombs[p]))
              && (Judge(run.server.ledger, run.server.manifest[p], p).Recreated? <==>
                    p in run.server.ledger.tombs && run.server.manifest[p].modifiedMs > run.server.ledger.tombs[p].deletedAt)
    ensures p in run.client.manifest ==>
              (Judge(run.ClientReceived().ledger, run.client.manifest[p], p).Vetoed? <==>
                 run.ClientReceived().ledger.HasNewerThan(p, run.client.manifest[p].modifiedMs)
                 && LooksDeleted(run.client.manifest[p], run.ClientReceived().ledger.tombs[p]))
  {
    FirstHalf(run, p);
    if p in run.server.manifest {
      JudgedBy(run.server.ledger, run.Tombs(), run.server.manifest[p], p);
    }
    if p in run.client.manifest {
      JudgedBy(run.ClientReceived().ledger, run.Tombs(), run.client.manifest[p], p);
    }
  }

  /** The server's half when the server offers its copy: deleted on both sides, refused, or delivered. */
  lemma ServerOffer(run: Session, p: Path)
    requires run.Ready(p) && run.Follows() && ShouldSend(run.server.manifest, run.client.manifest, true, p)
    ensures var w, l := run.server.manifest[p], run.server.ledger;
            if l.HasNewerThan(p, w.modifiedMs) then
              && ViewAt(run.ClientReceived(), p).tomb == ViewAt(run.client, p).tomb
              && if LooksDeleted(w, l.tombs[p]) then
                   p !in run.ServerVetoed().manifest && p !in run.ClientReceived().manifest
                 else
                   HashAt(run.ServerVetoed(), p) == Some(w.hash) && ViewAt(run.ClientReceived(), p) == ViewAt(run.client, p)
            else
              HashAt(run.ServerVetoed(), p) == Some(w.hash) && HashAt(run.ClientReceived(), p) == Some(w.hash)
  {
    if run.server.ledger.HasNewerThan(p, run.server.manifest[p].modifiedMs) {
      ServerOfferBeaten(run, p);
    } else {
      PathFacts(run, p);
      FirstHalf(run, p);
    }
  }

  /** A newer tombstone: the copy goes on both sides, or the server keeps it and the client refuses it. */
  lemma ServerOfferBeaten(run: Session, p: Path)
    requires run.Ready(p) && run.Follows() && ShouldSend(run.server.manifest, run.client.manifest, true, p)
    requires run.server.ledger.HasNewerThan(p, run.server.manifest[p].modifiedMs)
    ensures ViewAt(run.ClientReceived(), p).tomb == ViewAt(run.client, p).tomb
    ensures if LooksDeleted(run.server.manifest[p], run.server.ledger.tombs[p]) then
              p !in run.ServerVetoed().manifest && p !in run.ClientReceived().manifest
            else
              && HashAt(run.ServerVetoed(), p) == Some(run.server.manifest[p].hash)
              && ViewAt(run.ClientReceived(), p) == ViewAt(run.client, p)
  {
    PathFacts(run, p);
    FirstHalf(run, p);
  }

  lemma OfferedByServer(run: Session, p: Path)
    requires run.Ready(p) && run.Follows() && ShouldSend(run.server.manifest, run.client.manifest, true, p)
    ensures Ends(run, p)
  {
    ServerOffer(run, p);
    PathFacts(run, p);
    SecondHalf(run, p);
    assert !ShouldSend(run.client.manifest, run.server.manifest, false, p);
    assert HashAt(run.ClientAfter(), p) == HashAt(run.ClientReceived(), p);
    assert p !in run.clientPlan.send;
  }

  /** The server's half when the client is to offer its copy: at most a missed delete reaches the client. */
  lemma ClientOffer(run: Session, p: Path)
    requires run.Ready(p) && run.Follows() && ShouldSend(run.client.manifest, run.server.manifest, false, p)
    ensures ViewAt(run.ServerVetoed(), p) == ViewAt(run.server, p) && p !in run.serverPlan.recreated
    ensures ViewAt(run.ClientReceived(), p) ==
            if p !in run.server.manifest && run.client.ledger.HasNewerThan(p, run.client.manifest[p].modifiedMs)
            then ViewAt(run.client, p).(file := None)
            else ViewAt(run.client, p)
  {
    PathFacts(run, p);
    FirstHalf(run, p);
    assert p !in run.serverPlan.send;
  }

  lemma OfferRefused(run: Session, p: Path)
    requires run.Ready(p) && run.Follows() && ShouldSend(run.client.manifest, run.server.manifest, false, p)
    requires run.client.ledger.HasNewerThan(p, run.client.manifest[p].modifiedMs)
    ensures Ends(run, p)
  {
    ClientOffer(run, p);
    PathFacts(run, p);
    SecondHalf(run, p);
    RefusedWrite(run, p);
  }

  /** The server's tombstone turns the client's copy away. */
  lemma RefusedWrite(run: Session, p: Path)
    requires run.Ready(p) && run.Follows() && ShouldSend(run.client.manifest, run.server.manifest, false, p)
    requires run.client.ledger.HasNewerThan(p, run.client.manifest[p].modifiedMs)
    ensures var settled := ViewAt(Settled(run.ServerVetoed(), run.serverPlan.recreated), p);
            p in run.ClientVetoed().disk ==> settled.Wrote(DataOf(run.ClientVetoed(), p)) == settled
  {
    ClientOffer(run, p);
    PathFacts(run, p);
    SecondHalf(run, p);
    ServerSettled(run, p);
  }

  lemma OfferAccepted(run: Session, p: Path)
    requires run.Ready(p) && run.Follows() && ShouldSend(run.client.manifest, run.server.manifest, false, p)
    requires !run.client.ledger.HasNewerThan(p, run.client.manifest[p].modifiedMs)
    ensures Ends(run, p)
  {
    CopyKept(run, p);
    CopyTaken(run, p);
  }

  /** The client still holds and sends its copy in its half. */
  lemma CopyKept(run: Session, p: Path)
    requires run.Ready(p) && run.Follows() && ShouldSend(run.client.manifest, run.server.manifest, false, p)
    requires !run.client.ledger.HasNewerThan(p, run.client.manifest[p].modifiedMs)
    ensures p in run.clientPlan.send && p in run.ClientVetoed().manifest && p in run.ClientVetoed().disk
    ensures DataOf(run.ClientVetoed(), p).meta == run.client.manifest[p]
    ensures HashAt(run.ClientAfter(), p) == Some(run.client.manifest[p].hash)
  {
    ClientOffer(run, p);
    PathFacts(run, p);
    SecondHalf(run, p);
    assert !Loses(run.ClientReceived().ledger, run.client.manifest, run.server.manifest, false, p);
  }

  lemma CopyTaken(run: Session, p: Path)
    requires run.Ready(p) && run.Follows() && ShouldSend(run.client.manifest, run.server.manifest, false, p)
    requires !run.client.ledger.HasNewerThan(p, run.client.manifest[p].modifiedMs)
    ensures HashAt(run.ServerAfter(), p) == Some(run.client.manifest[p].hash)
  {
    CopyKept(run, p);
    ClientOffer(run, p);
    PathFacts(run, p);
    SecondHalf(run, p);
    ServerSettled(run, p);
    Written(ViewAt(Settled(run.ServerVetoed(), run.serverPlan.recreated), p), DataOf(run.ClientVetoed(), p));
  }

  /** A write stamped at least as new as its file's mtime goes through unless a newer tombstone stands. */
  lemma Written(v: View, fd: FileData)
    requires fd.actionMs.Some? ==> fd.actionMs.value >= fd.meta.modifiedMs
    requires v.tomb.Some? ==> v.tomb.value.deletedAt <= fd.meta.modifiedMs
    ensures v.Wrote(fd).file == Some(fd.meta) && v.(file := None).Wrote(fd).file == Some(fd.meta)
  {
  }

  lemma OfferedByNeither(run: Session, p: Path)
    requires run.Ready(p) && run.Follows()
    requires !ShouldSend(run.server.manifest, run.client.manifest, true, p)
    requires !ShouldSend(run.client.manifest, run.server.manifest, false, p)
    ensures Ends(run, p)
  {
    FirstHalf(run, p);
    SecondHalf(run, p);
    ServerSettled(run, p);
  }

  /**
   A completed session makes the two sides agree at a path exactly when it is not stuck, and then on the
   last writer's content; a stuck path keeps its two copies. Listing and disk still agree there.
   */
  lemma Converges(run: Session, p: Path)
    requires run.Ready(p) && run.Follows() && run.Completes()
    ensures HashAt(run.ClientAfter(), p) == HashAt(run.ServerAfter(), p) <==> !Stuck(run, p)
    ensures !Stuck(run, p) ==> HashAt(run.ServerAfter(), p) == Outcome(run, p)
    ensures Stuck(run, p) ==>
              HashAt(run.ClientAfter(), p) == HashAt(run.client, p) && HashAt(run.ServerAfter(), p) == HashAt(run.server, p)
    ensures Fits(run.ClientAfter(), run.Files(), run.Tombs(), p) && Fits(run.ServerAfter(), run.Files(), run.Tombs(), p)
  {
    SecondHalf(run, p);
    PathEnds(run, p);
  }

  lemma PathEnds(run: Session, p: Path)
    requires run.Ready(p) && run.Follows()
    ensures Ends(run, p)
  {
    if ShouldSend(run.server.manifest, run.client.manifest, true, p) {
      OfferedByServer(run, p);
    } else if ShouldSend(run.client.manifest, run.server.manifest, false, p) {
      if run.client.ledger.HasNewerThan(p, run.client.manifest[p].modifiedMs) {
        OfferRefused(run, p);
      } else {
        OfferAccepted(run, p);
      }
    } else {
      OfferedByNeither(run, p);
    }
  }

  /** A tombstone that lacks a part of the previous-version information. */
  predicate Plain(t: Tombstone) {
    t.prevHash.None? || t.prevMtime.None?
  }

  /** Where every file is exposed and tombstones are plain, one session makes the manifests equal in paths and hashes. */
  lemma PlainTombstonesConverge(run: Session)
    requires run.Follows() && run.Completes() && forall p :: p in run.Files() ==> run.Ready(p)
    requires forall p :: p in run.client.ledger.tombs ==> Plain(run.client.ledger.tombs[p])
    requires forall p :: p in run.server.ledger.tombs ==> Plain(run.server.ledger.tombs[p])
    ensures run.ClientAfter().manifest.Keys == run.ServerAfter().manifest.Keys
    ensures forall p :: p in run.ClientAfter().manifest ==> run.ClientAfter().manifest[p].hash == run.ServerAfter().manifest[p].hash
  {
    AfterKeys(run);
    forall p
      ensures p in run.ClientAfter().manifest <==> p in run.ServerAfter().manifest
      ensures p in run.ClientAfter().manifest ==> run.ClientAfter().manifest[p].hash == run.ServerAfter().manifest[p].hash
    {
      if p in run.Files() {
        assert run.Ready(p);
        PlainAgrees(run, p);
      }
    }
  }

  lemma PlainAgrees(run: Session, p: Path)
    requires run.Follows() && run.Completes() && run.Ready(p)
    requires p in run.client.ledger.tombs ==> Plain(run.client.ledger.tombs[p])
    requires p in run.server.ledger.tombs ==> Plain(run.server.ledger.tombs[p])
    ensures HashAt(run.ClientAfter(), p) == HashAt(run.ServerAfter(), p)
  {
    Converges(run, p);
  }

  ghost predicate Within(n: Node, files: set<Path>) {
    n.manifest.Keys <= files && n.disk.Keys <= files
  }

  lemma {:induction false} DeleteEachWithin(n: Node, ds: seq<Deletion>, files: set<Path>)
    requires Within(n, files)
    ensures Within(DeleteEach(n, ds), files)
  {
    if ds != [] {
      DeleteEachWithin(n, ds[..|ds| - 1], files);
    }
  }

  lemma {:induction false} WriteFilesWithin(n: Node, fds: seq<FileData>, files: set<Path>)
    requires Within(n, files) && forall fd :: fd in fds ==> fd.path in files
    ensures Within(WriteFiles(n, fds), files)
  {
    if fds != [] {
      assert fds[|fds| - 1] in fds;
      WriteFilesWithin(n, fds[..|fds| - 1], files);
    }
  }

  /** A session brings no path that neither side held. */
  lemma AfterKeys(run: Session)
    requires run.Follows()
    ensures Within(run.ClientAfter(), run.Files()) && Within(run.ServerAfter(), run.Files())
  {
    var files := run.Files();
    DeleteEachWithin(run.server, run.serverPlan.vetoes, files);
    var pushed := Clamped(run.serverPlan.pushes, run.clientNow);
    DeleteEachWithin(run.client, pushed, files);
    WriteFilesWithin(DeleteEach(run.client, pushed), run.toClient, files);
    DeleteEachWithin(run.ClientReceived(), run.clientPlan.vetoes, files);
    var settled, back := Settled(run.ServerVetoed(), run.serverPlan.recreated), Clamped(run.clientPlan.pushes, run.serverNow);
    DeleteEachWithin(settled, back, files);
    WriteFilesWithin(DeleteEach(settled, back), run.toServer, files);
  }

  /** Between two sides with the same content nothing is sent, deleted or pushed, whatever the ledgers hold. */
  lemma AgreementIsQuiet(plan: Plan, me: Node, peer: Node, isServer: bool)
    requires me.manifest.Keys == peer.manifest.Keys
    requires forall p :: p in me.manifest ==> me.manifest[p].hash == peer.manifest[p].hash
    requires PlanOf(plan, me, me.manifest, peer.manifest, isServer)
    ensures plan == Plan([], [], [], [])
  {
    assert forall p :: !ShouldSend(me.manifest, peer.manifest, isServer, p);
    if plan.vetoes != [] {
      HasMember(plan.vetoes);
      assert false;
    }
    if plan.send != [] {
      HasMember(plan.send);
      assert false;
    }
    if plan.recreated != [] {
      HasMember(plan.recreated);
      assert false;
    }
    if plan.pushes != [] {
      HasMember(plan.pushes);
      assert false;
    }
  }

  lemma HasMember<T(!new)>(xs: seq<T>)
    requires xs != []
    ensures exists x :: x in xs
  {
    assert xs[0] in xs;
  }

  const EDITED: Path := ["a"]

  function Stamped(tag: Byte, mtime: nat): Meta {
    Meta(EDITED, 1, [tag], mtime, false)
  }

  /** Both sides edited `a` at 20 and 30; a tombstone from 40 remembers a third version from 10. */
  function StuckRun(): Session {
    var l := Ledger(map[EDITED := Tombstone(EDITED, 40, "peer", Some(Hex([0])), Some(10))], map[]);
    var c, s := map[EDITED := Stamped(1, 20)], map[EDITED := Stamped(2, 30)];
    Session(Node(c, c, l), Node(s, s, l), 0, 0,
            Plan([], [], [EDITED], []), [FileData(EDITED, Stamped(2, 30), None)], Plan([], [], [], []), [])
  }

  lemma StuckRunStarts()
    ensures StuckRun().Ready(EDITED) && Stuck(StuckRun(), EDITED)
  {
    var run := StuckRun();
    assert Hex([2 as Byte]) == HexByte(2) && Hex([0 as Byte]) == HexByte(0);
    assert HexByte(2)[1] == '2' && HexByte(0)[1] == '0';
    assert run.client.ledger.Valid();
  }

  lemma StuckServerHalf()
    ensures var run := StuckRun();
            && PlanOf(run.serverPlan, run.server, run.server.manifest, run.client.manifest, true)
            && PayloadOf(run.ServerVetoed(), run.serverPlan.send, run.toClient)
  {
    var run := StuckRun();
    StuckRunStarts();
    assert run.ServerVetoed() == run.server;
    assert ShouldSend(run.server.manifest, run.client.manifest, true, EDITED);
    assert Judge(run.server.ledger, Stamped(2, 30), EDITED).Pass?;
    assert DataOf(run.server, EDITED) == run.toClient[0];
  }

  lemma StuckClientHalf()
    ensures var run := StuckRun();
            && PlanOf(run.clientPlan, run.ClientReceived(), run.client.manifest, run.server.manifest, false)
            && PayloadOf(run.ClientVetoed(), run.clientPlan.send, run.toServer)
  {
    var run := StuckRun();
    StuckRunStarts();
    CoverExact(run.client.ledger, run.Tombs(), EDITED);
    assert run.toClient[..0] == [];
    assert run.ClientReceived() == run.client;
    assert forall p :: !ShouldSend(run.client.manifest, run.server.manifest, false, p);
  }

  lemma StuckCompletes()
    ensures StuckRun().Completes()
  {
    var run := StuckRun();
    assert run.toClient[..0] == [] && |EDITED| == 1;
    assert run.ClientSwept() == run.client && !Clashes(run.client.disk, run.toClient[0]);
  }

  /** The stuck case is real: a complete session after which the two sides still differ. */
  lemma SessionCanDiverge()
    ensures StuckRun().Ready(EDITED) && StuckRun().Follows() && StuckRun().Completes()
    ensures HashAt(StuckRun().ClientAfter(), EDITED) != HashAt(StuckRun().ServerAfter(), EDITED)
  {
    StuckRunStarts();
    StuckServerHalf();
    StuckClientHalf();
    StuckCompletes();
    Converges(StuckRun(), EDITED);
  }
}
