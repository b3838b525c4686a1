/** Paths below a tombstoned directory: when they end alike, when not, and what a deleted directory takes along. */
module Shade {
  import opened Paths
  import opened Wrappers
  import opened Ledgers
  import opened LedgerExchange
  import opened Engine
  import opened Reconcile
  import opened Convergence
  import opened Completion

  // ---- A path under tombstoned directories that are there to stay ----

  ghost predicate Above(q: Path, p: Path) {
    StartsWith(p, q) && q != p
  }

  ghost predicate ListedAsStored(n: Node, p: Path) {
    (p in n.manifest <==> p in n.disk) && (p in n.manifest ==> n.manifest[p] == n.disk[p])
  }

  /** Both sides list `q`, with the same hash. */
  predicate Shared(run: Session, q: Path) {
    q in run.client.manifest && q in run.server.manifest && run.client.manifest[q].hash == run.server.manifest[q].hash
  }

  /** Of the two sides only `here` lists `q`, at least as new as its tombstone, and nothing at `p` is listed there. */
  predicate BackOn(here: Node, there: Node, q: Path, p: Path) {
    && q in here.manifest && q in here.disk && here.disk[q] == here.manifest[q]
    && (q in here.ledger.tombs ==> here.manifest[q].modifiedMs >= here.ledger.tombs[q].deletedAt)
    && q !in there.manifest && p !in there.manifest
  }

  predicate Tombstoned(run: Session, q: Path) {
    q in run.client.ledger.tombs || q in run.server.ledger.tombs
  }

  /** No tombstone of its own; every tombstoned directory above it is listed alike on both sides, or is back on one. */
  ghost predicate Shaded(run: Session, p: Path) {
    && run.client.ledger.Valid() && run.server.ledger.Valid() && !Tombstoned(run, p)
    && run.client.ledger.AliveSince(p) == run.server.ledger.AliveSince(p)
    && ListedAsStored(run.client, p) && ListedAsStored(run.server, p)
    && forall q :: Above(q, p) && Tombstoned(run, q) ==>
         && run.client.ledger.TombAt(q) == run.server.ledger.TombAt(q)
         && (Shared(run, q) || BackOn(run.client, run.server, q, p) || BackOn(run.server, run.client, q, p))
  }

  /** A ledger without the tombstones of some paths. */
  function Without(l: Ledger, paths: set<Path>): Ledger {
    l.(tombs := l.tombs - paths)
  }

  function Minus(n: Node, paths: set<Path>): Node {
    n.(ledger := Without(n.ledger, paths))
  }

  /** As far as `p` is concerned `n` still stands where `m` stood: the tombstones above `p` and the listing of their paths. */
  ghost predicate Stands(n: Node, m: Node, p: Path) {
    && n.ledger.Valid() && p !in n.ledger.tombs && p !in m.ledger.tombs && ListedAsStored(n, p)
    && forall q :: Above(q, p) ==>
         n.ledger.TombAt(q) == m.ledger.TombAt(q) && (q in m.ledger.tombs && q in m.manifest ==> q in n.manifest)
  }

  /** A delete elsewhere leaves a path alone: listing, disk and records. */
  lemma DeleteAside(n: Node, d: Deletion, q: Path)
    requires n.ledger.Valid() && !StartsWith(q, d.path)
    ensures var after := DeletePath(n, d.path, d.at, d.deleter);
            && ViewAt(after, q) == ViewAt(n, q) && after.ledger.Valid()
            && (q in after.disk <==> q in n.disk) && (q in after.disk ==> after.disk[q] == n.disk[q])
  {
    forall t | t in Subtree(n.manifest, d.path)
      ensures !StartsWith(q, t)
    {
      if StartsWith(q, t) {
        StartsWithTransitive(q, t, d.path);
        assert false;
      }
    }
  }

  lemma AboveAside(q: Path, p: Path, r: Path)
    requires Above(q, p) && !StartsWith(p, r)
    ensures !StartsWith(q, r)
  {
    if StartsWith(q, r) {
      StartsWithTransitive(p, q, r);
      assert false;
    }
  }

  lemma {:induction false} DeleteEachAside(n: Node, m: Node, ds: seq<Deletion>, p: Path)
    requires Stands(n, m, p) && forall d :: d in ds ==> !StartsWith(p, d.path)
    ensures Stands(DeleteEach(n, ds), m, p) && ViewAt(DeleteEach(n, ds), p) == ViewAt(n, p)
  {
    if ds != [] {
      var d, init := ds[|ds| - 1], ds[..|ds| - 1];
      assert ds == init + [d];
      DeleteEachAside(n, m, init, p);
      var before := DeleteEach(n, init);
      DeleteAside(before, d, p);
      forall q | Above(q, p)
        ensures DeleteEach(n, ds).ledger.TombAt(q) == m.ledger.TombAt(q)
        ensures q in m.ledger.tombs && q in m.manifest ==> q in DeleteEach(n, ds).manifest
      {
        AboveAside(q, p, d.path);
        DeleteAside(before, d, q);
        assert before.ledger.TombAt(q) == m.ledger.TombAt(q);
      }
    }
  }

  /** The stamp a write is judged by. */
  function Comparand(fd: FileData): nat {
    if fd.actionMs.Some? then fd.actionMs.value else fd.meta.modifiedMs
  }

  /** An admitted write lifts the tombstone of its own path, unless it is a catch-up write just as old. */
  predicate LiftsOwn(fd: FileData, deletedAt: nat) {
    match fd.actionMs
    case Some(at) => at > 0 && deletedAt <= at
    case None => deletedAt < fd.meta.modifiedMs
  }

  /** The tombstones above `p` that some files lift on their arrival. */
  ghost function LiftedBy(l: Ledger, fds: seq<FileData>, p: Path): set<Path> {
    set fd | fd in fds && Above(fd.path, p) && fd.path in l.tombs && LiftsOwn(fd, l.tombs[fd.path].deletedAt) :: fd.path
  }

  /** What covers `p` once those files have arrived. */
  ghost function CoverBehind(l: Ledger, fds: seq<FileData>, p: Path): Option<nat> {
    Without(l, LiftedBy(l, fds, p)).CoverAt(p)
  }

  /** What covers `p` when its own file has its turn. */
  ghost function CoverInTurn(l: Ledger, fds: seq<FileData>, p: Path): Option<nat> {
    CoverBehind(l, fds[..Turn(fds, p)], p)
  }

  /** A write at `p` is taken unless the tombstone that covers `p` is newer. */
  function Covered(v: View, cover: Option<nat>, fd: FileData): Option<Meta> {
    if cover.Some? && cover.value > Comparand(fd) then v.file else Some(fd.meta)
  }

  lemma WriteAside(n: Node, m: Node, fd: FileData, p: Path)
    requires Stands(n, m, p) && (Above(fd.path, p) ==> fd.path !in n.ledger.tombs)
    ensures Stands(WriteFile(n, fd), m, p)
    ensures fd.path != p ==> ViewAt(WriteFile(n, fd), p) == ViewAt(n, p)
    ensures fd.path == p ==> ViewAt(WriteFile(n, fd), p).file == Covered(ViewAt(n, p), n.ledger.CoverAt(p), fd)
  {
    AdmitAt(n.ledger, fd, p);
    forall q | Above(q, p)
      ensures WriteFile(n, fd).ledger.TombAt(q) == m.ledger.TombAt(q)
    {
      AdmitAt(n.ledger, fd, q);
      assert n.ledger.TombAt(q) == m.ledger.TombAt(q);
    }
  }

  /** A write at least as new as the tombstone of its own path is admitted, and lifts it or not. */
  lemma AdmittedBack(l: Ledger, fd: FileData)
    requires l.Valid() && fd.path in l.tombs && Comparand(fd) >= l.tombs[fd.path].deletedAt
    ensures VetoFor(l, fd.path, fd.actionMs, fd.meta.modifiedMs).None?
    ensures fd.path in AdmitRecord(l, fd.path, fd.actionMs, fd.meta.modifiedMs).tombs <==> !LiftsOwn(fd, l.tombs[fd.path].deletedAt)
  {
    if fd.path != [] {
      ExactTombstoneWins(l, fd.path);
    }
  }

  /** A tombstoned directory above `p` arrives: its own tombstone goes or stays, nothing else changes for `p`. */
  lemma WriteBack(n: Node, m: Node, fd: FileData, p: Path)
    requires Stands(n, m, p) && Above(fd.path, p) && fd.path in n.ledger.tombs
    requires Comparand(fd) >= n.ledger.tombs[fd.path].deletedAt
    ensures LiftsOwn(fd, n.ledger.tombs[fd.path].deletedAt) ==> Stands(WriteFile(n, fd), Minus(m, {fd.path}), p)
    ensures !LiftsOwn(fd, n.ledger.tombs[fd.path].deletedAt) ==> Stands(WriteFile(n, fd), m, p)
    ensures ViewAt(WriteFile(n, fd), p) == ViewAt(n, p)
  {
    AdmitAt(n.ledger, fd, p);
    forall q | Above(q, p)
      ensures n.ledger.TombAt(q) == m.ledger.TombAt(q)
      ensures WriteFile(n, fd).ledger.TombAt(q) ==
              if q == fd.path && LiftsOwn(fd, n.ledger.tombs[fd.path].deletedAt) then None else n.ledger.TombAt(q)
    {
      TombBehindWrite(n, fd, q);
    }
  }

  lemma TombBehindWrite(n: Node, fd: FileData, q: Path)
    requires n.ledger.Valid() && fd.path in n.ledger.tombs && Comparand(fd) >= n.ledger.tombs[fd.path].deletedAt
    ensures WriteFile(n, fd).ledger.TombAt(q) ==
            if q == fd.path && LiftsOwn(fd, n.ledger.tombs[fd.path].deletedAt) then None else n.ledger.TombAt(q)
  {
    AdmittedBack(n.ledger, fd);
    AdmitAt(n.ledger, fd, q);
  }

  /** Every file above `p` is at least as new as the tombstone of its path. */
  ghost predicate ComeBack(l: Ledger, fds: seq<FileData>, p: Path) {
    forall fd :: fd in fds && Above(fd.path, p) && fd.path in l.tombs ==> Comparand(fd) >= l.tombs[fd.path].deletedAt
  }

  ghost predicate PathsApart(fds: seq<FileData>) {
    forall i, j :: 0 <= i < j < |fds| ==> fds[i].path != fds[j].path
  }

  lemma LiftedOneMore(l: Ledger, fds: seq<FileData>, fd: FileData, p: Path)
    requires forall f :: f in fds ==> f.path != fd.path
    ensures fd.path !in LiftedBy(l, fds, p)
    ensures LiftedBy(l, fds + [fd], p) ==
            LiftedBy(l, fds, p) +
            if Above(fd.path, p) && fd.path in l.tombs && LiftsOwn(fd, l.tombs[fd.path].deletedAt) then {fd.path} else {}
  {
    assert fd in fds + [fd];
  }

  /** One more file: what `p` sees of it. */
  lemma OneMoreAside(n: Node, m: Node, fds: seq<FileData>, fd: FileData, p: Path)
    requires Stands(n, Minus(m, LiftedBy(m.ledger, fds, p)), p) && ComeBack(m.ledger, fds + [fd], p)
    requires forall f :: f in fds ==> f.path != fd.path
    ensures Stands(WriteFile(n, fd), Minus(m, LiftedBy(m.ledger, fds + [fd], p)), p)
    ensures fd.path != p ==> ViewAt(WriteFile(n, fd), p) == ViewAt(n, p)
    ensures fd.path == p ==> ViewAt(WriteFile(n, fd), p).file == Covered(ViewAt(n, p), n.ledger.CoverAt(p), fd)
  {
    LiftedOneMore(m.ledger, fds, fd, p);
    TombNow(n, m, LiftedBy(m.ledger, fds, p), fd.path, p);
    if Above(fd.path, p) && fd.path in m.ledger.tombs {
      assert fd in fds + [fd];
      WriteBack(n, Minus(m, LiftedBy(m.ledger, fds, p)), fd, p);
      MinusOneMore(m, LiftedBy(m.ledger, fds, p), fd.path);
    } else {
      WriteAside(n, Minus(m, LiftedBy(m.ledger, fds, p)), fd, p);
    }
  }

  lemma TombNow(n: Node, m: Node, gone: set<Path>, q: Path, p: Path)
    requires Stands(n, Minus(m, gone), p) && q !in gone
    ensures Above(q, p) ==> n.ledger.TombAt(q) == m.ledger.TombAt(q)
  {
  }

  lemma MinusOneMore(m: Node, gone: set<Path>, q: Path)
    ensures Minus(Minus(m, gone), {q}) == Minus(m, gone + {q})
  {
    assert (m.ledger.tombs - gone) - {q} == m.ledger.tombs - (gone + {q});
  }

  /** The files one after the other lift some of the tombstones above `p`. */
  lemma {:induction false} WritesAside(n: Node, m: Node, fds: seq<FileData>, p: Path)
    requires Stands(n, m, p) && ComeBack(m.ledger, fds, p) && PathsApart(fds)
    ensures Stands(WriteFiles(n, fds), Minus(m, LiftedBy(m.ledger, fds, p)), p)
    ensures (forall fd :: fd in fds ==> fd.path != p) ==> ViewAt(WriteFiles(n, fds), p) == ViewAt(n, p)
  {
    if fds == [] {
      assert LiftedBy(m.ledger, fds, p) == {} && Minus(m, {}) == m;
    } else {
      var init, last := fds[..|fds| - 1], fds[|fds| - 1];
      assert fds == init + [last];
      WritesAside(n, m, init, p);
      OneMoreAside(WriteFiles(n, init), m, init, last, p);
    }
  }

  /** The file of `p` is judged by the tombstones above it that the files before it left. */
  lemma {:induction false} TakenInTurn(n: Node, m: Node, fds: seq<FileData>, k: nat, p: Path)
    requires Stands(n, m, p) && m.ledger.Valid() && n.ledger.AliveSince(p) == m.ledger.AliveSince(p)
    requires ComeBack(m.ledger, fds, p) && PathsApart(fds) && k < |fds| && fds[k].path == p
    ensures ViewAt(WriteFiles(n, fds), p).file == Covered(ViewAt(n, p), CoverBehind(m.ledger, fds[..k], p), fds[k])
  {
    var init, last := fds[..|fds| - 1], fds[|fds| - 1];
    assert fds == init + [last];
    if k < |init| {
      TakenInTurn(n, m, init, k, p);
      assert fds[..k] == init[..k] && init[k] == fds[k];
      assert last.path != p;
    } else {
      assert fds[..k] == init;
      TakenLast(n, m, init, last, p);
    }
  }

  lemma TakenLast(n: Node, m: Node, init: seq<FileData>, last: FileData, p: Path)
    requires Stands(n, m, p) && m.ledger.Valid() && n.ledger.AliveSince(p) == m.ledger.AliveSince(p)
    requires ComeBack(m.ledger, init, p) && PathsApart(init) && last.path == p && forall fd :: fd in init ==> fd.path != p
    ensures ViewAt(WriteFile(WriteFiles(n, init), last), p).file == Covered(ViewAt(n, p), CoverBehind(m.ledger, init, p), last)
  {
    var before, left := WriteFiles(n, init), Minus(m, LiftedBy(m.ledger, init, p));
    WritesAside(n, m, init, p);
    CoverStands(before, left, p);
    WriteAside(before, left, last, p);
  }

  /** A node that stands where `m` stood, with the same live record at `p`, is covered as `m` was. */
  lemma CoverStands(a: Node, m: Node, p: Path)
    requires Stands(a, m, p) && m.ledger.Valid() && a.ledger.AliveSince(p) == m.ledger.AliveSince(p)
    ensures a.ledger.CoverAt(p) == m.ledger.CoverAt(p)
  {
    forall q | StartsWith(p, q)
      ensures a.ledger.TombAt(q) == m.ledger.TombAt(q)
    {
      if q != p {
        assert Above(q, p);
      }
    }
    SameCover(a.ledger, m.ledger, p);
  }

  // ---- The two halves ----

  /** Offered and not beaten by the tombstone that covers it. */
  predicate Sends(local: Manifest, remote: Manifest, isServer: bool, cover: Option<nat>, p: Path) {
    ShouldSend(local, remote, isServer, p) && Reaches(cover, local[p].modifiedMs)
  }

  predicate Reaches(cover: Option<nat>, mtime: nat) {
    cover.None? || cover.value <= mtime
  }

  lemma JudgedByCover(l: Ledger, meta: Meta, p: Path)
    requires p !in l.tombs
    ensures Judge(l, meta, p).Vetoed? <==> !Reaches(l.CoverAt(p), meta.modifiedMs)
  {
  }

  /** A tombstoned path that is neither deleted here nor pushed to the peer. */
  predicate LeftAlone(was: Node, judged: Manifest, remote: Manifest, isServer: bool, q: Path)
    requires q in was.ledger.tombs
  {
    && (ShouldSend(judged, remote, isServer, q) ==> judged[q].modifiedMs >= was.ledger.tombs[q].deletedAt)
    && (q in remote && was.ledger.tombs[q].deletedAt > remote[q].modifiedMs ==> q in was.manifest)
  }

  /** A side that stands where it stood plans no delete at or above `p`, and sends `p` exactly when nothing beats it. */
  lemma PlansAside(plan: Plan, me: Node, was: Node, judged: Manifest, remote: Manifest, isServer: bool, p: Path)
    requires PlanOf(plan, me, judged, remote, isServer) && Stands(me, was, p)
    requires forall q :: Above(q, p) && q in was.ledger.tombs ==> LeftAlone(was, judged, remote, isServer, q)
    ensures Stands(DeleteEach(me, plan.vetoes), was, p) && ViewAt(DeleteEach(me, plan.vetoes), p) == ViewAt(me, p)
    ensures forall d :: d in plan.pushes ==> !StartsWith(p, d.path)
    ensures p in plan.send <==> Sends(judged, remote, isServer, me.ledger.CoverAt(p), p)
  {
    forall q | Above(q, p) && q in me.ledger.tombs
      ensures q in was.ledger.tombs && LeftAlone(was, judged, remote, isServer, q)
      ensures me.ledger.tombs[q].deletedAt == was.ledger.tombs[q].deletedAt
    {
      assert me.ledger.TombAt(q) == was.ledger.TombAt(q);
    }
    forall d | d in plan.vetoes
      ensures !StartsWith(p, d.path)
    {
      if StartsWith(p, d.path) {
        assert Above(d.path, p);
        assert false;
      }
    }
    DeleteEachAside(me, was, plan.vetoes, p);
    forall d | d in plan.pushes
      ensures !StartsWith(p, d.path)
    {
      if StartsWith(p, d.path) {
        assert false;
      }
    }
    if p in judged {
      JudgedByCover(me.ledger, judged[p], p);
    }
  }

  /** Deletes and files from the peer, none of the deletes at or above `p`. */
  lemma ReceivesAside(n: Node, was: Node, sender: Node, pushes: seq<Deletion>, send: seq<Path>, fds: seq<FileData>, now: nat, p: Path)
    requires Stands(n, was, p) && PayloadOf(sender, send, fds) && ComeBack(was.ledger, fds, p)
    requires forall d :: d in pushes ==> !StartsWith(p, d.path)
    ensures Stands(Received(n, pushes, fds, now), Minus(was, LiftedBy(was.ledger, fds, p)), p)
    ensures !(p in send && p in sender.disk) ==> ViewAt(Received(n, pushes, fds, now), p) == ViewAt(n, p)
  {
    ClampedAt(pushes, now);
    DeleteEachAside(n, was, Clamped(pushes, now), p);
    PayloadApart(sender, send, fds);
    WritesAside(DeleteEach(n, Clamped(pushes, now)), was, fds, p);
  }

  lemma ReceivesCopy(n: Node, was: Node, sender: Node, pushes: seq<Deletion>, send: seq<Path>, fds: seq<FileData>, now: nat, p: Path)
    requires Stands(n, was, p) && was.ledger.Valid() && n.ledger.AliveSince(p) == was.ledger.AliveSince(p)
    requires PayloadOf(sender, send, fds) && ComeBack(was.ledger, fds, p)
    requires forall d :: d in pushes ==> !StartsWith(p, d.path)
    requires p in send && p in sender.disk
    ensures Turn(fds, p) < |fds|
    ensures ViewAt(Received(n, pushes, fds, now), p).file ==
            Covered(ViewAt(n, p), CoverInTurn(was.ledger, fds, p), DataOf(sender, p))
  {
    ClampedAt(pushes, now);
    DeleteEachAside(n, was, Clamped(pushes, now), p);
    PayloadApart(sender, send, fds);
    assert DataOf(sender, p) in fds;
    var k := Turn(fds, p);
    assert fds[k] in fds;
    TakenInTurn(DeleteEach(n, Clamped(pushes, now)), was, fds, k, p);
  }

  lemma PayloadApart(sender: Node, send: seq<Path>, fds: seq<FileData>)
    requires PayloadOf(sender, send, fds)
    ensures PathsApart(fds)
  {
    forall i, j | 0 <= i < j < |fds|
      ensures fds[i].path != fds[j].path
    {
      assert fds[i] in fds && fds[j] in fds;
    }
  }

  /** Position of the file of `p`, or the length when there is none. */
  function Turn(fds: seq<FileData>, p: Path): (k: nat)
    ensures k <= |fds| && (k < |fds| ==> fds[k].path == p)
    ensures forall i :: 0 <= i < k ==> fds[i].path != p
  {
    if fds == [] || fds[0].path == p then 0 else 1 + Turn(fds[1..], p)
  }

  /** Lifting the tombstones of recreated paths, none of them above `p`. */
  lemma LiftsAside(n: Node, was: Node, recreated: seq<Path>, p: Path)
    requires Stands(n, was, p) && forall q :: q in recreated && Above(q, p) ==> q !in was.ledger.tombs
    ensures Stands(Settled(n, recreated), was, p) && ViewAt(Settled(n, recreated), p) == ViewAt(n, p)
  {
    LiftedView(n.ledger, recreated, p);
    forall q | Above(q, p)
      ensures Settled(n, recreated).ledger.TombAt(q) == was.ledger.TombAt(q)
    {
      LiftedView(n.ledger, recreated, q);
      assert n.ledger.TombAt(q) == was.ledger.TombAt(q);
    }
  }

  /** The same when some are. */
  lemma LiftsAbove(n: Node, was: Node, recreated: seq<Path>, p: Path)
    requires Stands(n, was, p)
    ensures Stands(Settled(n, recreated), Minus(was, set q | q in recreated), p)
    ensures ViewAt(Settled(n, recreated), p) == ViewAt(n, p)
  {
    LiftedView(n.ledger, recreated, p);
    forall q | Above(q, p)
      ensures Settled(n, recreated).ledger.TombAt(q) == Minus(was, set q | q in recreated).ledger.TombAt(q)
    {
      LiftedView(n.ledger, recreated, q);
      assert n.ledger.TombAt(q) == was.ledger.TombAt(q);
    }
  }

  lemma SameCoverAtStart(run: Session, p: Path)
    requires Shaded(run, p)
    ensures run.client.ledger.CoverAt(p) == run.server.ledger.CoverAt(p)
    ensures Stands(run.client, run.client, p) && Stands(run.server, run.server, p)
  {
    forall q | StartsWith(p, q)
      ensures run.client.ledger.TombAt(q) == run.server.ledger.TombAt(q)
    {
      if q != p && Tombstoned(run, q) {
        assert Above(q, p);
      }
    }
    SameCover(run.client.ledger, run.server.ledger, p);
  }

  function FileAt(m: Manifest, p: Path): Option<Meta> {
    if p in m then Some(m[p]) else None
  }

  /** A stamped or plain copy of a covered path is taken exactly when its mtime is not older than the cover. */
  lemma TakenByMtime(v: View, l: Ledger, sender: Node, p: Path)
    requires l.Valid() && p in sender.disk && l.AliveSince(p) == sender.ledger.AliveSince(p)
    ensures Covered(v, l.CoverAt(p), DataOf(sender, p)) ==
            if Reaches(l.CoverAt(p), sender.disk[p].modifiedMs) then Some(sender.disk[p]) else v.file
  {
    CoverNearest(l, p);
  }

  /** A tombstoned directory above `p` that one side sends is back on that side only. */
  lemma SentIsBack(run: Session, p: Path, q: Path)
    requires Shaded(run, p) && Above(q, p) && Tombstoned(run, q)
    ensures run.client.ledger.TombAt(q) == run.server.ledger.TombAt(q)
    ensures ShouldSend(run.server.manifest, run.client.manifest, true, q) ==> BackOn(run.server, run.client, q, p)
    ensures ShouldSend(run.client.manifest, run.server.manifest, false, q) ==> BackOn(run.client, run.server, q, p)
    ensures q in run.server.ledger.tombs ==> LeftAlone(run.server, run.server.manifest, run.client.manifest, true, q)
    ensures q in run.client.ledger.tombs ==> LeftAlone(run.client, run.client.manifest, run.server.manifest, false, q)
  {
  }

  /** What a node streams of a path is judged by a stamp no older than its mtime. */
  lemma StreamedStamp(n: Node, q: Path)
    requires q in n.disk
    ensures Comparand(DataOf(n, q)) >= n.disk[q].modifiedMs
  {
  }

  lemma FirstComesBack(run: Session, p: Path)
    requires Shaded(run, p) && run.FollowsFirst()
    ensures ComeBack(run.client.ledger, run.toClient, p)
    ensures p in run.client.manifest ==> LiftedBy(run.client.ledger, run.toClient, p) == {}
  {
    forall fd | fd in run.toClient && Above(fd.path, p) && fd.path in run.client.ledger.tombs
      ensures Comparand(fd) >= run.client.ledger.tombs[fd.path].deletedAt && p !in run.client.manifest
    {
      SentIsBack(run, p, fd.path);
      DeleteEachKeeps(run.server, run.serverPlan.vetoes, fd.path);
      StreamedStamp(run.ServerVetoed(), fd.path);
    }
  }

  /** The server's half: it deletes nothing at or above `p`, and offers its copy unless the cover beats it. */
  lemma ShadedFirst(run: Session, p: Path)
    requires Shaded(run, p) && run.FollowsFirst()
    ensures Stands(run.ServerVetoed(), run.server, p) && ViewAt(run.ServerVetoed(), p) == ViewAt(run.server, p)
    ensures Stands(run.ClientReceived(), Minus(run.client, LiftedBy(run.client.ledger, run.toClient, p)), p)
    ensures !Sends(run.server.manifest, run.client.manifest, true, run.server.ledger.CoverAt(p), p) ==>
              ViewAt(run.ClientReceived(), p) == ViewAt(run.client, p)
    ensures p in run.serverPlan.send <==> Sends(run.server.manifest, run.client.manifest, true, run.server.ledger.CoverAt(p), p)
    ensures forall d :: d in run.serverPlan.pushes ==> !StartsWith(p, d.path)
  {
    SameCoverAtStart(run, p);
    forall q | Above(q, p) && q in run.server.ledger.tombs
      ensures LeftAlone(run.server, run.server.manifest, run.client.manifest, true, q)
    {
      SentIsBack(run, p, q);
    }
    PlansAside(run.serverPlan, run.server, run.server, run.server.manifest, run.client.manifest, true, p);
    FirstComesBack(run, p);
    ReceivesAside(run.client, run.client, run.ServerVetoed(), run.serverPlan.pushes, run.serverPlan.send, run.toClient, run.clientNow, p);
  }

  /** What the client holds at `p` when the server sent its copy. */
  lemma ShadedDelivery(run: Session, p: Path)
    requires Shaded(run, p) && run.FollowsFirst()
    requires Sends(run.server.manifest, run.client.manifest, true, run.server.ledger.CoverAt(p), p)
    ensures ViewAt(run.ClientReceived(), p).file ==
            if Reaches(CoverInTurn(run.client.ledger, run.toClient, p), run.server.manifest[p].modifiedMs)
            then FileAt(run.server.manifest, p) else FileAt(run.client.manifest, p)
  {
    SameCoverAtStart(run, p);
    ShadedFirst(run, p);
    FirstComesBack(run, p);
    var before := run.toClient[..Turn(run.toClient, p)];
    ReceivesCopy(run.client, run.client, run.ServerVetoed(), run.serverPlan.pushes, run.serverPlan.send, run.toClient, run.clientNow, p);
    TakenByMtime(ViewAt(run.client, p), Without(run.client.ledger, LiftedBy(run.client.ledger, before, p)), run.ServerVetoed(), p);
  }

  lemma {:induction false} WritesLeave(n: Node, fds: seq<FileData>, q: Path)
    requires forall fd :: fd in fds ==> fd.path != q
    ensures q in WriteFiles(n, fds).disk ==> q in n.disk && WriteFiles(n, fds).disk[q] == n.disk[q]
  {
    if fds != [] {
      assert fds[|fds| - 1] in fds;
      WritesLeave(n, fds[..|fds| - 1], q);
    }
  }

  /** What only the client lists the server's half does not touch, except by deletes. */
  lemma StillStored(run: Session, q: Path)
    requires run.Follows() && q !in run.server.manifest
    ensures q in run.ClientVetoed().disk ==> q in run.client.disk && run.ClientVetoed().disk[q] == run.client.disk[q]
  {
    DeleteEachKeeps(run.ClientReceived(), run.clientPlan.vetoes, q);
    WritesLeave(run.ClientSwept(), run.toClient, q);
    DeleteEachKeeps(run.client, Clamped(run.serverPlan.pushes, run.clientNow), q);
  }

  lemma SecondComesBack(run: Session, p: Path)
    requires Shaded(run, p) && run.Follows()
    ensures ComeBack(run.server.ledger, run.toServer, p)
  {
    forall fd | fd in run.toServer && Above(fd.path, p) && fd.path in run.server.ledger.tombs
      ensures Comparand(fd) >= run.server.ledger.tombs[fd.path].deletedAt
    {
      SentIsBack(run, p, fd.path);
      StillStored(run, fd.path);
      StreamedStamp(run.ClientVetoed(), fd.path);
    }
  }

  /** The client plans no delete at or above `p` either, and its own copy stays. */
  lemma ShadedClient(run: Session, p: Path)
    requires Shaded(run, p) && run.Follows()
    ensures ViewAt(run.ClientVetoed(), p) == ViewAt(run.ClientReceived(), p) && ListedAsStored(run.ClientVetoed(), p)
    ensures ViewAt(run.ClientAfter(), p).file == ViewAt(run.ClientReceived(), p).file
    ensures forall d :: d in run.clientPlan.pushes ==> !StartsWith(p, d.path)
    ensures p in run.clientPlan.send <==>
              Sends(run.client.manifest, run.server.manifest, false, run.ClientReceived().ledger.CoverAt(p), p)
  {
    ShadedFirst(run, p);
    var was := Minus(run.client, LiftedBy(run.client.ledger, run.toClient, p));
    forall q | Above(q, p) && q in was.ledger.tombs
      ensures LeftAlone(was, run.client.manifest, run.server.manifest, false, q)
    {
      SentIsBack(run, p, q);
    }
    PlansAside(run.clientPlan, run.ClientReceived(), was, run.client.manifest, run.server.manifest, false, p);
  }

  /** What the server holds at `p` when the client has no better copy. */
  lemma ShadedServerKeeps(run: Session, p: Path)
    requires Shaded(run, p) && run.Follows() && p !in run.clientPlan.send
    ensures ViewAt(run.ServerAfter(), p).file == FileAt(run.server.manifest, p)
  {
    ShadedFirst(run, p);
    ShadedClient(run, p);
    SecondComesBack(run, p);
    var lifted := set q | q in run.serverPlan.recreated;
    LiftsAbove(run.ServerVetoed(), run.server, run.serverPlan.recreated, p);
    ReceivesAside(Settled(run.ServerVetoed(), run.serverPlan.recreated), Minus(run.server, lifted), run.ClientVetoed(),
                  run.clientPlan.pushes, run.clientPlan.send, run.toServer, run.serverNow, p);
  }

  /** With a copy of its own the client judges `p` as it stood at the start. */
  lemma ShadedOffer(run: Session, p: Path)
    requires Shaded(run, p) && run.Follows() && ShouldSend(run.client.manifest, run.server.manifest, false, p)
    ensures ViewAt(run.ClientVetoed(), p) == ViewAt(run.client, p) && ListedAsStored(run.ClientVetoed(), p)
    ensures p in run.clientPlan.send <==> Reaches(run.server.ledger.CoverAt(p), run.client.manifest[p].modifiedMs)
  {
    SameCoverAtStart(run, p);
    ShadedFirst(run, p);
    ShadedClient(run, p);
    FirstComesBack(run, p);
    MinusNothing(run.client);
    CoverStands(run.ClientReceived(), run.client, p);
  }

  lemma MinusNothing(n: Node)
    ensures Minus(n, {}) == n
  {
    assert n.ledger.tombs - {} == n.ledger.tombs;
  }

  /** And the server has lifted no tombstone above it. */
  lemma ShadedSettled(run: Session, p: Path)
    requires Shaded(run, p) && run.Follows() && p in run.client.manifest
    ensures var settled := Settled(run.ServerVetoed(), run.serverPlan.recreated);
            Stands(settled, run.server, p) && ViewAt(settled, p) == ViewAt(run.server, p)
  {
    ShadedFirst(run, p);
    forall q | q in run.serverPlan.recreated && Above(q, p)
      ensures q !in run.server.ledger.tombs
    {
      if q in run.server.ledger.tombs {
        SentIsBack(run, p, q);
        assert false;
      }
    }
    LiftsAside(run.ServerVetoed(), run.server, run.serverPlan.recreated, p);
  }

  /** What the server holds at `p` when the client sent its copy. */
  lemma ShadedReturn(run: Session, p: Path)
    requires Shaded(run, p) && run.Follows() && ShouldSend(run.client.manifest, run.server.manifest, false, p)
    requires Reaches(run.server.ledger.CoverAt(p), run.client.manifest[p].modifiedMs)
    ensures ViewAt(run.ServerAfter(), p).file ==
            if Reaches(CoverInTurn(run.server.ledger, run.toServer, p), run.client.manifest[p].modifiedMs)
            then FileAt(run.client.manifest, p) else FileAt(run.server.manifest, p)
  {
    ShadedOffer(run, p);
    ShadedSettled(run, p);
    ShadedClient(run, p);
    SecondComesBack(run, p);
    var settled, before := Settled(run.ServerVetoed(), run.serverPlan.recreated), run.toServer[..Turn(run.toServer, p)];
    ReceivesCopy(settled, run.server, run.ClientVetoed(), run.clientPlan.pushes, run.clientPlan.send, run.toServer, run.serverNow, p);
    TakenByMtime(ViewAt(settled, p), Without(run.server.ledger, LiftedBy(run.server.ledger, before, p)), run.ClientVetoed(), p);
  }

  /** The copy that would win: the only one, or the newer of two. */
  function Newest(run: Session, p: Path): Meta
    requires p in run.client.manifest || p in run.server.manifest
  {
    var c, s := run.client.manifest, run.server.manifest;
    if p !in c then s[p] else if p !in s then c[p] else Winner(c[p], s[p])
  }

  /** What covers `p` on the receiving side when the copy of `p` has its turn. */
  ghost function LateCover(run: Session, p: Path): Option<nat> {
    if ShouldSend(run.server.manifest, run.client.manifest, true, p)
    then CoverInTurn(run.client.ledger, run.toClient, p)
    else CoverInTurn(run.server.ledger, run.toServer, p)
  }

  /** Such a copy reaches the cover both when it is picked and when its turn comes on the other side. */
  ghost predicate ReachesTwice(run: Session, p: Path, mtime: nat) {
    Reaches(run.server.ledger.CoverAt(p), mtime) && Reaches(LateCover(run, p), mtime)
  }

  /**
   Nothing to reconcile; or the winning copy is at least as new as the tombstone over it, both when it is
   picked and when its turn comes on the other side.
   */
  ghost predicate Settles(run: Session, p: Path) {
    || HashAt(run.client, p) == HashAt(run.server, p)
    || ReachesTwice(run, p, Newest(run, p).modifiedMs)
  }

  /**
   Below tombstoned directories that are there to stay, listed alike on both sides or back on one: a
   completed session makes the sides agree at `p` exactly when it settles. Otherwise each side keeps
   what it held.
   */
  lemma ShadedConverges(run: Session, p: Path)
    requires Shaded(run, p) && run.Follows() && run.Completes()
    ensures HashAt(run.ClientAfter(), p) == HashAt(run.ServerAfter(), p) <==> Settles(run, p)
    ensures Settles(run, p) && HashAt(run.client, p) != HashAt(run.server, p) ==> HashAt(run.ServerAfter(), p) == Some(Newest(run, p).hash)
    ensures !Settles(run, p) ==>
              HashAt(run.ClientAfter(), p) == HashAt(run.client, p) && HashAt(run.ServerAfter(), p) == HashAt(run.server, p)
  {
    if ShouldSend(run.client.manifest, run.server.manifest, false, p) {
      ClientCopyEnds(run, p);
    } else {
      ServerCopyEnds(run, p);
    }
  }

  /** The client's copy wins: it stays there, and the server takes it or keeps what it held. */
  lemma ClientCopyEnds(run: Session, p: Path)
    requires Shaded(run, p) && run.Follows() && ShouldSend(run.client.manifest, run.server.manifest, false, p)
    ensures HashAt(run.ClientAfter(), p) == HashAt(run.client, p)
    ensures HashAt(run.ServerAfter(), p) == if Settles(run, p) then HashAt(run.client, p) else HashAt(run.server, p)
  {
    ClientCopyStays(run, p);
    ClientCopyArrives(run, p);
    SettlesForClient(run, p);
    HashOfFile(run.ClientAfter(), p);
    HashOfFile(run.ServerAfter(), p);
  }

  lemma HashOfFile(n: Node, p: Path)
    ensures HashAt(n, p) == if ViewAt(n, p).file.Some? then Some(ViewAt(n, p).file.value.hash) else None
  {
  }

  lemma ClientCopyStays(run: Session, p: Path)
    requires Shaded(run, p) && run.Follows() && ShouldSend(run.client.manifest, run.server.manifest, false, p)
    ensures ViewAt(run.ClientAfter(), p).file == FileAt(run.client.manifest, p)
  {
    ShadedFirst(run, p);
    ShadedClient(run, p);
  }

  lemma ClientCopyArrives(run: Session, p: Path)
    requires Shaded(run, p) && run.Follows() && ShouldSend(run.client.manifest, run.server.manifest, false, p)
    ensures ViewAt(run.ServerAfter(), p).file ==
            if ReachesTwice(run, p, run.client.manifest[p].modifiedMs) then FileAt(run.client.manifest, p) else FileAt(run.server.manifest, p)
  {
    ShadedOffer(run, p);
    if Reaches(run.server.ledger.CoverAt(p), run.client.manifest[p].modifiedMs) {
      ShadedReturn(run, p);
    } else {
      ShadedServerKeeps(run, p);
    }
  }

  lemma SettlesForClient(run: Session, p: Path)
    requires ShouldSend(run.client.manifest, run.server.manifest, false, p)
    ensures HashAt(run.client, p) != HashAt(run.server, p)
    ensures Settles(run, p) <==> ReachesTwice(run, p, run.client.manifest[p].modifiedMs)
  {
  }

  /** The server's copy wins or there is nothing to send. */
  lemma ServerCopyEnds(run: Session, p: Path)
    requires Shaded(run, p) && run.Follows() && !ShouldSend(run.client.manifest, run.server.manifest, false, p)
    ensures HashAt(run.ServerAfter(), p) == HashAt(run.server, p)
    ensures HashAt(run.ClientAfter(), p) == if Settles(run, p) then HashAt(run.server, p) else HashAt(run.client, p)
  {
    ServerCopyStays(run, p);
    ServerCopyArrives(run, p);
    HashOfFile(run.ClientAfter(), p);
    HashOfFile(run.ServerAfter(), p);
  }

  lemma ServerCopyStays(run: Session, p: Path)
    requires Shaded(run, p) && run.Follows() && !ShouldSend(run.client.manifest, run.server.manifest, false, p)
    ensures ViewAt(run.ServerAfter(), p).file == FileAt(run.server.manifest, p)
  {
    ShadedClient(run, p);
    ShadedServerKeeps(run, p);
  }

  lemma ServerCopyArrives(run: Session, p: Path)
    requires Shaded(run, p) && run.Follows()
    ensures ViewAt(run.ClientAfter(), p).file ==
            if ShouldSend(run.server.manifest, run.client.manifest, true, p) && ReachesTwice(run, p, run.server.manifest[p].modifiedMs)
            then FileAt(run.server.manifest, p) else FileAt(run.client.manifest, p)
  {
    ShadedFirst(run, p);
    ShadedClient(run, p);
    if Sends(run.server.manifest, run.client.manifest, true, run.server.ledger.CoverAt(p), p) {
      ShadedDelivery(run, p);
    }
  }

  // ---- One tombstone, and several ----

  /** With a single tombstone over `p` the order does not matter: the winning copy must be at least as new. */
  lemma OneCoverSettles(run: Session, p: Path, q: Path)
    requires Shaded(run, p) && HashAt(run.client, p) != HashAt(run.server, p)
    requires run.server.ledger.Covers(q, p) && forall r :: run.server.ledger.Covers(r, p) ==> r == q
    ensures Settles(run, p) <==> Newest(run, p).modifiedMs >= run.server.ledger.tombs[q].deletedAt
  {
    SameCoverAtStart(run, p);
    CoverNearest(run.server.ledger, p);
    assert run.server.ledger.NearestCover(q, p);
    OneCoverBehind(run.server.ledger, run.toServer[..Turn(run.toServer, p)], p, q);
    forall r | run.client.ledger.Covers(r, p)
      ensures run.server.ledger.Covers(r, p)
    {
      SameTomb(run, p, r);
    }
    SameTomb(run, p, q);
    OneCoverBehind(run.client.ledger, run.toClient[..Turn(run.toClient, p)], p, q);
  }

  lemma SameTomb(run: Session, p: Path, r: Path)
    requires Shaded(run, p) && StartsWith(p, r)
    ensures run.client.ledger.TombAt(r) == run.server.ledger.TombAt(r)
    ensures run.client.ledger.Covers(r, p) <==> run.server.ledger.Covers(r, p)
  {
    if r != p && Tombstoned(run, r) {
      assert Above(r, p);
    }
  }

  lemma OneCoverBehind(l: Ledger, fds: seq<FileData>, p: Path, q: Path)
    requires l.Covers(q, p) && forall r :: l.Covers(r, p) ==> r == q
    ensures CoverBehind(l, fds, p).Some? ==> CoverBehind(l, fds, p).value == l.tombs[q].deletedAt
  {
    var less := Without(l, LiftedBy(l, fds, p));
    CoverNearest(less, p);
    assert forall r :: less.Covers(r, p) ==> l.Covers(r, p);
  }

  /** Every tombstone over `p` whose nearer ones the files may all lift before is reached as well. */
  ghost predicate Steady(l: Ledger, fds: seq<FileData>, p: Path, mtime: nat) {
    forall r :: l.Covers(r, p) && (forall n :: l.Covers(n, p) && |n| > |r| ==> n in LiftedBy(l, fds, p)) ==>
      l.tombs[r].deletedAt <= mtime
  }

  /** The same files in another order. */
  ghost predicate Reordered(order: seq<FileData>, fds: seq<FileData>) {
    PathsApart(order) && forall fd :: fd in order <==> fd in fds
  }

  /** In whatever order the files arrive, the copy of `p` among them is taken: exactly when the tombstones over it are steady. */
  lemma EveryOrderTakes(l: Ledger, fds: seq<FileData>, p: Path, mtime: nat)
    requires PathsApart(fds) && Turn(fds, p) < |fds|
    ensures (forall order :: Reordered(order, fds) ==> Reaches(CoverInTurn(l, order, p), mtime)) <==> Steady(l, fds, p, mtime)
  {
    if Steady(l, fds, p, mtime) {
      forall order | Reordered(order, fds)
        ensures Reaches(CoverInTurn(l, order, p), mtime)
      {
        SteadyTakes(l, fds, order[..Turn(order, p)], p, mtime);
      }
    } else {
      var r :| l.Covers(r, p) && (forall n :: l.Covers(n, p) && |n| > |r| ==> n in LiftedBy(l, fds, p)) && l.tombs[r].deletedAt > mtime;
      var order := NearerFirst(l, fds, p, r);
      assert !Reaches(CoverInTurn(l, order, p), mtime);
    }
  }

  lemma SteadyTakes(l: Ledger, fds: seq<FileData>, early: seq<FileData>, p: Path, mtime: nat)
    requires Steady(l, fds, p, mtime) && forall fd :: fd in early ==> fd in fds
    ensures Reaches(CoverBehind(l, early, p), mtime)
  {
    var less := Without(l, LiftedBy(l, early, p));
    CoverNearest(less, p);
    if less.CoverAt(p).Some? {
      var r :| less.NearestCover(r, p) && less.CoveringTombstone(p).value == less.tombs[r];
      assert l.Covers(r, p);
      forall n | l.Covers(n, p) && |n| > |r|
        ensures n in LiftedBy(l, fds, p)
      {
        assert !less.Covers(n, p);
      }
    }
  }

  /** The order that fails: the directories nearer than `r` first, so that `r` is the nearest one left. */
  lemma NearerFirst(l: Ledger, fds: seq<FileData>, p: Path, r: Path) returns (order: seq<FileData>)
    requires PathsApart(fds) && Turn(fds, p) < |fds|
    requires l.Covers(r, p) && forall n :: l.Covers(n, p) && |n| > |r| ==> n in LiftedBy(l, fds, p)
    ensures Reordered(order, fds) && CoverInTurn(l, order, p) == Some(l.tombs[r].deletedAt)
  {
    var own := fds[Turn(fds, p)];
    var early, late := Others(fds, p, |r|, true), Others(fds, p, |r|, false);
    OthersExactly(fds, p, |r|, true);
    OthersExactly(fds, p, |r|, false);
    order := early + [own] + late;
    OwnTurn(fds, early, own, late, p);
    LeftNearest(l, fds, early, p, r);
  }

  lemma OwnTurn(fds: seq<FileData>, early: seq<FileData>, own: FileData, late: seq<FileData>, p: Path)
    requires PathsApart(early) && PathsApart(late) && own.path == p
    requires forall fd :: fd in early ==> fd.path != p
    requires forall fd :: fd in late ==> fd.path != p
    requires forall fd, gd :: fd in early && gd in late ==> fd.path != gd.path
    ensures PathsApart(early + [own] + late) && Turn(early + [own] + late, p) == |early|
    ensures (early + [own] + late)[..|early|] == early
  {
    var order := early + [own] + late;
    assert order[|early|] == own;
    forall i | 0 <= i < |early|
      ensures order[i].path != p
    {
      assert order[i] in early;
    }
    assert forall i :: 0 <= i < |late| ==> late[i] in late;
    assert forall i :: 0 <= i < |early| ==> early[i] in early;
  }

  /** Once the files at paths longer than `r` have arrived, `r` is the nearest tombstone left. */
  lemma LeftNearest(l: Ledger, fds: seq<FileData>, early: seq<FileData>, p: Path, r: Path)
    requires l.Covers(r, p) && forall n :: l.Covers(n, p) && |n| > |r| ==> n in LiftedBy(l, fds, p)
    requires forall fd :: fd in early <==> fd in fds && fd.path != p && |fd.path| > |r|
    ensures CoverBehind(l, early, p) == Some(l.tombs[r].deletedAt)
  {
    var less := Without(l, LiftedBy(l, early, p));
    forall n | l.Covers(n, p) && |n| > |r|
      ensures n in LiftedBy(l, early, p)
    {
      var fd :| fd in fds && Above(fd.path, p) && fd.path in l.tombs && LiftsOwn(fd, l.tombs[fd.path].deletedAt) && fd.path == n;
      assert fd in early;
    }
    assert r !in LiftedBy(l, early, p);
    assert less.NearestCover(r, p);
    CoverNearest(less, p);
  }

  /** The files other than that of `p` at paths longer than `n`, or at the rest. */
  function Others(fds: seq<FileData>, p: Path, n: nat, longer: bool): seq<FileData> {
    if fds == [] then []
    else
      var last := fds[|fds| - 1];
      Others(fds[..|fds| - 1], p, n, longer) + if last.path != p && (|last.path| > n) == longer then [last] else []
  }

  lemma {:induction false} OthersExactly(fds: seq<FileData>, p: Path, n: nat, longer: bool)
    requires PathsApart(fds)
    ensures PathsApart(Others(fds, p, n, longer))
    ensures forall fd :: fd in Others(fds, p, n, longer) <==> fd in fds && fd.path != p && (|fd.path| > n) == longer
  {
    if fds != [] {
      var init, last := fds[..|fds| - 1], fds[|fds| - 1];
      OthersExactly(init, p, n, longer);
      assert fds == init + [last];
      var picked := Others(init, p, n, longer);
      assert forall i :: 0 <= i < |picked| ==> picked[i] in picked;
    }
  }

  /** The winning copy is on its way, and so may be the tombstoned directories above it. */
  ghost predicate OnItsWay(run: Session, p: Path) {
    && HashAt(run.client, p) != HashAt(run.server, p)
    && if ShouldSend(run.server.manifest, run.client.manifest, true, p)
       then PathsApart(run.toClient) && Turn(run.toClient, p) < |run.toClient|
       else PathsApart(run.toServer) && Turn(run.toServer, p) < |run.toServer|
  }

  /** A copy that is sent settles in every order of the files exactly when the tombstones over it are steady. */
  lemma EveryOrderSettles(run: Session, p: Path)
    requires Shaded(run, p) && OnItsWay(run, p)
    ensures var mtime := Newest(run, p).modifiedMs;
            if ShouldSend(run.server.manifest, run.client.manifest, true, p)
            then (forall order :: Reordered(order, run.toClient) ==> Settles(run.(toClient := order), p)) <==>
                 Steady(run.client.ledger, run.toClient, p, mtime)
            else (forall order :: Reordered(order, run.toServer) ==> Settles(run.(toServer := order), p)) <==>
                 Steady(run.server.ledger, run.toServer, p, mtime)
  {
    var mtime := Newest(run, p).modifiedMs;
    SameCoverAtStart(run, p);
    if ShouldSend(run.server.manifest, run.client.manifest, true, p) {
      EveryOrderTakes(run.client.ledger, run.toClient, p, mtime);
      if Steady(run.client.ledger, run.toClient, p, mtime) {
        SteadyBothTimes(run.client.ledger, run.toClient, p, mtime);
      }
      forall order | Reordered(order, run.toClient)
        ensures Settles(run.(toClient := order), p) <==> Reaches(run.server.ledger.CoverAt(p), mtime) && Reaches(CoverInTurn(run.client.ledger, order, p), mtime)
      {
      }
    } else {
      EveryOrderTakes(run.server.ledger, run.toServer, p, mtime);
      if Steady(run.server.ledger, run.toServer, p, mtime) {
        SteadyBothTimes(run.server.ledger, run.toServer, p, mtime);
      }
      forall order | Reordered(order, run.toServer)
        ensures Settles(run.(toServer := order), p) <==> Reaches(run.server.ledger.CoverAt(p), mtime) && Reaches(CoverInTurn(run.server.ledger, order, p), mtime)
      {
      }
    }
  }

  /** Any order of the same files is a payload. */
  lemma ReorderedPayload(sender: Node, send: seq<Path>, fds: seq<FileData>, order: seq<FileData>)
    requires PayloadOf(sender, send, fds) && Reordered(order, fds)
    ensures PayloadOf(sender, send, order)
  {
    forall i, j | 0 <= i < j < |order|
      ensures order[i] != order[j]
    {
      assert order[i].path != order[j].path;
    }
  }

  lemma SteadyBothTimes(l: Ledger, fds: seq<FileData>, p: Path, mtime: nat)
    requires Steady(l, fds, p, mtime)
    ensures Reaches(l.CoverAt(p), mtime) && Reaches(CoverInTurn(l, fds, p), mtime)
  {
    SteadyTakes(l, fds, fds[..Turn(fds, p)], p, mtime);
    SteadyTakes(l, fds, [], p, mtime);
    NothingBehind(l, p);
  }

  lemma NothingBehind(l: Ledger, p: Path)
    ensures CoverBehind(l, [], p) == l.CoverAt(p)
  {
    assert LiftedBy(l, [], p) == {};
    assert l.tombs - {} == l.tombs;
  }

  // ---- A directory deleted during the session ----

  /** Once a directory above it is deleted at a stamp no live action of its own reaches, a file is gone. */
  lemma {:induction false} GoneWithDirectory(n: Node, ds: seq<Deletion>, d: Deletion, p: Path)
    requires Scanned(n) && d in ds && StartsWith(p, d.path) && (forall e :: e in ds ==> e.path != [])
    requires !Protects(n.ledger, p, d.at) && (p in n.manifest ==> !n.manifest[p].isDir)
    ensures p !in DeleteEach(n, ds).manifest && p !in DeleteEach(n, ds).disk
  {
    var init, last := ds[..|ds| - 1], ds[|ds| - 1];
    assert last in ds;
    DeleteEachScanned(n, init);
    DeleteEachKeeps(n, init, p);
    var before := DeleteEach(n, init);
    DeleteGuard(before, last.path, last.at, last.deleter);
    if last != d {
      assert d in init;
      GoneWithDirectory(n, init, d, p);
    } else if p in before.manifest {
      assert !Survives(before.manifest, before.ledger, last.path, last.at, p);
    }
  }

  lemma {:induction false} DeleteEachKeeps(n: Node, ds: seq<Deletion>, p: Path)
    ensures DeleteEach(n, ds).ledger.alive == n.ledger.alive
    ensures p in DeleteEach(n, ds).manifest ==> p in n.manifest && DeleteEach(n, ds).manifest[p] == n.manifest[p]
    ensures p in DeleteEach(n, ds).disk ==> p in n.disk && DeleteEach(n, ds).disk[p] == n.disk[p]
  {
    if ds != [] {
      DeleteEachKeeps(n, ds[..|ds| - 1], p);
    }
  }

  lemma {:induction false} WritesElsewhere(n: Node, fds: seq<FileData>, p: Path)
    requires p !in n.manifest && p !in n.disk && forall fd :: fd in fds ==> fd.path != p
    ensures p !in WriteFiles(n, fds).manifest && p !in WriteFiles(n, fds).disk
  {
    if fds != [] {
      assert fds[|fds| - 1] in fds;
      WritesElsewhere(n, fds[..|fds| - 1], p);
    }
  }

  lemma NothingReceived(n: Node, sender: Node, pushes: seq<Deletion>, send: seq<Path>, fds: seq<FileData>, now: nat, p: Path)
    requires PayloadOf(sender, send, fds) && p !in sender.disk && p !in n.manifest && p !in n.disk
    ensures p !in Received(n, pushes, fds, now).manifest && p !in Received(n, pushes, fds, now).disk
  {
    DeleteEachKeeps(n, Clamped(pushes, now), p);
    WritesElsewhere(DeleteEach(n, Clamped(pushes, now)), fds, p);
  }

  /** Nothing lies below a path that is not there. */
  lemma OutsideTree(n: Node, q: Path, p: Path)
    requires Scanned(n) && q != [] && StartsWith(p, q) && q !in n.manifest
    ensures p !in n.manifest && p !in n.disk
  {
    if p != q && p in n.manifest {
      BelowIsUnderDir(n.manifest, p, q);
    }
  }

  /**
   The server deleted a directory the client still lists from before: the push takes the client's file
   below it along, however new its mtime, unless a live action of its own is as new as the delete.
   */
  lemma PushTakesSubtree(run: Session, q: Path, p: Path)
    requires run.Follows() && run.Completes() && Scanned(run.client) && Scanned(run.server) && [] !in run.Tombs() && StartsWith(p, q)
    requires MissedDelete(run.server.manifest, run.client.manifest, run.server.ledger, q)
    requires run.server.ledger.tombs[q].deletedAt <= run.clientNow + MAX_FUTURE_SKEW_MS
    requires !Protects(run.client.ledger, p, run.server.ledger.tombs[q].deletedAt) && !IsDir(run.client.disk, p)
    ensures HashAt(run.ClientAfter(), p) == None && HashAt(run.ServerAfter(), p) == None
  {
    var d := DeletionOf(run.server.ledger, q);
    OutsideTree(run.server, q, p);
    DeleteEachKeeps(run.server, run.serverPlan.vetoes, q);
    DeleteEachKeeps(run.server, run.serverPlan.vetoes, p);
    assert d in run.serverPlan.pushes;
    ClampedPaths(run.serverPlan.pushes, run.clientNow);
    ClampedMember(run.serverPlan.pushes, run.clientNow, d);
    GoneWithDirectory(run.client, Clamped(run.serverPlan.pushes, run.clientNow), d, p);
    WritesElsewhere(run.ClientSwept(), run.toClient, p);
    DeleteEachKeeps(run.ClientReceived(), run.clientPlan.vetoes, p);
    NothingReceived(Settled(run.ServerVetoed(), run.serverPlan.recreated), run.ClientVetoed(), run.clientPlan.pushes,
                    run.clientPlan.send, run.toServer, run.serverNow, p);
  }

  lemma {:induction false} ClampedMember(ds: seq<Deletion>, now: nat, d: Deletion)
    requires d in ds && d.at <= now + MAX_FUTURE_SKEW_MS
    ensures d in Clamped(ds, now)
  {
    if d != ds[|ds| - 1] {
      assert d in ds[..|ds| - 1];
      ClampedMember(ds[..|ds| - 1], now, d);
    }
  }

  /** The server still lists a directory it knows to be deleted: its own file below it goes before it could be sent. */
  lemma VetoTakesSubtree(run: Session, q: Path, p: Path)
    requires run.Follows() && run.Completes() && Scanned(run.client) && Scanned(run.server) && [] !in run.Tombs() && StartsWith(p, q)
    requires q !in run.client.manifest && q in run.server.ledger.tombs && Loses(run.server.ledger, run.server.manifest, run.client.manifest, true, q)
    requires !Protects(run.server.ledger, p, run.server.ledger.tombs[q].deletedAt) && !IsDir(run.server.disk, p)
    ensures HashAt(run.ClientAfter(), p) == None && HashAt(run.ServerAfter(), p) == None
  {
    var d := DeletionOf(run.server.ledger, q);
    OutsideTree(run.client, q, p);
    assert d in run.serverPlan.vetoes;
    GoneWithDirectory(run.server, run.serverPlan.vetoes, d, p);
    NothingReceived(run.client, run.ServerVetoed(), run.serverPlan.pushes, run.serverPlan.send, run.toClient, run.clientNow, p);
    DeleteEachKeeps(run.ClientReceived(), run.clientPlan.vetoes, p);
    NothingReceived(Settled(run.ServerVetoed(), run.serverPlan.recreated), run.ClientVetoed(), run.clientPlan.pushes,
                    run.clientPlan.send, run.toServer, run.serverNow, p);
  }

  /** A path not listed keeps its tombstone while deletes elsewhere and files elsewhere arrive. */
  ghost predicate StaysGone(n: Node, q: Path, t: nat) {
    n.ledger.Valid() && q !in n.manifest && n.ledger.TombAt(q) == Some(t)
  }

  lemma {:induction false} DeletesStayGone(n: Node, ds: seq<Deletion>, q: Path, t: nat)
    requires StaysGone(n, q, t) && forall d :: d in ds ==> d.path != q
    ensures StaysGone(DeleteEach(n, ds), q, t)
  {
    if ds != [] {
      assert ds[|ds| - 1] in ds;
      DeletesStayGone(n, ds[..|ds| - 1], q, t);
    }
  }

  lemma {:induction false} WritesStayGone(n: Node, fds: seq<FileData>, q: Path, t: nat)
    requires StaysGone(n, q, t) && q != [] && forall fd :: fd in fds && fd.path == q ==> Comparand(fd) < t
    ensures StaysGone(WriteFiles(n, fds), q, t)
  {
    if fds != [] {
      var init, last := fds[..|fds| - 1], fds[|fds| - 1];
      assert last in fds;
      WritesStayGone(n, init, q, t);
      AdmitAt(WriteFiles(n, init).ledger, last, q);
      if last.path == q {
        ExactTombstoneWins(WriteFiles(n, init).ledger, q);
      }
    }
  }

  /** A directory older than the tombstone both hold, that only the server lists, is refused by the client. */
  lemma RefusedDirectory(run: Session, q: Path)
    requires run.Follows() && q != [] && run.client.ledger.Valid() && run.server.ledger.Valid()
    requires q in run.server.ledger.tombs && run.client.ledger.TombAt(q) == run.server.ledger.TombAt(q)
    requires q !in run.client.manifest && q in run.server.manifest && q in run.server.disk && run.server.disk[q] == run.server.manifest[q]
    requires run.server.manifest[q].modifiedMs < run.server.ledger.tombs[q].deletedAt
    requires !Loses(run.server.ledger, run.server.manifest, run.client.manifest, true, q)
    ensures StaysGone(run.ClientReceived(), q, run.server.ledger.tombs[q].deletedAt)
    ensures q !in run.ClientVetoed().manifest
  {
    var t := run.server.ledger.tombs[q].deletedAt;
    DeleteEachKeeps(run.server, run.serverPlan.vetoes, q);
    ServerKeepsUnvetoed(run, q);
    ClampedAt(run.serverPlan.pushes, run.clientNow);
    DeletesStayGone(run.client, Clamped(run.serverPlan.pushes, run.clientNow), q, t);
    WritesStayGone(run.ClientSwept(), run.toClient, q, t);
    DeleteEachKeeps(run.ClientReceived(), run.clientPlan.vetoes, q);
  }

  /** What the server lists and does not veto is pushed as a delete by nobody, and streamed with a stamp below its tombstone. */
  lemma ServerKeepsUnvetoed(run: Session, q: Path)
    requires run.Follows() && run.server.ledger.Valid() && q in run.server.ledger.tombs && q in run.server.manifest
    requires run.server.manifest[q].modifiedMs < run.server.ledger.tombs[q].deletedAt
    requires q in run.server.disk && run.server.disk[q] == run.server.manifest[q]
    ensures forall fd :: fd in run.toClient && fd.path == q ==> Comparand(fd) < run.server.ledger.tombs[q].deletedAt
  {
    DeleteEachKeeps(run.server, run.serverPlan.vetoes, q);
  }

  lemma {:induction false} NoRootDeleted(n: Node, ds: seq<Deletion>)
    requires [] !in n.ledger.tombs && forall d :: d in ds ==> d.path != []
    ensures [] !in DeleteEach(n, ds).ledger.tombs
  {
    if ds != [] {
      assert ds[|ds| - 1] in ds;
      NoRootDeleted(n, ds[..|ds| - 1]);
    }
  }

  lemma {:induction false} NoRootWritten(n: Node, fds: seq<FileData>)
    requires [] !in n.ledger.tombs
    ensures [] !in WriteFiles(n, fds).ledger.tombs
  {
    if fds != [] {
      NoRootWritten(n, fds[..|fds| - 1]);
    }
  }

  /** Nothing the client pushes is about the root. */
  lemma ClientPushesPaths(run: Session)
    requires run.Follows() && [] !in run.Tombs()
    ensures forall d :: d in Clamped(run.clientPlan.pushes, run.serverNow) ==> d.path != []
  {
    ClampedPaths(run.serverPlan.pushes, run.clientNow);
    NoRootDeleted(run.client, Clamped(run.serverPlan.pushes, run.clientNow));
    NoRootWritten(run.ClientSwept(), run.toClient);
    ClampedPaths(run.clientPlan.pushes, run.serverNow);
  }

  /** The server as it receives the client's half is still a scanned tree, with its live records. */
  lemma SettledScanned(run: Session)
    requires run.Follows() && Scanned(run.server) && [] !in run.Tombs()
    ensures Scanned(Settled(run.ServerVetoed(), run.serverPlan.recreated))
    ensures forall p :: Settled(run.ServerVetoed(), run.serverPlan.recreated).ledger.AliveSince(p) == run.server.ledger.AliveSince(p)
  {
    DeleteEachScanned(run.server, run.serverPlan.vetoes);
    DeleteEachKeeps(run.server, run.serverPlan.vetoes, []);
    LiftedAlive(run.ServerVetoed().ledger, run.serverPlan.recreated);
  }

  lemma {:induction false} LiftedAlive(l: Ledger, paths: seq<Path>)
    ensures EngineStore.Lifted(l, paths).alive == l.alive
  {
    if paths != [] {
      LiftedAlive(l, paths[..|paths| - 1]);
    }
  }

  /**
   Only the server lists a directory both know to be deleted, and its previous-version information does not
   recognise it: the client refuses it and pushes the delete back, which takes the server's file below it,
   even one it had just delivered.
   */
  lemma PushBackTakesSubtree(run: Session, q: Path, p: Path)
    requires run.Follows() && run.Completes() && Scanned(run.client) && Scanned(run.server) && [] !in run.Tombs() && StartsWith(p, q)
    requires run.client.ledger.Valid() && run.server.ledger.Valid()
    requires q in run.server.ledger.tombs && run.client.ledger.TombAt(q) == run.server.ledger.TombAt(q)
    requires q !in run.client.manifest && q in run.server.manifest
    requires run.server.manifest[q].modifiedMs < run.server.ledger.tombs[q].deletedAt <= run.serverNow + MAX_FUTURE_SKEW_MS
    requires !Loses(run.server.ledger, run.server.manifest, run.client.manifest, true, q)
    requires !Protects(run.server.ledger, p, run.server.ledger.tombs[q].deletedAt) && !IsDir(run.server.disk, p)
    ensures HashAt(run.ServerAfter(), p) == None
    ensures p !in run.serverPlan.send ==> HashAt(run.ClientAfter(), p) == None
  {
    RefusedDirectory(run, q);
    OutsideTree(run.client, q, p);
    var d := DeletionOf(run.ClientReceived().ledger, q);
    assert d in run.clientPlan.pushes;
    TakenBack(run, d, p);
    if p !in run.serverPlan.send {
      DeleteEachKeeps(run.client, Clamped(run.serverPlan.pushes, run.clientNow), p);
      WritesElsewhere(run.ClientSwept(), run.toClient, p);
      DeleteEachKeeps(run.ClientReceived(), run.clientPlan.vetoes, p);
    }
  }

  lemma TakenBack(run: Session, d: Deletion, p: Path)
    requires run.Follows() && Scanned(run.server) && [] !in run.Tombs() && p !in run.client.manifest
    requires d in run.clientPlan.pushes && StartsWith(p, d.path) && d.at <= run.serverNow + MAX_FUTURE_SKEW_MS
    requires !Protects(run.server.ledger, p, d.at) && !IsDir(run.server.disk, p)
    ensures HashAt(run.ServerAfter(), p) == None
  {
    ClientPushesPaths(run);
    SettledScanned(run);
    ClampedMember(run.clientPlan.pushes, run.serverNow, d);
    DeleteEachKeeps(run.server, run.serverPlan.vetoes, p);
    GoneWithDirectory(Settled(run.ServerVetoed(), run.serverPlan.recreated), Clamped(run.clientPlan.pushes, run.serverNow), d, p);
    WritesElsewhere(run.ServerSwept(), run.toServer, p);
  }

  // ---- A session that leaves a stale file behind ----

  const FOLDER: Path := ["d"]
  const STALE: Path := ["d", "f"]

  /**
   A directory was deleted at 40 and recreated on both sides at 50; the client missed the delete and
   still holds a file from 10 in it. The file is vetoed by the directory's tombstone, but only an
   exact tombstone makes a side delete its stale copy.
   */
  function NestedRun(): Session {
    var l := Ledger(map[FOLDER := Tombstone(FOLDER, 40, "peer", None, None)], map[]);
    var dir, file := Meta(FOLDER, 0, [0], 50, true), Meta(STALE, 1, [1], 10, false);
    var c, s := map[FOLDER := dir, STALE := file], map[FOLDER := dir];
    var none := Plan([], [], [], []);
    Session(Node(c, c, l), Node(s, s, l), 0, 0, none, [], none, [])
  }

  lemma NestedVerdict()
    ensures Judge(NestedRun().client.ledger, NestedRun().client.manifest[STALE], STALE).Vetoed?
    ensures STALE != FOLDER && STALE !in NestedRun().client.ledger.tombs
  {
    var l := NestedRun().client.ledger;
    assert STALE[..2] == STALE && STALE[..1] == FOLDER && |STALE| == 2 && |FOLDER| == 1;
    assert l.Covers(FOLDER, STALE) && !l.Covers(STALE, STALE);
    assert l.CoverFrom(STALE, 2) == l.CoverFrom(STALE, 1) == Some(l.tombs[FOLDER]);
  }

  lemma NestedHalves()
    ensures var run := NestedRun();
            && PlanOf(run.serverPlan, run.server, run.server.manifest, run.client.manifest, true)
            && PlanOf(run.clientPlan, run.client, run.client.manifest, run.server.manifest, false)
  {
    var run := NestedRun();
    NestedVerdict();
    assert forall p :: !ShouldSend(run.server.manifest, run.client.manifest, true, p);
    assert forall p :: ShouldSend(run.client.manifest, run.server.manifest, false, p) ==> p == STALE;
  }

  /** Plain tombstones, both sides ready to agree, and still only one of them holds the file afterwards. */
  lemma NestedTombstoneDiverges()
    ensures var run := NestedRun();
            && run.Follows() && run.Completes() && Shaded(run, STALE)
            && HashAt(run.ClientAfter(), STALE) != HashAt(run.ServerAfter(), STALE)
  {
    var run := NestedRun();
    NestedVerdict();
    NestedHalves();
    assert run.ServerVetoed() == run.server && run.ClientReceived() == run.client && run.ClientVetoed() == run.client;
    NestedShaded();
    ShadedConverges(run, STALE);
  }

  lemma NestedShaded()
    ensures Shaded(NestedRun(), STALE) && !Settles(NestedRun(), STALE)
  {
    var run := NestedRun();
    NestedVerdict();
    JudgedByCover(run.server.ledger, run.client.manifest[STALE], STALE);
    assert run.client.ledger.Valid();
    forall q | Tombstoned(run, q)
      ensures Shared(run, q)
    {
      assert q == FOLDER;
    }
  }

  /**
   Only the client recreated the directory, at 50; the server lists nothing. The directory is delivered,
   the stale file in it is not.
   */
  function ReturnedRun(): Session {
    var l := Ledger(map[FOLDER := Tombstone(FOLDER, 40, "peer", None, None)], map[]);
    var dir, file := Meta(FOLDER, 0, [0], 50, true), Meta(STALE, 1, [1], 10, false);
    var c := map[FOLDER := dir, STALE := file];
    Session(Node(c, c, l), Node(map[], map[], l), 0, 0, Plan([], [], [], []), [],
            Plan([], [], [FOLDER], [FOLDER]), [FileData(FOLDER, dir, None)])
  }

  lemma ReturnedHalves()
    ensures ReturnedRun().Follows()
  {
    var run := ReturnedRun();
    assert run.ClientReceived() == run.client && run.ClientVetoed() == run.client;
    ReturnedPlans();
    assert DataOf(run.client, FOLDER) == run.toServer[0];
    assert PayloadOf(run.client, run.clientPlan.send, run.toServer);
  }

  lemma ReturnedPlans()
    ensures var run := ReturnedRun();
            && PlanOf(run.serverPlan, run.server, run.server.manifest, run.client.manifest, true)
            && PlanOf(run.clientPlan, run.client, run.client.manifest, run.server.manifest, false)
  {
    var run := ReturnedRun();
    NestedVerdict();
    assert forall p :: ShouldSend(run.client.manifest, run.server.manifest, false, p) <==> p == FOLDER || p == STALE;
    assert Judge(run.client.ledger, run.client.manifest[FOLDER], FOLDER).Recreated?;
  }

  lemma ReturnedCompletes()
    ensures ReturnedRun().Completes()
  {
    var run := ReturnedRun();
    assert run.ClientSwept() == run.client && run.toServer[..0] == [];
    assert !ObstructedAt(run.ServerSwept(), run.toServer, 0);
  }

  /** Plain tombstones, equal stamps and scanned trees, and still only the client holds the file afterwards. */
  lemma ReturnedDirectoryDiverges()
    ensures var run := ReturnedRun();
            && run.Follows() && run.Completes() && Shaded(run, STALE) && BackOn(run.client, run.server, FOLDER, STALE)
            && HashAt(run.ClientAfter(), STALE) != HashAt(run.ServerAfter(), STALE)
  {
    var run := ReturnedRun();
    NestedVerdict();
    ReturnedHalves();
    ReturnedCompletes();
    JudgedByCover(run.server.ledger, run.client.manifest[STALE], STALE);
    ReturnedShaded();
    ShadedConverges(run, STALE);
  }

  lemma ReturnedShaded()
    ensures Shaded(ReturnedRun(), STALE)
  {
    var run := ReturnedRun();
    NestedVerdict();
    forall q | Tombstoned(run, q)
      ensures BackOn(run.client, run.server, q, STALE)
    {
      assert q == FOLDER;
    }
  }
}
