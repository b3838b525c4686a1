/** What becomes of a journalled action: admitted and sent, settled here, or put off. */
module Admission {
  import opened Paths
  import opened Wrappers
  import opened Ledgers
  import opened LedgerExchange
  import opened Engine
  import opened EngineStore
  import opened Journals
  import opened Drain

  /** The covering tombstone that is newer than a live action, if any. */
  function Beating(l: Ledger, p: Path, actionMs: nat): Option<Tombstone> {
    var t := l.CoveringTombstone(p);
    if t.Some? && t.value.deletedAt > actionMs then t else None
  }

  datatype Judged = Judged(decision: Decision, node: Node)

  /** The decision for one entry and the engine state it leaves. `stable` tells whether the file has stopped changing. */
  function Decided(n: Node, self: string, e: Entry, stable: bool): Judged {
    match e.op
    case Upsert =>
      if e.path !in n.disk then Judged(Settled, n)
      else if !stable then Judged(Stop, n)
      else (
        match Beating(n.ledger, e.path, e.actionMs)
        case Some(t) => Judged(Settled, DeletePath(n, e.path, t.deletedAt, t.deleter))
        case None =>
          Judged(Send(WireUpsert(e.path, e.actionMs)), n.(ledger := n.ledger.RecordAlive(e.path, e.actionMs))))
    case Rename(to) => (
      match Beating(n.ledger, to, e.actionMs)
      case Some(t) =>
        var rejected := DeletePath(n, to, t.deletedAt, t.deleter);
        if e.path in rejected.disk then Judged(Settled, rejected)
        else Judged(Send(WireDelete(e.path, e.actionMs)), DeletePath(rejected, e.path, e.actionMs, self))
      case None =>
        Judged(Send(WireRename(e.path, to, e.actionMs)), n.(ledger := n.ledger.RecordAlive(to, e.actionMs))))
    case Delete =>
      if e.path in n.disk then Judged(Settled, n)
      else Judged(Send(WireDelete(e.path, e.actionMs)),
                  n.(ledger := n.ledger.Record(DeleteTomb(n.manifest, e.path, e.actionMs, self))))
  }

  method Decide(engine: SyncEngine, self: string, e: Entry, stable: bool) returns (d: Decision)
    modifies engine
    ensures Judged(d, engine.State()) == Decided(old(engine.State()), self, e, stable)
  {
    match e.op {
      case Upsert =>
        if e.path !in engine.disk {
          return Settled;
        }
        if !stable {
          return Stop;
        }
        var t := Beating(engine.ledger, e.path, e.actionMs);
        if t.Some? {
          engine.ApplyDelete(e.path, t.value.deletedAt, t.value.deleter);
          return Settled;
        }
        engine.ledger := engine.ledger.RecordAlive(e.path, e.actionMs);
        d := Send(WireUpsert(e.path, e.actionMs));
      case Rename(to) =>
        var t := Beating(engine.ledger, to, e.actionMs);
        if t.Some? {
          engine.ApplyDelete(to, t.value.deletedAt, t.value.deleter);
          if e.path in engine.disk {
            return Settled;
          }
          engine.ApplyDelete(e.path, e.actionMs, self);
          return Send(WireDelete(e.path, e.actionMs));
        }
        engine.ledger := engine.ledger.RecordAlive(to, e.actionMs);
        d := Send(WireRename(e.path, to, e.actionMs));
      case Delete =>
        if e.path in engine.disk {
          return Settled;
        }
        engine.ledger := engine.ledger.Record(DeleteTomb(engine.manifest, e.path, e.actionMs, self));
        d := Send(WireDelete(e.path, e.actionMs));
    }
  }

  // ---- Which decision is taken ----

  /** The nearest tombstone over `p` is newer than `at`. */
  ghost predicate Beaten(l: Ledger, p: Path, at: nat) {
    exists q :: l.NearestCover(q, p) && l.tombs[q].deletedAt > at
  }

  lemma BeatenExact(l: Ledger, p: Path, at: nat)
    ensures Beaten(l, p, at) <==> Beating(l, p, at).Some?
  {
    CoverNearest(l, p);
    if Beaten(l, p, at) {
      var q :| l.NearestCover(q, p) && l.tombs[q].deletedAt > at;
    }
  }

  /**
   A file is settled if it is gone, put off while it changes, settled if a tombstone beats it, and sent
   under its own path and stamp otherwise.
   */
  lemma UpsertDecision(n: Node, self: string, e: Entry, stable: bool)
    requires e.op.Upsert?
    ensures var j := Decided(n, self, e, stable);
            && (j.decision.Stop? <==> e.path in n.disk && !stable)
            && (j.decision.Send? <==> e.path in n.disk && stable && !Beaten(n.ledger, e.path, e.actionMs))
            && (j.decision.Send? ==> j.decision.wire == WireUpsert(e.path, e.actionMs))
            && (e.path !in n.disk ==> j.node == n)
  {
    BeatenExact(n.ledger, e.path, e.actionMs);
  }

  /** A beaten file goes under the stamp and the name of the tombstone that beat it. */
  lemma BeatenRecords(n: Node, self: string, e: Entry)
    requires e.op.Upsert? && e.path in n.disk && n.ledger.Valid() && Beaten(n.ledger, e.path, e.actionMs)
    ensures var j, t := Decided(n, self, e, true), n.ledger.CoveringTombstone(e.path);
            && t.Some? && e.path in j.node.ledger.tombs
            && j.node.ledger.tombs[e.path].deletedAt == t.value.deletedAt && j.node.ledger.tombs[e.path].deleter == t.value.deleter
  {
    BeatenExact(n.ledger, e.path, e.actionMs);
    var t := n.ledger.CoveringTombstone(e.path).value;
    CoverNearest(n.ledger, e.path);
    RejectionMarks(n.ledger, e.path, DeleteTomb(n.manifest, e.path, t.deletedAt, t.deleter));
  }

  /**
   A delete is sent, under its own path and stamp, exactly when the path is gone; a path that is there
   again is kept, and nothing changes.
   */
  lemma DeleteDecision(n: Node, self: string, e: Entry, stable: bool)
    requires e.op.Delete?
    ensures var j := Decided(n, self, e, stable);
            && (e.path !in n.disk ==> j.decision == Send(WireDelete(e.path, e.actionMs)))
            && (e.path in n.disk ==> j.decision == Settled && j.node == n)
            && (e.path !in n.disk && NewsAt(n.ledger, e.path, e.actionMs) ==>
                  && e.path in j.node.ledger.tombs
                  && Remembers(j.node.ledger.tombs[e.path], n.manifest, e.path, e.actionMs, self))
  {
    DeleteRemembers(n, e.path, e.actionMs, self);
  }

  /**
   A rename is sent with both its paths unless a tombstone beats the target. Then the source is deleted
   for the peer too, exactly if it is not there (again).
   */
  lemma RenameDecision(n: Node, self: string, e: Entry, stable: bool)
    requires e.op.Rename?
    ensures var d := Decided(n, self, e, stable).decision;
            && (!Beaten(n.ledger, e.op.to, e.actionMs) ==> d == Send(WireRename(e.path, e.op.to, e.actionMs)))
            && (Beaten(n.ledger, e.op.to, e.actionMs) ==> d == Settled || d == Send(WireDelete(e.path, e.actionMs)))
            && (Beaten(n.ledger, e.op.to, e.actionMs) && !StartsWith(e.path, e.op.to) ==>
                  (d == Send(WireDelete(e.path, e.actionMs)) <==> e.path !in n.disk))
  {
    BeatenExact(n.ledger, e.op.to, e.actionMs);
    if Beaten(n.ledger, e.op.to, e.actionMs) && !StartsWith(e.path, e.op.to) {
      var t := Beating(n.ledger, e.op.to, e.actionMs).value;
      DeleteMisses(n, e.op.to, t.deletedAt, t.deleter, e.path);
    }
  }

  // ---- What a decision means ----

  /** Everything but the stamps at `p` is as before. */
  ghost predicate SameElsewhere(was: Ledger, now: Ledger, p: Path) {
    forall q :: q != p ==> now.TombAt(q) == was.TombAt(q) && now.AliveSince(q) == was.AliveSince(q)
  }

  /** `p` counts as alive since `at` at least, and every tombstone over it is newer. */
  ghost predicate LiveFrom(l: Ledger, p: Path, at: nat) {
    l.AliveSince(p) >= at && (at > 0 ==> forall q :: l.Covers(q, p) ==> l.tombs[q].deletedAt > at)
  }

  /** `p` counts as deleted at `at` at least, unless a live action is newer. */
  ghost predicate DeletedFrom(l: Ledger, p: Path, at: nat) {
    (p in l.tombs && l.tombs[p].deletedAt >= at) || l.Superseded(p, at)
  }

  /**
   Putting an entry off changes nothing. An entry that is sent as recorded touches no file and leaves
   exactly its own mark in the ledger. A beaten upsert leaves the disk and the listing, except for a
   directory around newer live paths.
   */
  lemma DecisionMeans(n: Node, self: string, e: Entry, stable: bool)
    requires n.ledger.Valid()
    ensures var j := Decided(n, self, e, stable);
            && (j.decision.Stop? <==> e.op.Upsert? && e.path in n.disk && !stable)
            && (j.decision.Stop? ==> j.node == n)
            && (j.decision.Send? && !Rejected(n, e, stable) ==>
                  && j.node.disk == n.disk && j.node.manifest == n.manifest && j.node.ledger.Valid()
                  && SameElsewhere(n.ledger, j.node.ledger, Target(e))
                  && if e.op.Delete? then DeletedFrom(j.node.ledger, e.path, e.actionMs)
                     else LiveFrom(j.node.ledger, Target(e), e.actionMs))
            && (e.op.Upsert? && Rejected(n, e, stable) ==>
                  && j.decision.Settled?
                  && (n.manifest == n.disk && Engine.Closed(n.disk) && e.path != [] ==>
                        && j.node.manifest == j.node.disk
                        && (e.path in j.node.disk ==> n.disk[e.path].isDir && LiveInside(n, e.path, n.ledger.CoverAt(e.path).value))))
  {
    if e.op.Upsert? && Rejected(n, e, stable) {
      var t := n.ledger.CoveringTombstone(e.path).value;
      CoverNearest(n.ledger, e.path);
      if n.manifest == n.disk && Engine.Closed(n.disk) && e.path != [] {
        DeleteGuard(n, e.path, t.deletedAt, t.deleter);
      }
    } else if !e.op.Delete? && Decided(n, self, e, stable).decision.Send? && !Rejected(n, e, stable) {
      AliveMeans(n.ledger, Target(e), e.actionMs);
    }
  }

  lemma AliveMeans(l: Ledger, p: Path, at: nat)
    requires l.Valid()
    ensures l.RecordAlive(p, at).Valid() && LiveFrom(l.RecordAlive(p, at), p, at) && SameElsewhere(l, l.RecordAlive(p, at), p)
  {
  }

  /** A path below `p` whose live action is at least as new as `deletedAt`. */
  ghost predicate LiveInside(n: Node, p: Path, deletedAt: nat) {
    exists q :: q in n.disk && Below(q, p) && LiveSince(n.ledger, q, deletedAt)
  }

  // ---- Both ends judge alike, up to the clamp ----

  /** The path an action makes live, or deletes. */
  function Target(e: Entry): Path {
    if e.op.Rename? then e.op.to else e.path
  }

  /** The entry reached the tombstone test and lost. */
  predicate Rejected(n: Node, e: Entry, stable: bool) {
    !e.op.Delete? && (e.op.Upsert? ==> e.path in n.disk && stable) && Beating(n.ledger, Target(e), e.actionMs).Some?
  }

  /** The peer after it handled a delivered action, whose stamp it clamps first. */
  function PeerNode(peer: Node, now: nat, w: Wire, meta: Meta, moved: bool, who: string): Node {
    match w
    case WireUpsert(p, at) => WriteFile(peer, FileData(p, meta, Some(ClampFutureStamp(at, now))))
    case WireRename(from, to, at) => RenamePath(peer, from, to, ClampFutureStamp(at, now), who, moved)
    case WireDelete(p, at) => DeletePath(peer, p, ClampFutureStamp(at, now), who)
  }

  function PeerLedger(peer: Node, now: nat, w: Wire, meta: Meta, moved: bool, who: string): Ledger {
    PeerNode(peer, now, w, meta, moved, who).ledger
  }

  predicate AdmittedByPeer(peer: Ledger, now: nat, p: Path, at: nat) {
    VetoFor(peer, p, Some(ClampFutureStamp(at, now)), 0).None?
  }

  /** The stamp is clamped down past the tombstone it beat. */
  predicate ClampedUnder(cover: Option<nat>, at: nat, now: nat) {
    at > now + MAX_FUTURE_SKEW_MS && cover.Some? && now < cover.value <= at
  }

  /**
   What a peer with the same stamps admits was offered. The converse fails exactly where the clamp
   takes the stamp below the covering tombstone it beat here.
   */
  lemma OfferedIffAdmitted(n: Node, peer: Ledger, self: string, e: Entry, now: nat)
    requires n.ledger.Valid() && peer.Valid() && SameStamps(n.ledger, peer)
    requires !e.op.Delete? && (e.op.Upsert? ==> e.path in n.disk)
    ensures var d := Decided(n, self, e, true).decision;
            var offered := d.Send? && !d.wire.WireDelete?;
            var admitted := AdmittedByPeer(peer, now, Target(e), e.actionMs);
            && (offered <==> !Rejected(n, e, true))
            && (admitted ==> offered)
            && ((offered <==> admitted) <==> !ClampedUnder(n.ledger.CoverAt(Target(e)), e.actionMs, now))
  {
    SameCover(n.ledger, peer, Target(e));
  }

  /** The action tells the ledger nothing new. */
  predicate OldNews(l: Ledger, w: Wire) {
    match w
    case WireUpsert(p, at) => l.AliveSince(p) >= at
    case WireRename(_, to, at) => l.AliveSince(to) >= at
    case WireDelete(p, at) => l.AliveSince(p) >= at || (p in l.tombs && l.tombs[p].deletedAt >= at)
  }

  /** The peer's ledger once the entry is dealt with here and, if sent, there. */
  function PeerAfter(d: Decision, peer: Node, now: nat, meta: Meta, moved: bool, who: string): Ledger {
    if d.Send? then PeerLedger(peer, now, d.wire, meta, moved, who) else peer.ledger
  }

  /**
   Two sides with the same stamps have the same stamps after an entry was dealt with, sent or not,
   exactly when a rejection was by a tombstone of the very path and no news was clamped on the way.
   */
  lemma DeliveryKeepsStamps(
      n: Node, peer: Node, now: nat, self: string, e: Entry, stable: bool, meta: Meta, moved: bool, who: string)
    requires n.ledger.Valid() && peer.ledger.Valid() && SameStamps(n.ledger, peer.ledger)
    ensures var j := Decided(n, self, e, stable);
            SameStamps(j.node.ledger, PeerAfter(j.decision, peer, now, meta, moved, who)) <==>
            && (Rejected(n, e, stable) ==> n.ledger.CoveringTombstone(Target(e)).value.path == Target(e))
            && (j.decision.Send? ==>
                  ClampFutureStamp(e.actionMs, now) == e.actionMs || OldNews(n.ledger, j.decision.wire))
  {
    var w := Decided(n, self, e, stable).decision;
    if Rejected(n, e, stable) {
      RejectionExact(n, peer, now, self, e, stable, who);
    } else if w.Send? && e.op.Delete? {
      var c := ClampFutureStamp(e.actionMs, now);
      RecordExact(n.ledger, peer.ledger, DeleteTomb(n.manifest, e.path, e.actionMs, self), DeleteTomb(peer.manifest, e.path, c, who));
    } else if w.Send? {
      LiveSendExact(n.ledger, peer, now, w.wire, meta, moved, who);
    }
  }

  /** A file or a rename that no tombstone beat here, recorded here and handled by the peer. */
  lemma LiveSendExact(l: Ledger, peer: Node, now: nat, w: Wire, meta: Meta, moved: bool, who: string)
    requires l.Valid() && peer.ledger.Valid() && SameStamps(l, peer.ledger) && !w.WireDelete?
    requires Beating(l, LivePath(w), w.actionMs).None?
    ensures SameStamps(l.RecordAlive(LivePath(w), w.actionMs), PeerLedger(peer, now, w, meta, moved, who)) <==>
            ClampFutureStamp(w.actionMs, now) == w.actionMs || OldNews(l, w)
  {
    var p, c := LivePath(w), ClampFutureStamp(w.actionMs, now);
    PeerHandles(peer, now, w, meta, moved, who);
    if AdmittedByPeer(peer.ledger, now, p, w.actionMs) {
      AliveExact(l, peer.ledger, p, w.actionMs, c);
    } else {
      SameCover(l, peer.ledger, p);
      ClampedRejection(l, peer.ledger, now, p, w.actionMs);
      Differ(l.RecordAlive(p, w.actionMs), PeerLedger(peer, now, w, meta, moved, who), p);
    }
  }

  /** The peer makes a live record of an admitted action, and none otherwise. */
  lemma PeerHandles(peer: Node, now: nat, w: Wire, meta: Meta, moved: bool, who: string)
    requires !w.WireDelete?
    ensures AdmittedByPeer(peer.ledger, now, LivePath(w), w.actionMs) ==>
              PeerLedger(peer, now, w, meta, moved, who) == peer.ledger.RecordAlive(LivePath(w), ClampFutureStamp(w.actionMs, now))
    ensures !AdmittedByPeer(peer.ledger, now, LivePath(w), w.actionMs) ==>
              PeerLedger(peer, now, w, meta, moved, who).alive == peer.ledger.alive
  {
  }

  lemma Differ(a: Ledger, b: Ledger, p: Path)
    requires a.AliveSince(p) != b.AliveSince(p) || a.TombAt(p) != b.TombAt(p)
    ensures !SameStamps(a, b)
  {
  }

  /** The path a file or a rename makes live. */
  function LivePath(w: Wire): Path {
    if w.WireRename? then w.to else w.path
  }

  /** A live action under two stamps: the ledgers agree afterwards only when the later stamp is no news. */
  lemma AliveExact(a: Ledger, b: Ledger, p: Path, at: nat, clamped: nat)
    requires a.Valid() && b.Valid() && SameStamps(a, b) && clamped <= at
    ensures SameStamps(a.RecordAlive(p, at), b.RecordAlive(p, clamped)) <==> clamped == at || a.AliveSince(p) >= at
  {
    var x, y := a.RecordAlive(p, at), b.RecordAlive(p, clamped);
    assert a.AliveSince(p) == b.AliveSince(p) && a.TombAt(p) == b.TombAt(p);
    if clamped == at || a.AliveSince(p) >= at {
      forall q
        ensures x.AliveSince(q) == y.AliveSince(q) && x.TombAt(q) == y.TombAt(q)
      {
        assert a.AliveSince(q) == b.AliveSince(q) && a.TombAt(q) == b.TombAt(q);
      }
    } else {
      assert x.AliveSince(p) != y.AliveSince(p);
    }
  }

  /** A delete under two stamps likewise. */
  lemma RecordExact(a: Ledger, b: Ledger, s: Tombstone, t: Tombstone)
    requires a.Valid() && b.Valid() && SameStamps(a, b) && s.path == t.path && t.deletedAt <= s.deletedAt
    ensures SameStamps(a.Record(s), b.Record(t)) <==> t.deletedAt == s.deletedAt || OldNews(a, WireDelete(s.path, s.deletedAt))
  {
    var x, y, p := a.Record(s), b.Record(t), s.path;
    assert a.AliveSince(p) == b.AliveSince(p) && a.TombAt(p) == b.TombAt(p);
    if t.deletedAt == s.deletedAt || OldNews(a, WireDelete(p, s.deletedAt)) {
      forall q
        ensures x.AliveSince(q) == y.AliveSince(q) && x.TombAt(q) == y.TombAt(q)
      {
        assert a.AliveSince(q) == b.AliveSince(q) && a.TombAt(q) == b.TombAt(q);
      }
    } else {
      assert x.TombAt(p) != y.TombAt(p);
    }
  }

  /** The peer turns down what was offered here: then only here a live record was made. */
  lemma ClampedRejection(l: Ledger, peer: Ledger, now: nat, p: Path, at: nat)
    requires l.Valid() && l.AliveSince(p) == peer.AliveSince(p) && l.CoverAt(p) == peer.CoverAt(p)
    requires Beating(l, p, at).None? && !AdmittedByPeer(peer, now, p, at)
    ensures ClampFutureStamp(at, now) < at && l.AliveSince(p) < at
    ensures peer.AliveSince(p) != l.RecordAlive(p, at).AliveSince(p)
  {
    CoverNearest(l, p);
  }

  /** A rejection tombstones the target itself; the peer hears at most of the source. */
  lemma RejectionExact(n: Node, peer: Node, now: nat, self: string, e: Entry, stable: bool, who: string)
    requires n.ledger.Valid() && peer.ledger.Valid() && SameStamps(n.ledger, peer.ledger)
    requires Rejected(n, e, stable)
    ensures var j := Decided(n, self, e, stable);
            var after := if j.decision.Send? then DeletePath(peer, e.path, ClampFutureStamp(e.actionMs, now), who).ledger
                         else peer.ledger;
            SameStamps(j.node.ledger, after) <==>
            && n.ledger.CoveringTombstone(Target(e)).value.path == Target(e)
            && (j.decision.Send? ==>
                  ClampFutureStamp(e.actionMs, now) == e.actionMs || OldNews(n.ledger, WireDelete(e.path, e.actionMs)))
  {
    var p, t := Target(e), n.ledger.CoveringTombstone(Target(e)).value;
    var j, c := Decided(n, self, e, stable), ClampFutureStamp(e.actionMs, now);
    var mark := DeleteTomb(n.manifest, p, t.deletedAt, t.deleter);
    var m := Listed(n.manifest, n.disk, n.ledger, p, t.deletedAt);
    var mine, theirs := DeleteTomb(m, e.path, e.actionMs, self), DeleteTomb(peer.manifest, e.path, c, who);
    assert j.node.ledger == if j.decision.Send? then n.ledger.Record(mark).Record(mine) else n.ledger.Record(mark);
    RejectionMarks(n.ledger, p, mark);
    if t.path != p {
      MarkStays(n.ledger, peer.ledger, mark, mine, theirs);
    } else if j.decision.Send? {
      RecordExact(n.ledger, peer.ledger, mine, theirs);
    }
  }

  /** The mark left at the target is not known to the peer, whatever is recorded next under an older stamp. */
  lemma MarkStays(l: Ledger, peer: Ledger, mark: Tombstone, mine: Tombstone, theirs: Tombstone)
    requires SameStamps(l, peer) && l.TombAt(mark.path) == None && l.Record(mark).TombAt(mark.path) == Some(mark.deletedAt)
    requires mine.deletedAt < mark.deletedAt && theirs.deletedAt < mark.deletedAt
    ensures !SameStamps(l.Record(mark), peer)
    ensures !SameStamps(l.Record(mark).Record(mine), peer.Record(theirs))
  {
    var p := mark.path;
    assert peer.TombAt(p) == None;
    Differ(l.Record(mark), peer, p);
    Differ(l.Record(mark).Record(mine), peer.Record(theirs), p);
  }

  /** Recording the covering stamp at the path itself is new exactly when the cover stood above it. */
  lemma RejectionMarks(l: Ledger, p: Path, mark: Tombstone)
    requires l.Valid() && l.CoveringTombstone(p).Some? && mark.path == p && mark.deletedAt == l.CoveringTombstone(p).value.deletedAt
    ensures l.CoveringTombstone(p).value.path == p ==> l.Record(mark) == l
    ensures l.CoveringTombstone(p).value.path != p ==> l.TombAt(p) == None && l.Record(mark).TombAt(p) == Some(mark.deletedAt)
  {
    CoverNearest(l, p);
    if p in l.tombs && p != [] {
      ExactTombstoneWins(l, p);
    }
  }

  /**
   A journalled delete of a path that is gone here, once the peer has handled it: the peer lists and stores
   the path no more, unless a live action on it, or on something in it, is as new as the delete arrived.
   */
  lemma DeleteReachesPeer(n: Node, peer: Node, now: nat, self: string, e: Entry, stable: bool, meta: Meta, moved: bool, who: string)
    requires e.op.Delete? && e.path !in n.disk && e.path != []
    requires peer.manifest == peer.disk && Engine.Closed(peer.manifest)
    ensures var j := Decided(n, self, e, stable);
            j.decision.Send? &&
            var after := PeerNode(peer, now, j.decision.wire, meta, moved, who);
            && after.manifest == after.disk
            && (e.path in after.manifest ==>
                  var at := ClampFutureStamp(e.actionMs, now);
                  LiveSince(peer.ledger, e.path, at) || (peer.disk[e.path].isDir && LiveInside(peer, e.path, at)))
  {
    DeleteDecision(n, self, e, stable);
    DeleteGuard(peer, e.path, ClampFutureStamp(e.actionMs, now), who);
  }

  /** A file that was sent and admitted is listed and stored by the peer as it was sent. */
  lemma UpsertReachesPeer(n: Node, peer: Node, now: nat, self: string, e: Entry, meta: Meta, moved: bool, who: string)
    requires e.op.Upsert? && e.path in n.disk && !Beaten(n.ledger, e.path, e.actionMs)
    requires AdmittedByPeer(peer.ledger, now, e.path, e.actionMs)
    ensures var j := Decided(n, self, e, true);
            j.decision.Send? &&
            var after := PeerNode(peer, now, j.decision.wire, meta, moved, who);
            && e.path in after.manifest && after.manifest[e.path] == meta && e.path in after.disk && after.disk[e.path] == meta
            && after.ledger.AliveSince(e.path) >= ClampFutureStamp(e.actionMs, now)
  {
    UpsertDecision(n, self, e, true);
  }

  /** A rename that was sent and admitted, and that the peer's system carries out, moves there what it moved here. */
  lemma RenameReachesPeer(n: Node, peer: Node, now: nat, self: string, e: Entry, stable: bool, meta: Meta, who: string)
    requires e.op.Rename? && !Beaten(n.ledger, e.op.to, e.actionMs) && !Comparable(e.path, e.op.to)
    requires AdmittedByPeer(peer.ledger, now, e.op.to, e.actionMs) && e.path in peer.disk
    ensures var j := Decided(n, self, e, stable);
            j.decision.Send? &&
            var after := PeerNode(peer, now, j.decision.wire, meta, true, who);
            && Followed(peer.manifest, after.manifest, e.path, e.op.to) && Followed(peer.disk, after.disk, e.path, e.op.to)
            && after.ledger.AliveSince(e.op.to) >= ClampFutureStamp(e.actionMs, now)
  {
    RenameDecision(n, self, e, stable);
    RenameMoves(peer, e.path, e.op.to, ClampFutureStamp(e.actionMs, now), who);
  }

  /** A peer whose clock is behind turns down, as deleted, what beat the same tombstone here. */
  lemma ClampDiverges()
    ensures exists n: Node, e: Entry, now: nat ::
              && n.ledger.Valid() && Decided(n, "c", e, true).decision == Send(WireUpsert(e.path, e.actionMs))
              && !AdmittedByPeer(n.ledger, now, e.path, e.actionMs)
  {
    var p: Path := ["a"];
    var meta := Meta(p, 0, seq(32, _ => 0), 0, false);
    var t := Tombstone(p, 200_000, "s", None, None);
    var n := Node(map[p := meta], map[p := meta], Ledger(map[p := t], map[]));
    var e := Entry(1, Upsert, p, 700_000);
    ExactTombstoneWins(n.ledger, p);
    assert Decided(n, "c", e, true).decision == Send(WireUpsert(p, 700_000));
    assert !AdmittedByPeer(n.ledger, 100_000, p, 700_000);
  }
}
