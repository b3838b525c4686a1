/** Initial sync: what each side sends, vetoes and deletes, and when both end with the same content. */
module Reconcile {
  import opened Paths
  import opened Wrappers
  import opened Digests
  import opened Ledgers
  import opened Engine

  // ---- Decisions ----

  /** `p` exists here only, or differs and is newer here; the server wins ties. */
  predicate ShouldSend(local: Manifest, remote: Manifest, isServer: bool, p: Path) {
    p in local &&
    (p in remote ==>
       local[p].hash != remote[p].hash &&
       (local[p].modifiedMs > remote[p].modifiedMs || (local[p].modifiedMs == remote[p].modifiedMs && isServer)))
  }

  datatype Verdict = Pass | Recreated | Vetoed

  /** The copy looks like the deleted version, or an older one; missing information sides with the delete. */
  predicate LooksDeleted(meta: Meta, t: Tombstone) {
    || (t.prevHash.Some? ==> Hex(meta.hash) == t.prevHash.value)
    || (t.prevMtime.Some? ==> meta.modifiedMs <= t.prevMtime.value)
  }

  function Judge(l: Ledger, meta: Meta, p: Path): Verdict {
    if p in l.tombs then
      var t := l.tombs[p];
      if meta.modifiedMs > t.deletedAt then Recreated
      else if l.HasNewerThan(p, meta.modifiedMs) && LooksDeleted(meta, t) then Vetoed
      else Pass
    else
      match l.CoveringTombstone(p)
      case None => Pass
      case Some(cover) =>
        if meta.modifiedMs > cover.deletedAt then Recreated
        else if cover.deletedAt > meta.modifiedMs then Vetoed
        else Pass
  }

  /**
   After a listed version was deleted, a copy older than the delete is held for that version or an older one,
   and vetoed, exactly when it has its content or is no newer; any other copy passes.
   */
  lemma DeletedVersionJudged(n: Node, p: Path, deletedAt: nat, deleter: string, copy: Meta)
    requires p in n.manifest && NewsAt(n.ledger, p, deletedAt) && copy.modifiedMs < deletedAt
    ensures var after := DeletePath(n, p, deletedAt, deleter).ledger;
            Judge(after, copy, p) ==
            if copy.hash == n.manifest[p].hash || copy.modifiedMs <= n.manifest[p].modifiedMs then Vetoed else Pass
  {
    DeleteRemembers(n, p, deletedAt, deleter);
    if Hex(copy.hash) == Hex(n.manifest[p].hash) {
      HexInjective(copy.hash, n.manifest[p].hash);
    }
  }

  /** After a path was deleted that was not listed, every copy older than the delete is vetoed. */
  lemma UnlistedDeleteJudged(n: Node, p: Path, deletedAt: nat, deleter: string, copy: Meta)
    requires p !in n.manifest && NewsAt(n.ledger, p, deletedAt) && copy.modifiedMs < deletedAt
    ensures Judge(DeletePath(n, p, deletedAt, deleter).ledger, copy, p) == Vetoed
  {
    DeleteRemembers(n, p, deletedAt, deleter);
  }

  /** The peer still lists a path this side knows to be deleted later. */
  predicate MissedDelete(local: Manifest, remote: Manifest, l: Ledger, p: Path) {
    p in l.tombs && p !in local && p in remote && l.tombs[p].deletedAt > remote[p].modifiedMs
  }

  ghost predicate Enumerates<T(!new)>(xs: seq<T>, member: T -> bool) {
    && (forall i, j :: 0 <= i < j < |xs| ==> xs[i] != xs[j])
    && (forall x :: x in xs <==> member(x))
  }

  method ComputeSendList(local: Manifest, remote: Manifest, isServer: bool) returns (out: seq<Path>)
    ensures Enumerates(out, p => ShouldSend(local, remote, isServer, p))
  {
    out := [];
    var todo := local.Keys;
    while todo != {}
      invariant todo <= local.Keys
      invariant forall i, j :: 0 <= i < j < |out| ==> out[i] != out[j]
      invariant forall p :: p in out <==> p in local && p !in todo && ShouldSend(local, remote, isServer, p)
    {
      var p :| p in todo;
      var lm := local[p];
      assert forall i :: 0 <= i < |out| ==> out[i] in out && out[i] != p;
      if p !in remote {
        out := out + [p];
      } else if lm.hash != remote[p].hash {
        if lm.modifiedMs > remote[p].modifiedMs {
          out := out + [p];
        } else if lm.modifiedMs == remote[p].modifiedMs && isServer {
          out := out + [p];
        }
      }
      todo := todo - {p};
    }
  }

  /** Split a send list into what is sent and, among that, what was legitimately recreated. */
  method FilterResurrected(sendList: seq<Path>, local: Manifest, ledger: Option<Ledger>)
    returns (toSend: seq<Path>, resurrected: seq<Path>)
    ensures ledger.None? ==> toSend == sendList && resurrected == []
    ensures ledger.Some? ==>
              && (forall p :: p in toSend <==> p in sendList && (p in local ==> !Judge(ledger.value, local[p], p).Vetoed?))
              && (forall p :: p in resurrected <==> p in sendList && p in local && Judge(ledger.value, local[p], p).Recreated?)
    ensures (forall i, j :: 0 <= i < j < |sendList| ==> sendList[i] != sendList[j]) ==>
              && (forall i, j :: 0 <= i < j < |toSend| ==> toSend[i] != toSend[j])
              && (forall i, j :: 0 <= i < j < |resurrected| ==> resurrected[i] != resurrected[j])
  {
    if ledger.None? {
      return sendList, [];
    }
    var l := ledger.value;
    toSend, resurrected := [], [];
    for i := 0 to |sendList|
      invariant forall p :: p in toSend <==> p in sendList[..i] && (p in local ==> !Judge(l, local[p], p).Vetoed?)
      invariant forall p :: p in resurrected <==> p in sendList[..i] && p in local && Judge(l, local[p], p).Recreated?
      invariant (forall i, j :: 0 <= i < j < |sendList| ==> sendList[i] != sendList[j]) ==>
                  && (forall i, j :: 0 <= i < j < |toSend| ==> toSend[i] != toSend[j])
                  && (forall i, j :: 0 <= i < j < |resurrected| ==> resurrected[i] != resurrected[j])
    {
      var p := sendList[i];
      if p !in local {
        toSend := toSend + [p];
        continue;
      }
      var meta := local[p];
      if p in l.tombs {
        var tomb := l.tombs[p];
        if meta.modifiedMs > tomb.deletedAt {
          resurrected, toSend := resurrected + [p], toSend + [p];
        } else if l.HasNewerThan(p, meta.modifiedMs) {
          var hashMatches := match tomb.prevHash case Some(prev) => Hex(meta.hash) == prev case None => true;
          var mtimeNotNewer := match tomb.prevMtime case Some(prev) => meta.modifiedMs <= prev case None => true;
          if !(hashMatches || mtimeNotNewer) {
            toSend := toSend + [p];
          }
        } else {
          toSend := toSend + [p];
        }
        continue;
      }
      match l.CoveringTombstone(p) {
        case None => toSend := toSend + [p];
        case Some(cover) =>
          if meta.modifiedMs > cover.deletedAt {
            resurrected, toSend := resurrected + [p], toSend + [p];
          } else if cover.deletedAt > meta.modifiedMs {
          } else {
            toSend := toSend + [p];
          }
      }
    }
    assert sendList[..|sendList|] == sendList;
  }

  /** A delete as the peer is told about it: never re-stamped. */
  datatype Deletion = Deletion(path: Path, at: nat, deleter: string)

  function DeletionOf(l: Ledger, p: Path): Deletion
    requires p in l.tombs
  {
    Deletion(p, l.tombs[p].deletedAt, l.tombs[p].deleter)
  }

  /** Missed deletes in path order. */
  method ComputeDeletesToPush(local: Manifest, remote: Manifest, ledger: Ledger) returns (out: seq<Deletion>)
    ensures Enumerates(out, (d: Deletion) => MissedDelete(local, remote, ledger, d.path) && d == DeletionOf(ledger, d.path))
    ensures forall i, j :: 0 <= i < j < |out| ==> PathLe(out[i].path, out[j].path)
  {
    var found: set<Path> := {};
    var todo := ledger.tombs.Keys;
    while todo != {}
      invariant todo <= ledger.tombs.Keys
      invariant found == set p | p in ledger.tombs.Keys - todo && MissedDelete(local, remote, ledger, p)
    {
      var p :| p in todo;
      if p !in local && p in remote && ledger.tombs[p].deletedAt > remote[p].modifiedMs {
        found := found + {p};
      }
      todo := todo - {p};
    }
    var sorted := SortPaths(found);
    assert forall i :: 0 <= i < |sorted| ==> sorted[i] in sorted;
    out := seq(|sorted|, i requires 0 <= i < |sorted| => DeletionOf(ledger, sorted[i]));
    forall d: Deletion | MissedDelete(local, remote, ledger, d.path) && d == DeletionOf(ledger, d.path)
      ensures d in out
    {
      assert d.path in sorted;
      var i :| 0 <= i < |sorted| && sorted[i] == d.path;
      assert out[i] == d;
    }
  }

  method SortPaths(ps: set<Path>) returns (out: seq<Path>)
    ensures forall p :: p in out <==> p in ps
    ensures forall i, j :: 0 <= i < j < |out| ==> out[i] != out[j] && PathLe(out[i], out[j])
  {
    out := [];
    var rest := ps;
    while rest != {}
      invariant rest <= ps
      invariant forall p :: p in out <==> p in ps && p !in rest
      invariant forall i, j :: 0 <= i < j < |out| ==> out[i] != out[j] && PathLe(out[i], out[j])
      invariant forall i, p :: 0 <= i < |out| && p in rest ==> PathLe(out[i], p)
    {
      ghost var first := FirstExists(rest);
      var p :| p in rest && IsFirst(p, rest);
      FirstIsLe(p, rest);
      assert forall i :: 0 <= i < |out| ==> out[i] in out && out[i] != p && PathLe(out[i], p);
      out := out + [p];
      rest := rest - {p};
    }
  }

  lemma FirstIsLe(p: Path, ps: set<Path>)
    requires IsFirst(p, ps)
    ensures forall q :: q in ps ==> PathLe(p, q)
  {
  }
}
