/** Merging ledgers: order-independent, and settled by one server-first exchange. */
module LedgerExchange {
  import opened Paths
  import opened Wrappers
  import opened Ledgers

  /** Agreement on stamps. Tombstone metadata is first-arrival on equal stamps and may differ. */
  ghost predicate SameStamps(a: Ledger, b: Ledger) {
    forall p :: a.AliveSince(p) == b.AliveSince(p) && a.TombAt(p) == b.TombAt(p)
  }

  function Max(a: nat, b: nat): nat {
    if a < b then b else a
  }

  function MaxTomb(a: Option<nat>, b: Option<nat>): Option<nat> {
    if a.None? then b else if b.None? then a else Some(Max(a.value, b.value))
  }

  /** A tombstone stamp counts only while it is newer than the newest live action. */
  function Unlifted(tomb: Option<nat>, live: nat): Option<nat> {
    if tomb.Some? && live > 0 && tomb.value <= live then None else tomb
  }

  // ---- Folding events in any order ----

  datatype Event = Died(t: Tombstone) | Lived(path: Path, at: nat) {
    function Stamp(): nat {
      if Died? then t.deletedAt else at
    }
  }

  function ApplyEvent(l: Ledger, e: Event): Ledger {
    match e
    case Died(t) => l.Record(t)
    case Lived(p, at) => l.RecordAlive(p, at)
  }

  function Fold(l: Ledger, es: seq<Event>): Ledger {
    if es == [] then l else ApplyEvent(Fold(l, es[..|es| - 1]), es[|es| - 1])
  }

  /** The newest live action at `p` among `es` and the starting ledger. */
  function NewestLive(l: Ledger, es: seq<Event>, p: Path): nat {
    if es == [] then l.AliveSince(p)
    else
      var e, rest := es[|es| - 1], NewestLive(l, es[..|es| - 1], p);
      if e.Lived? && e.path == p then Max(rest, e.at) else rest
  }

  /** The newest tombstone stamp at `p` among `es` and the starting ledger. */
  function NewestTomb(l: Ledger, es: seq<Event>, p: Path): Option<nat> {
    if es == [] then l.TombAt(p)
    else
      var e, rest := es[|es| - 1], NewestTomb(l, es[..|es| - 1], p);
      if e.Died? && e.t.path == p then MaxTomb(rest, Some(e.t.deletedAt)) else rest
  }

  /** Folding keeps, per path, the newest live action, and the newest tombstone only if it is newer. */
  lemma {:induction false} FoldKeepsNewest(l: Ledger, es: seq<Event>, p: Path)
    requires l.Valid()
    ensures Fold(l, es).Valid()
    ensures Fold(l, es).AliveSince(p) == NewestLive(l, es, p)
    ensures Fold(l, es).TombAt(p) == Unlifted(NewestTomb(l, es, p), NewestLive(l, es, p))
  {
    if es != [] {
      FoldKeepsNewest(l, es[..|es| - 1], p);
      EventAt(Fold(l, es[..|es| - 1]), es[|es| - 1], p);
    }
  }

  /** One event at one path. */
  lemma EventAt(l: Ledger, e: Event, p: Path)
    requires l.Valid()
    ensures ApplyEvent(l, e).Valid()
    ensures ApplyEvent(l, e).AliveSince(p) == if e == Lived(p, e.Stamp()) then Max(l.AliveSince(p), e.Stamp()) else l.AliveSince(p)
    ensures ApplyEvent(l, e).TombAt(p) ==
            Unlifted(if e.Died? && e.t.path == p then MaxTomb(l.TombAt(p), Some(e.Stamp())) else l.TombAt(p),
                     ApplyEvent(l, e).AliveSince(p))
  {
  }

  lemma {:induction false} NewestLiveIsMax(l: Ledger, es: seq<Event>, p: Path)
    ensures NewestLive(l, es, p) >= l.AliveSince(p)
    ensures forall e :: e in es && e.Lived? && e.path == p ==> NewestLive(l, es, p) >= e.at
    ensures NewestLive(l, es, p) == l.AliveSince(p) || Lived(p, NewestLive(l, es, p)) in es
  {
    if es != [] {
      NewestLiveIsMax(l, es[..|es| - 1], p);
    }
  }

  lemma {:induction false} NewestTombIsMax(l: Ledger, es: seq<Event>, p: Path)
    ensures l.TombAt(p).Some? ==> NewestTomb(l, es, p).Some? && NewestTomb(l, es, p).value >= l.TombAt(p).value
    ensures forall e :: e in es && e.Died? && e.t.path == p ==>
              NewestTomb(l, es, p).Some? && NewestTomb(l, es, p).value >= e.t.deletedAt
    ensures NewestTomb(l, es, p) == l.TombAt(p) ||
            exists e :: e in es && e.Died? && e.t.path == p && NewestTomb(l, es, p) == Some(e.t.deletedAt)
  {
    if es != [] {
      NewestTombIsMax(l, es[..|es| - 1], p);
      assert es[|es| - 1] in es;
    }
  }

  ghost predicate SameEvents(a: seq<Event>, b: seq<Event>) {
    forall e :: e in a <==> e in b
  }

  /** The order and the repetition of events do not matter. */
  lemma FoldOrderIrrelevant(l: Ledger, a: seq<Event>, b: seq<Event>)
    requires l.Valid() && SameEvents(a, b)
    ensures SameStamps(Fold(l, a), Fold(l, b))
  {
    forall p
      ensures Fold(l, a).AliveSince(p) == Fold(l, b).AliveSince(p)
      ensures Fold(l, a).TombAt(p) == Fold(l, b).TombAt(p)
    {
      FoldKeepsNewest(l, a, p);
      FoldKeepsNewest(l, b, p);
      NewestLiveIsMax(l, a, p);
      NewestLiveIsMax(l, b, p);
      NewestTombIsMax(l, a, p);
      NewestTombIsMax(l, b, p);
    }
  }

  // ---- The wire form of a ledger ----

  datatype TombstoneDto = TombstoneDto(
    path: Path,
    deletedAt: nat,
    deleter: string,
    prevHash: Option<string>,
    prevMtime: Option<nat>,
    alive: bool)
  {
    function Tomb(): Tombstone {
      Tombstone(path, deletedAt, deleter, prevHash, prevMtime)
    }

    function ToEvent(): Event {
      if alive then Lived(path, deletedAt) else Died(Tomb())
    }
  }

  function TombDto(t: Tombstone): TombstoneDto {
    TombstoneDto(t.path, t.deletedAt, t.deleter, t.prevHash, t.prevMtime, false)
  }

  function AliveDto(p: Path, at: nat): TombstoneDto {
    TombstoneDto(p, at, "", None, None, true)
  }

  /** `dtos` carries every tombstone and live record of `l`, and nothing else, each path once per kind. */
  ghost predicate Lists(dtos: seq<TombstoneDto>, l: Ledger) {
    && (forall d :: d in dtos ==>
          if d.alive then d.path in l.alive && l.alive[d.path] == d.deletedAt
          else d.path in l.tombs && l.tombs[d.path] == d.Tomb())
    && (forall p :: p in l.alive ==> AliveDto(p, l.alive[p]) in dtos)
    && (forall p :: p in l.tombs ==> TombDto(l.tombs[p]) in dtos)
  }

  /** The sender's listing, in an arbitrary hash-map order: tombstones, then live records. */
  method LedgerEntries(l: Ledger) returns (out: seq<TombstoneDto>)
    requires l.Valid()
    ensures Lists(out, l)
  {
    out := [];
    var todo := l.tombs.Keys;
    while todo != {}
      invariant todo <= l.tombs.Keys
      invariant forall d :: d in out ==> !d.alive && d.path in l.tombs && l.tombs[d.path] == d.Tomb()
      invariant forall p :: p in l.tombs.Keys - todo ==> TombDto(l.tombs[p]) in out
    {
      var p :| p in todo;
      out := out + [TombDto(l.tombs[p])];
      todo := todo - {p};
    }
    todo := l.alive.Keys;
    while todo != {}
      invariant todo <= l.alive.Keys
      invariant forall d :: d in out ==>
                  if d.alive then d.path in l.alive && l.alive[d.path] == d.deletedAt
                  else d.path in l.tombs && l.tombs[d.path] == d.Tomb()
      invariant forall p :: p in l.tombs ==> TombDto(l.tombs[p]) in out
      invariant forall p :: p in l.alive.Keys - todo ==> AliveDto(p, l.alive[p]) in out
    {
      var p :| p in todo;
      out := out + [AliveDto(p, l.alive[p])];
      todo := todo - {p};
    }
  }

  // ---- Merging a listing: live records first, then the tombstones, the last one listed per path ----

  function WithLive(l: Ledger, dtos: seq<TombstoneDto>): Ledger {
    if dtos == [] then l
    else
      var d, before := dtos[|dtos| - 1], WithLive(l, dtos[..|dtos| - 1]);
      if d.alive then before.RecordAlive(d.path, d.deletedAt) else before
  }

  function RemoteTombs(dtos: seq<TombstoneDto>): map<Path, Tombstone> {
    if dtos == [] then map[]
    else
      var d, before := dtos[|dtos| - 1], RemoteTombs(dtos[..|dtos| - 1]);
      if d.alive then before else before[d.path := d.Tomb()]
  }

  function Merged(l: Ledger, dtos: seq<TombstoneDto>): Ledger {
    WithLive(l, dtos).MergeRemote(RemoteTombs(dtos))
  }

  method MergeLedger(ledger: DeletionLedger, dtos: seq<TombstoneDto>) returns (received: nat)
    modifies ledger
    ensures ledger.State() == Merged(old(ledger.State()), dtos)
    ensures received == |dtos|
  {
    var alive: seq<(Path, nat)> := [];
    var remote: map<Path, Tombstone> := map[];
    for i := 0 to |dtos|
      invariant remote == RemoteTombs(dtos[..i]) && alive == Livings(dtos[..i])
    {
      var d := dtos[i];
      assert dtos[..i + 1][..i] == dtos[..i];
      if d.alive {
        alive := alive + [(d.path, d.deletedAt)];
      } else {
        remote := remote[d.path := d.Tomb()];
      }
    }
    assert dtos[..|dtos|] == dtos;
    ghost var start := ledger.State();
    for j := 0 to |alive|
      invariant ledger.State() == FoldLive(start, alive[..j])
    {
      assert alive[..j + 1][..j] == alive[..j];
      var _ := ledger.RecordAlive(alive[j].0, alive[j].1);
    }
    assert alive[..|alive|] == alive;
    FoldLiveIsWithLive(start, dtos);
    assert ledger.State() == WithLive(start, dtos);
    ledger.MergeRemote(remote);
    received := |dtos|;
  }

  ghost function Livings(dtos: seq<TombstoneDto>): seq<(Path, nat)> {
    if dtos == [] then []
    else
      var d, before := dtos[|dtos| - 1], Livings(dtos[..|dtos| - 1]);
      if d.alive then before + [(d.path, d.deletedAt)] else before
  }

  ghost function FoldLive(l: Ledger, pairs: seq<(Path, nat)>): Ledger {
    if pairs == [] then l
    else FoldLive(l, pairs[..|pairs| - 1]).RecordAlive(pairs[|pairs| - 1].0, pairs[|pairs| - 1].1)
  }

  lemma {:induction false} FoldLiveIsWithLive(l: Ledger, dtos: seq<TombstoneDto>)
    ensures FoldLive(l, Livings(dtos)) == WithLive(l, dtos)
  {
    if dtos != [] {
      var init := dtos[..|dtos| - 1];
      FoldLiveIsWithLive(l, init);
      var d := dtos[|dtos| - 1];
      if d.alive {
        assert Livings(dtos)[..|Livings(dtos)| - 1] == Livings(init);
      }
    }
  }

  // ---- A merged listing is the join of the two ledgers ----

  ghost predicate ListsLive(dtos: seq<TombstoneDto>, p: Path) {
    exists d :: d in dtos && d.alive && d.path == p
  }

  lemma {:induction false} WithLiveJoins(l: Ledger, dtos: seq<TombstoneDto>, other: Ledger, p: Path)
    requires l.Valid() && other.Valid()
    requires forall d :: d in dtos && d.alive ==> d.path in other.alive && other.alive[d.path] == d.deletedAt
    ensures WithLive(l, dtos).Valid()
    ensures WithLive(l, dtos).AliveSince(p) ==
            if ListsLive(dtos, p) then Max(l.AliveSince(p), other.AliveSince(p)) else l.AliveSince(p)
    ensures WithLive(l, dtos).TombAt(p) == Unlifted(l.TombAt(p), WithLive(l, dtos).AliveSince(p))
  {
    if dtos != [] {
      var init, d := dtos[..|dtos| - 1], dtos[|dtos| - 1];
      assert d in dtos;
      WithLiveJoins(l, init, other, p);
      assert ListsLive(dtos, p) <==> ListsLive(init, p) || (d.alive && d.path == p);
    }
  }

  lemma {:induction false} RemoteTombsListed(dtos: seq<TombstoneDto>, other: Ledger)
    requires forall d :: d in dtos && !d.alive ==> d.path in other.tombs && other.tombs[d.path] == d.Tomb()
    ensures forall p :: p in RemoteTombs(dtos) ==> p in other.tombs && RemoteTombs(dtos)[p] == other.tombs[p]
    ensures forall d :: d in dtos && !d.alive ==> d.path in RemoteTombs(dtos)
  {
    if dtos != [] {
      assert dtos[|dtos| - 1] in dtos;
      RemoteTombsListed(dtos[..|dtos| - 1], other);
    }
  }

  lemma MergeRemoteJoins(m: Ledger, other: Ledger, p: Path)
    requires m.Valid() && other.Valid()
    ensures m.MergeRemote(other.tombs).Valid()
    ensures m.MergeRemote(other.tombs).TombAt(p) == MaxTomb(m.TombAt(p), Unlifted(other.TombAt(p), m.AliveSince(p)))
  {
    if p in other.tombs {
      assert other.tombs[p].(path := p) == other.tombs[p];
    }
  }

  lemma ListedTombs(dtos: seq<TombstoneDto>, other: Ledger)
    requires other.Valid() && Lists(dtos, other)
    ensures RemoteTombs(dtos) == other.tombs
  {
    RemoteTombsListed(dtos, other);
    forall p | p in other.tombs
      ensures p in RemoteTombs(dtos)
    {
      assert TombDto(other.tombs[p]) in dtos;
    }
  }

  lemma MergeJoinsAt(l: Ledger, other: Ledger, dtos: seq<TombstoneDto>, p: Path)
    requires l.Valid() && other.Valid() && Lists(dtos, other)
    ensures Merged(l, dtos).Valid()
    ensures Merged(l, dtos).AliveSince(p) == Max(l.AliveSince(p), other.AliveSince(p))
    ensures Merged(l, dtos).TombAt(p) ==
            Unlifted(MaxTomb(l.TombAt(p), other.TombAt(p)), Max(l.AliveSince(p), other.AliveSince(p)))
  {
    ListedTombs(dtos, other);
    WithLiveJoins(l, dtos, other, p);
    if p in other.alive {
      assert AliveDto(p, other.alive[p]) in dtos && ListsLive(dtos, p);
    }
    MergeRemoteJoins(WithLive(l, dtos), other, p);
  }

  /** Merging a peer's listing joins the two ledgers path by path. */
  lemma MergeIsJoin(l: Ledger, other: Ledger, dtos: seq<TombstoneDto>)
    requires l.Valid() && other.Valid() && Lists(dtos, other)
    ensures Merged(l, dtos).Valid()
    ensures forall p :: Merged(l, dtos).AliveSince(p) == Max(l.AliveSince(p), other.AliveSince(p))
    ensures forall p :: Merged(l, dtos).TombAt(p) ==
                        Unlifted(MaxTomb(l.TombAt(p), other.TombAt(p)), Max(l.AliveSince(p), other.AliveSince(p)))
  {
    MergeJoinsAt(l, other, dtos, []);
    forall p
      ensures Merged(l, dtos).AliveSince(p) == Max(l.AliveSince(p), other.AliveSince(p))
      ensures Merged(l, dtos).TombAt(p) ==
              Unlifted(MaxTomb(l.TombAt(p), other.TombAt(p)), Max(l.AliveSince(p), other.AliveSince(p)))
    {
      MergeJoinsAt(l, other, dtos, p);
    }
  }

  /** Merging a listing is folding its records as events, in whatever order they are listed. */
  lemma MergeIsFold(l: Ledger, other: Ledger, dtos: seq<TombstoneDto>, es: seq<Event>)
    requires l.Valid() && other.Valid() && Lists(dtos, other)
    requires forall e :: e in es <==> exists d :: d in dtos && d.ToEvent() == e
    ensures SameStamps(Merged(l, dtos), Fold(l, es))
  {
    MergeIsJoin(l, other, dtos);
    forall p
      ensures Fold(l, es).AliveSince(p) == Max(l.AliveSince(p), other.AliveSince(p))
      ensures Fold(l, es).TombAt(p) ==
              Unlifted(MaxTomb(l.TombAt(p), other.TombAt(p)), Max(l.AliveSince(p), other.AliveSince(p)))
    {
      FoldKeepsNewest(l, es, p);
      NewestListed(l, other, dtos, es, p);
    }
  }

  /** The newest stamps among a ledger and a peer's listing are the maxima of the two ledgers. */
  lemma NewestListed(l: Ledger, other: Ledger, dtos: seq<TombstoneDto>, es: seq<Event>, p: Path)
    requires other.Valid() && Lists(dtos, other)
    requires forall e :: e in es <==> exists d :: d in dtos && d.ToEvent() == e
    ensures NewestLive(l, es, p) == Max(l.AliveSince(p), other.AliveSince(p))
    ensures NewestTomb(l, es, p) == MaxTomb(l.TombAt(p), other.TombAt(p))
  {
    NewestLiveIsMax(l, es, p);
    NewestTombIsMax(l, es, p);
    if p in other.alive {
      assert AliveDto(p, other.alive[p]).ToEvent() in es;
    }
    if p in other.tombs {
      assert TombDto(other.tombs[p]).ToEvent() in es;
    }
  }

  /**
   The handshake: the client merges the server's listing, then the server merges what the client
   holds by then. Both end with the same stamps, the join of what they started with.
   */
  lemma ExchangeAgrees(client: Ledger, server: Ledger, fromServer: seq<TombstoneDto>, fromClient: seq<TombstoneDto>)
    requires client.Valid() && server.Valid()
    requires Lists(fromServer, server) && Lists(fromClient, Merged(client, fromServer))
    ensures Merged(client, fromServer).Valid() && Merged(server, fromClient).Valid()
    ensures SameStamps(Merged(client, fromServer), Merged(server, fromClient))
    ensures forall p :: Merged(server, fromClient).AliveSince(p) == Max(client.AliveSince(p), server.AliveSince(p))
  {
    var merged := Merged(client, fromServer);
    MergeIsJoin(client, server, fromServer);
    MergeIsJoin(server, merged, fromClient);
    forall p
      ensures Merged(server, fromClient).AliveSince(p) == merged.AliveSince(p) == Max(client.AliveSince(p), server.AliveSince(p))
      ensures Merged(server, fromClient).TombAt(p) == merged.TombAt(p)
    {
      JoinAbsorbs(client.TombAt(p), server.TombAt(p), client.AliveSince(p), server.AliveSince(p));
    }
  }

  /** Joining one's own part again changes nothing. */
  lemma JoinAbsorbs(a: Option<nat>, b: Option<nat>, x: nat, y: nat)
    ensures Max(y, Max(x, y)) == Max(x, y)
    ensures Unlifted(MaxTomb(b, Unlifted(MaxTomb(a, b), Max(x, y))), Max(x, y)) == Unlifted(MaxTomb(a, b), Max(x, y))
  {
  }

  /** Once stamps agree, merging the peer's listing again changes nothing at all. */
  lemma ExchangeSettles(a: Ledger, b: Ledger, dtos: seq<TombstoneDto>)
    requires a.Valid() && b.Valid() && SameStamps(a, b) && Lists(dtos, b)
    ensures Merged(a, dtos) == a
  {
    MergeIsJoin(a, b, dtos);
    RemoteTombsListed(dtos, b);
    LiveSettled(a, b, dtos);
    forall p | p in RemoteTombs(dtos)
      ensures !a.Accepts(RemoteTombs(dtos)[p].(path := p))
    {
      assert a.TombAt(p) == b.TombAt(p);
    }
    assert a.MergeRemote(RemoteTombs(dtos)).tombs == a.tombs;
  }

  lemma {:induction false} LiveSettled(a: Ledger, b: Ledger, dtos: seq<TombstoneDto>)
    requires a.Valid() && b.Valid() && SameStamps(a, b)
    requires forall d :: d in dtos && d.alive ==> d.path in b.alive && b.alive[d.path] == d.deletedAt
    ensures WithLive(a, dtos) == a
  {
    if dtos != [] {
      var d := dtos[|dtos| - 1];
      assert d in dtos;
      LiveSettled(a, b, dtos[..|dtos| - 1]);
      if d.alive {
        assert a.AliveSince(d.path) == b.AliveSince(d.path);
      }
    }
  }

  /** Ledgers with the same stamps along a path cover it alike, whoever recorded the tombstones. */
  lemma SameCover(a: Ledger, b: Ledger, p: Path)
    requires a.Valid() && b.Valid() && a.AliveSince(p) == b.AliveSince(p)
    requires forall q :: StartsWith(p, q) ==> a.TombAt(q) == b.TombAt(q)
    ensures a.CoverAt(p) == b.CoverAt(p)
    ensures a.CoveringTombstone(p).Some? ==> a.CoveringTombstone(p).value.path == b.CoveringTombstone(p).value.path
  {
    forall q
      ensures a.Covers(q, p) <==> b.Covers(q, p)
    {
      assert StartsWith(p, q) ==> a.TombAt(q) == b.TombAt(q);
    }
    CoverNearest(a, p);
    CoverNearest(b, p);
    if a.CoveringTombstone(p).Some? {
      var q :| a.NearestCover(q, p) && a.CoveringTombstone(p).value == a.tombs[q];
      assert b.NearestCover(q, p) && a.TombAt(q) == b.TombAt(q);
    }
  }

  /** Merging brings no tombstone that neither side held. */
  lemma MergedFrom(l: Ledger, other: Ledger, dtos: seq<TombstoneDto>, p: Path)
    requires other.Valid() && Lists(dtos, other) && p in Merged(l, dtos).tombs
    ensures Holds(l, p, Merged(l, dtos).tombs[p]) || Holds(other, p, Merged(l, dtos).tombs[p])
  {
    ListedTombs(dtos, other);
    WithLiveKeeps(l, dtos, p);
  }

  predicate Holds(l: Ledger, p: Path, t: Tombstone) {
    p in l.tombs && l.tombs[p] == t
  }

  lemma {:induction false} WithLiveKeeps(l: Ledger, dtos: seq<TombstoneDto>, p: Path)
    ensures p in WithLive(l, dtos).tombs ==> Holds(l, p, WithLive(l, dtos).tombs[p])
  {
    if dtos != [] {
      WithLiveKeeps(l, dtos[..|dtos| - 1], p);
    }
  }
}
