/** The deletion ledger: tombstones and live-action records under last-writer-wins. */
module Ledgers {
  import opened Paths
  import opened Wrappers

  datatype Tombstone = Tombstone(
    path: Path,
    deletedAt: nat,
    deleter: string,
    prevHash: Option<string>,
    prevMtime: Option<nat>)

  /** The value of a ledger: `tombs` by path, and `alive[p]` the newest live action at `p`. */
  datatype Ledger = Ledger(tombs: map<Path, Tombstone>, alive: map<Path, nat>) {

    /** Stamp of the newest live action at `p`, 0 when none is recorded. */
    function AliveSince(p: Path): nat {
      if p in alive then alive[p] else 0
    }

    /** Stamp of the tombstone stored at exactly `p`. */
    function TombAt(p: Path): Option<nat> {
      if p in tombs then Some(tombs[p].deletedAt) else None
    }

    predicate Superseded(p: Path, deletedAt: nat) {
      p in alive && deletedAt <= alive[p]
    }

    /** A tombstone enters only when it beats the live record and the stored tombstone. */
    predicate Accepts(t: Tombstone) {
      !Superseded(t.path, t.deletedAt) && (t.path in tombs ==> tombs[t.path].deletedAt < t.deletedAt)
    }

    function Record(t: Tombstone): Ledger {
      if Accepts(t) then this.(tombs := tombs[t.path := t]) else this
    }

    predicate Lifts(p: Path, actionMs: nat) {
      p in tombs && tombs[p].deletedAt <= actionMs
    }

    function RecordAlive(p: Path, actionMs: nat): Ledger {
      if actionMs == 0 then this
      else
        Ledger(if Lifts(p, actionMs) then tombs - {p} else tombs,
               if actionMs > AliveSince(p) then alive[p := actionMs] else alive)
    }

    function MergeRemote(remote: map<Path, Tombstone>): Ledger {
      Ledger(tombs + (map p | p in remote && Accepts(remote[p].(path := p)) :: remote[p]), alive)
    }

    function Prune(now: nat, ttl: nat): Ledger {
      Ledger(map p | p in tombs && Fresh(tombs[p].deletedAt, now, ttl) :: tombs[p],
             map p | p in alive && Fresh(alive[p], now, ttl) :: alive[p])
    }

    function Remove(p: Path): Ledger {
      this.(tombs := tombs - {p})
    }

    /** What every run keeps: a stored tombstone is newer than the live record of its path. */
    ghost predicate Valid() {
      && (forall p :: p in alive ==> alive[p] > 0)
      && (forall p :: p in tombs ==> tombs[p].path == p)
      && (forall p :: p in tombs && p in alive ==> alive[p] < tombs[p].deletedAt)
    }

    /** A tombstone at the ancestor `q` (or at `p` itself) that still applies to `p`. */
    predicate Covers(q: Path, p: Path) {
      q != [] && StartsWith(p, q) && q in tombs && !Superseded(p, tombs[q].deletedAt)
    }

    /** `q` is the longest prefix of `p` holding a tombstone that applies to `p`. */
    ghost predicate NearestCover(q: Path, p: Path) {
      Covers(q, p) && forall r :: Covers(r, p) ==> |r| <= |q|
    }

    /** Nearest applicable tombstone, walking `p` and then its ancestors of length at most `n`. */
    function CoverFrom(p: Path, n: nat): (r: Option<Tombstone>)
      requires n <= |p|
      ensures r.Some? <==> exists q :: Covers(q, p) && |q| <= n
      ensures r.Some? ==> exists q :: Covers(q, p) && |q| <= n && r.value == tombs[q] && (forall s :: Covers(s, p) && |s| <= n ==> |s| <= |q|)
    {
      if n == 0 then None
      else if Covers(p[..n], p) then Some(tombs[p[..n]])
      else
        assert forall q :: Covers(q, p) && |q| <= n ==> |q| <= n - 1 by {
          forall q | Covers(q, p) && |q| <= n
            ensures |q| <= n - 1
          {
            assert q == p[..|q|];
          }
        }
        CoverFrom(p, n - 1)
    }

    function CoveringTombstone(p: Path): Option<Tombstone> {
      CoverFrom(p, |p|)
    }

    /** Stamp of the tombstone that covers `p`. */
    function CoverAt(p: Path): Option<nat> {
      var t := CoveringTombstone(p);
      if t.Some? then Some(t.value.deletedAt) else None
    }

    predicate HasNewerThan(p: Path, mtime: nat) {
      p in tombs && tombs[p].deletedAt > mtime
    }

    predicate HasNewerThanPrefix(p: Path, mtime: nat) {
      var t := CoveringTombstone(p);
      t.Some? && t.value.deletedAt > mtime
    }
  }

  /** A stamp survives pruning when it lies in the future or within the time-to-live. */
  predicate Fresh(stamp: nat, now: nat, ttl: nat) {
    stamp > now || now - stamp <= ttl
  }

  const EMPTY := Ledger(map[], map[])

  // ---- The mutable ledger ----

  class DeletionLedger {
    var entries: map<Path, Tombstone>
    var alive: map<Path, nat>

    function State(): Ledger
      reads this
    {
      Ledger(entries, alive)
    }

    constructor ()
      ensures State() == EMPTY
    {
      entries, alive := map[], map[];
    }

    method Record(path: Path, deletedAt: nat, deleter: string, prevHash: Option<string>, prevMtime: Option<nat>)
      modifies this
      ensures State() == old(State()).Record(Tombstone(path, deletedAt, deleter, prevHash, prevMtime))
    {
      if path in alive && deletedAt <= alive[path] {
        return;
      }
      var entry := Tombstone(path, deletedAt, deleter, prevHash, prevMtime);
      if !(path in entries && entries[path].deletedAt >= deletedAt) {
        entries := entries[path := entry];
      }
    }

    method RecordAlive(path: Path, actionMs: nat) returns (changed: bool)
      modifies this
      ensures State() == old(State()).RecordAlive(path, actionMs)
      ensures changed <==> actionMs > 0 && (actionMs > old(State()).AliveSince(path) || old(State()).Lifts(path, actionMs))
      ensures old(State()).Valid() ==> (changed <==> State() != old(State()))
    {
      changed := false;
      if actionMs == 0 {
        return;
      }
      if actionMs > State().AliveSince(path) {
        alive := alive[path := actionMs];
        changed := true;
      }
      if path in entries && entries[path].deletedAt <= actionMs {
        entries := entries - {path};
        changed := true;
      }
    }

    /** `remote` is a hash map: its entries are visited in an arbitrary order. */
    method MergeRemote(remote: map<Path, Tombstone>)
      modifies this
      ensures State() == old(State()).MergeRemote(remote)
    {
      var todo := remote.Keys;
      ghost var done: map<Path, Tombstone> := map[];
      while todo != {}
        invariant todo <= remote.Keys && done == remote - todo
        invariant State() == old(State()).MergeRemote(done)
      {
        var p :| p in todo;
        MergeOneMore(old(State()), done, p, remote[p]);
        if !(p in alive && remote[p].deletedAt <= alive[p]) {
          if !(p in entries && entries[p].deletedAt >= remote[p].deletedAt) {
            entries := entries[p := remote[p]];
          }
        }
        todo, done := todo - {p}, done[p := remote[p]];
      }
      assert done == remote;
    }

    method Prune(now: nat, ttl: nat) returns (removed: nat)
      modifies this
      ensures State() == old(State()).Prune(now, ttl)
      ensures forall p :: p in entries <==> p in old(entries) && old(entries)[p].deletedAt + ttl >= now
      ensures forall p :: p in alive <==> p in old(alive) && old(alive)[p] + ttl >= now
      ensures (forall p :: p in entries ==> entries[p] == old(entries)[p]) && (forall p :: p in alive ==> alive[p] == old(alive)[p])
      ensures removed == (|old(entries)| - |entries|) + (|old(alive)| - |alive|)
    {
      var keptEntries := map p | p in entries && Fresh(entries[p].deletedAt, now, ttl) :: entries[p];
      var keptAlive := map p | p in alive && Fresh(alive[p], now, ttl) :: alive[p];
      SubmapSmaller(keptEntries, entries);
      SubmapSmaller(keptAlive, alive);
      removed := (|entries| - |keptEntries|) + (|alive| - |keptAlive|);
      entries, alive := keptEntries, keptAlive;
    }

    method Remove(path: Path) returns (t: Option<Tombstone>)
      modifies this
      ensures State() == old(State()).Remove(path)
      ensures t == if path in old(entries) then Some(old(entries)[path]) else None
    {
      t := if path in entries then Some(entries[path]) else None;
      entries := entries - {path};
    }

    /** Tries ever shorter prefixes of `path`, down to its first component. */
    method CoveringTombstone(path: Path) returns (r: Option<Tombstone>)
      ensures r == State().CoveringTombstone(path)
      ensures r.None? ==> forall q :: !State().Covers(q, path)
      ensures r.Some? ==> exists q :: State().NearestCover(q, path) && r.value == entries[q]
    {
      CoverNearest(State(), path);
      var n := |path|;
      while n > 0
        invariant 0 <= n <= |path|
        invariant State().CoveringTombstone(path) == State().CoverFrom(path, n)
      {
        var ancestor := path[..n];
        CoverStep(State(), path, n);
        if ancestor in entries {
          if !(path in alive && entries[ancestor].deletedAt <= alive[path]) {
            return Some(entries[ancestor]);
          }
        }
        n := n - 1;
      }
      r := None;
    }
  }

  /** The walk looks at one ancestor and goes on to the next. */
  lemma CoverStep(l: Ledger, p: Path, n: nat)
    requires 0 < n <= |p|
    ensures l.CoverFrom(p, n) == if l.Covers(p[..n], p) then Some(l.tombs[p[..n]]) else l.CoverFrom(p, n - 1)
    ensures l.Covers(p[..n], p) <==> p[..n] in l.tombs && !l.Superseded(p, l.tombs[p[..n]].deletedAt)
  {
  }

  /** Merging one more remote tombstone is one guarded insertion into what was merged so far. */
  lemma MergeOneMore(l: Ledger, done: map<Path, Tombstone>, p: Path, t: Tombstone)
    requires p !in done
    ensures l.MergeRemote(done).alive == l.alive
    ensures p in l.MergeRemote(done).tombs <==> p in l.tombs
    ensures p in l.tombs ==> l.MergeRemote(done).tombs[p] == l.tombs[p]
    ensures l.MergeRemote(done[p := t]).tombs ==
            if l.Accepts(t.(path := p)) then l.MergeRemote(done).tombs[p := t] else l.MergeRemote(done).tombs
  {
    var more := done[p := t];
    var after := if l.Accepts(t.(path := p)) then l.MergeRemote(done).tombs[p := t] else l.MergeRemote(done).tombs;
    forall q
      ensures q in l.MergeRemote(more).tombs <==> q in after
      ensures q in after ==> l.MergeRemote(more).tombs[q] == after[q]
    {
      MergedAt(l, more, q);
      MergedAt(l, done, q);
    }
  }

  /** What a merge leaves at one path. */
  lemma MergedAt(l: Ledger, remote: map<Path, Tombstone>, q: Path)
    ensures var tombs := l.MergeRemote(remote).tombs;
            if q in remote && l.Accepts(remote[q].(path := q)) then q in tombs && tombs[q] == remote[q]
            else (q in tombs <==> q in l.tombs) && (q in tombs ==> tombs[q] == l.tombs[q])
  {
  }

  lemma SubmapSmaller<K, V>(part: map<K, V>, whole: map<K, V>)
    requires part.Keys <= whole.Keys
    ensures |part| <= |whole|
  {
    SubsetSmaller(part.Keys, whole.Keys);
    assert |part| == |part.Keys| && |whole| == |whole.Keys|;
  }

  lemma {:induction false} SubsetSmaller<K>(part: set<K>, whole: set<K>)
    requires part <= whole
    ensures |part| <= |whole|
  {
    if part != {} {
      var x :| x in part;
      SubsetSmaller(part - {x}, whole - {x});
    }
  }

  // ---- What every run keeps ----

  datatype LedgerOp =
    | OpRecord(t: Tombstone)
    | OpAlive(path: Path, actionMs: nat)
    | OpMerge(remote: map<Path, Tombstone>)
    | OpRemove(path: Path)
    | OpPrune(now: nat, ttl: nat)
  {
    /** Merged maps are keyed by the path their tombstones carry. */
    ghost predicate WellFormed() {
      OpMerge? ==> forall p :: p in remote ==> remote[p].path == p
    }
  }

  function ApplyOp(l: Ledger, op: LedgerOp): Ledger {
    match op
    case OpRecord(t) => l.Record(t)
    case OpAlive(p, at) => l.RecordAlive(p, at)
    case OpMerge(remote) => l.MergeRemote(remote)
    case OpRemove(p) => l.Remove(p)
    case OpPrune(now, ttl) => l.Prune(now, ttl)
  }

  function RunOps(l: Ledger, ops: seq<LedgerOp>): Ledger
    decreases |ops|
  {
    if ops == [] then l else ApplyOp(RunOps(l, ops[..|ops| - 1]), ops[|ops| - 1])
  }

  /** Every run from an empty ledger keeps each tombstone newer than the live record of its path. */
  lemma {:induction false} RunsKeepTombstonesNewer(ops: seq<LedgerOp>)
    requires forall i :: 0 <= i < |ops| ==> ops[i].WellFormed()
    ensures RunOps(EMPTY, ops).Valid()
  {
    if ops != [] {
      RunsKeepTombstonesNewer(ops[..|ops| - 1]);
    }
  }

  // ---- Lookup ----

  /** The lookup returns the tombstone of the longest applicable prefix, and finds one when any applies. */
  lemma CoverNearest(l: Ledger, p: Path)
    ensures l.CoveringTombstone(p).None? <==> forall q :: !l.Covers(q, p)
    ensures forall q :: l.NearestCover(q, p) ==> l.CoveringTombstone(p) == Some(l.tombs[q])
    ensures l.CoveringTombstone(p).Some? ==> exists q :: l.NearestCover(q, p) && l.CoveringTombstone(p).value == l.tombs[q]
  {
    forall q | l.Covers(q, p)
      ensures |q| <= |p| && q == p[..|q|]
    {
    }
    if l.CoveringTombstone(p).Some? {
      var q :| l.Covers(q, p) && |q| <= |p| && l.CoveringTombstone(p).value == l.tombs[q]
        && (forall s :: l.Covers(s, p) && |s| <= |p| ==> |s| <= |q|);
      assert l.NearestCover(q, p);
      forall s | l.NearestCover(s, p)
        ensures s == q
      {
        assert |s| == |q| && s == p[..|s|] && q == p[..|q|];
      }
    }
  }

  /** In a reachable ledger the exact tombstone is never skipped over. */
  lemma ExactTombstoneWins(l: Ledger, p: Path)
    requires l.Valid() && p in l.tombs && p != []
    ensures l.CoveringTombstone(p) == Some(l.tombs[p])
    ensures forall mtime :: l.HasNewerThan(p, mtime) ==> l.HasNewerThanPrefix(p, mtime)
  {
    assert p[..|p|] == p;
    assert l.Covers(p, p);
  }

  /** Some applicable tombstone at `p` or above it is newer than `mtime`. */
  ghost predicate AnyCoverNewer(l: Ledger, p: Path, mtime: nat) {
    exists q :: l.Covers(q, p) && l.tombs[q].deletedAt > mtime
  }

  /** No applicable tombstone farther up is newer than the nearest one. */
  ghost predicate NearestIsNewest(l: Ledger, p: Path) {
    forall q, r :: l.NearestCover(q, p) && l.Covers(r, p) ==> l.tombs[r].deletedAt <= l.tombs[q].deletedAt
  }

  /**
   The prefix-aware test asks the nearest tombstone only. It answers "is any covering tombstone
   newer?" for every stamp exactly when the nearest one is also the newest.
   */
  lemma PrefixTestExact(l: Ledger, p: Path)
    ensures forall mtime :: l.HasNewerThanPrefix(p, mtime) ==> AnyCoverNewer(l, p, mtime)
    ensures (forall mtime :: AnyCoverNewer(l, p, mtime) ==> l.HasNewerThanPrefix(p, mtime)) <==> NearestIsNewest(l, p)
  {
    CoverNearest(l, p);
    if forall mtime :: AnyCoverNewer(l, p, mtime) ==> l.HasNewerThanPrefix(p, mtime) {
      forall q, r | l.NearestCover(q, p) && l.Covers(r, p)
        ensures l.tombs[r].deletedAt <= l.tombs[q].deletedAt
      {
        var m := l.tombs[q].deletedAt;
        assert l.CoveringTombstone(p) == Some(l.tombs[q]);
        assert !l.HasNewerThanPrefix(p, m);
        assert !AnyCoverNewer(l, p, m);
      }
    }
  }

  /** A nearer, older tombstone hides a farther, newer one from the prefix-aware test. */
  lemma NearerTombstoneMasks()
    ensures exists l: Ledger, p: Path, mtime: nat ::
              l.Valid() && AnyCoverNewer(l, p, mtime) && !l.HasNewerThanPrefix(p, mtime)
  {
    var dir, sub, file: Path := ["docs"], ["docs", "sub"], ["docs", "sub", "a"];
    var l := EMPTY.Record(Tombstone(dir, 200, "peer", None, None)).Record(Tombstone(sub, 100, "peer", None, None));
    assert file[..3] == file && file[..2] == sub && file[..1] == dir;
    assert l.Covers(dir, file) && l.tombs[dir].deletedAt > 150;
    assert l.Covers(sub, file) && !l.Covers(file, file);
    assert l.CoverFrom(file, 3) == l.CoverFrom(file, 2) == Some(l.tombs[sub]);
    assert l.Valid() && AnyCoverNewer(l, file, 150) && !l.HasNewerThanPrefix(file, 150);
  }

  // ---- The invariant as documented, with an absent live record counted as stamp 0 ----

  ghost predicate DocumentedInvariant(l: Ledger) {
    forall p :: p in l.tombs ==> l.tombs[p].deletedAt > l.AliveSince(p)
  }

  /** A tombstone stamped 0 enters the ledger. */
  ghost predicate StoresZero(l: Ledger, op: LedgerOp) {
    match op
    case OpRecord(t) => t.deletedAt == 0 && l.Accepts(t)
    case OpMerge(remote) => exists p :: p in remote && remote[p].deletedAt == 0 && l.Accepts(remote[p].(path := p))
    case _ => false
  }

  /** Counting an absent live record as 0, an operation keeps the invariant exactly unless it stores a tombstone stamped 0. */
  lemma DocumentedInvariantExact(l: Ledger, op: LedgerOp)
    requires l.Valid() && DocumentedInvariant(l) && op.WellFormed()
    ensures DocumentedInvariant(ApplyOp(l, op)) <==> !StoresZero(l, op)
  {
    if StoresZero(l, op) {
      var p := if op.OpRecord? then op.t.path else
        var q :| q in op.remote && op.remote[q].deletedAt == 0 && l.Accepts(op.remote[q].(path := q)); q;
      assert p in ApplyOp(l, op).tombs;
    }
  }

  lemma DocumentedInvariantFails()
    ensures !DocumentedInvariant(RunOps(EMPTY, [OpRecord(Tombstone(["a"], 0, "peer", None, None))]))
  {
    var t := Tombstone(["a"], 0, "peer", None, None);
    var ops := [OpRecord(t)];
    assert ops[..|ops| - 1] == [];
    assert RunOps(EMPTY, ops) == EMPTY.Record(t);
    assert ["a"] in EMPTY.Record(t).tombs;
  }
}
