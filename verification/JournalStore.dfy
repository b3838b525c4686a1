/** The action journal as the program keeps it: entries, two path indexes, and the file. */
module JournalStore {
  import opened Paths
  import opened Wrappers
  import opened Journals
  import opened JournalCompaction
  import JournalRecovery

  /** From this many lines on disk, the next append or acknowledgement compacts. */
  const COMPACT_MIN_LINES := 4096

  /** Path -> sequence numbers, iterated in path order. */
  type Index = map<Path, set<nat>>

  /** The numbers filed under a key that starts with `prefix`. */
  function NumbersUnder(index: Index, prefix: Path): set<nat> {
    set k, s | k in index && StartsWith(k, prefix) && s in index[k] :: s
  }

  function Exact(index: Index, p: Path): set<nat> {
    if p in index then index[p] else {}
  }

  function File(index: Index, p: Path, s: nat): Index {
    index[p := Exact(index, p) + {s}]
  }

  function Unfile(index: Index, p: Path, s: nat): Index {
    if p !in index then index
    else if index[p] - {s} == {} then index - {p}
    else index[p := index[p] - {s}]
  }

  /** The range scan from `prefix` on, stopped at the first key that does not start with it. */
  method Under(index: Index, prefix: Path) returns (found: set<nat>)
    ensures found == NumbersUnder(index, prefix)
  {
    found := {};
    var rest := set k | k in index && PathLe(prefix, k);
    ghost var seen: set<Path> := {};
    forall k | k in index && StartsWith(k, prefix)
      ensures k in rest
    {
      LexPrefixFirst(ComponentLt, prefix, k);
    }
    while rest != {}
      invariant forall k :: k in rest ==> k in index && PathLe(prefix, k)
      invariant forall k :: k in index && StartsWith(k, prefix) ==> k in seen || k in rest
      invariant forall k :: k in seen ==> k in index && StartsWith(k, prefix)
      invariant found == set k, s | k in seen && s in index[k] :: s
      decreases rest
    {
      ghost var first := FirstExists(rest);
      var k :| k in rest && IsFirst(k, rest);
      if !StartsWith(k, prefix) {
        RunIsOver(prefix, k, rest);
        break;
      }
      found := found + index[k];
      seen := seen + {k};
      rest := rest - {k};
    }
  }

  lemma RunIsOver(prefix: Path, k: Path, rest: set<Path>)
    requires IsFirst(k, rest) && PathLe(prefix, k) && !StartsWith(k, prefix)
    ensures forall j :: j in rest ==> !StartsWith(j, prefix)
  {
    forall j | j in rest
      ensures !StartsWith(j, prefix)
    {
      PrefixRunEnds(prefix, k, j);
    }
  }

  /** The inverse image of a numbering: every number filed under its key, and no empty sets. */
  function IndexOf(keys: map<nat, Path>): Index {
    map p | p in keys.Values :: set s | s in keys && keys[s] == p
  }

  function PathKeys(es: Entries): map<nat, Path> {
    map s | s in es :: es[s].path
  }

  function TargetKeys(es: Entries): map<nat, Path> {
    map s | s in es && es[s].op.Rename? :: es[s].op.to
  }

  lemma ExactNumbers(keys: map<nat, Path>, p: Path)
    ensures Exact(IndexOf(keys), p) == set s | s in keys && keys[s] == p
  {
  }

  /** The range scan finds exactly the entries whose key starts with the prefix. */
  lemma ScanFindsSubtree(keys: map<nat, Path>, prefix: Path)
    ensures NumbersUnder(IndexOf(keys), prefix) == set s | s in keys && StartsWith(keys[s], prefix)
  {
    forall s | s in keys && StartsWith(keys[s], prefix)
      ensures s in NumbersUnder(IndexOf(keys), prefix)
    {
      assert keys[s] in IndexOf(keys) && s in IndexOf(keys)[keys[s]];
    }
  }

  lemma FileIndexes(keys: map<nat, Path>, s: nat, p: Path)
    requires s !in keys
    ensures File(IndexOf(keys), p, s) == IndexOf(keys[s := p])
  {
    var more := keys[s := p];
    assert more.Values == keys.Values + {p} by {
      assert more[s] == p;
      forall t | t in keys
        ensures keys[t] in more.Values
      {
        assert more[t] == keys[t];
      }
    }
    forall q | q in more.Values
      ensures File(IndexOf(keys), p, s)[q] == IndexOf(more)[q]
    {
      assert q != p ==> IndexOf(more)[q] == IndexOf(keys)[q];
    }
  }

  lemma UnfileIndexes(keys: map<nat, Path>, s: nat)
    requires s in keys
    ensures Unfile(IndexOf(keys), keys[s], s) == IndexOf(keys - {s})
  {
    var p, fewer := keys[s], keys - {s};
    forall q
      ensures q in IndexOf(fewer) <==> q in Unfile(IndexOf(keys), p, s)
      ensures q in IndexOf(fewer) ==> IndexOf(fewer)[q] == Unfile(IndexOf(keys), p, s)[q]
    {
      if q in IndexOf(fewer) {
        var t :| t in fewer && fewer[t] == q;
        assert t in IndexOf(keys)[q] - {s};
        assert IndexOf(fewer)[q] == IndexOf(keys)[q] - {s};
      }
      if q in Unfile(IndexOf(keys), p, s) {
        var t :| t in keys && keys[t] == q && t != s;
        assert fewer[t] == q;
      }
    }
  }

  lemma InsertKeepsIndexes(es: Entries, e: Entry)
    requires e.seqNo !in es
    ensures File(IndexOf(PathKeys(es)), e.path, e.seqNo) == IndexOf(PathKeys(es[e.seqNo := e]))
    ensures (if e.op.Rename? then File(IndexOf(TargetKeys(es)), e.op.to, e.seqNo) else IndexOf(TargetKeys(es))) ==
            IndexOf(TargetKeys(es[e.seqNo := e]))
  {
    var more := es[e.seqNo := e];
    FileIndexes(PathKeys(es), e.seqNo, e.path);
    assert PathKeys(more) == PathKeys(es)[e.seqNo := e.path];
    if e.op.Rename? {
      FileIndexes(TargetKeys(es), e.seqNo, e.op.to);
      assert TargetKeys(more) == TargetKeys(es)[e.seqNo := e.op.to];
    } else {
      assert TargetKeys(more) == TargetKeys(es);
    }
  }

  lemma RemoveKeepsIndexes(es: Entries, s: nat)
    requires s in es
    ensures Unfile(IndexOf(PathKeys(es)), es[s].path, s) == IndexOf(PathKeys(es - {s}))
    ensures (if es[s].op.Rename? then Unfile(IndexOf(TargetKeys(es)), es[s].op.to, s) else IndexOf(TargetKeys(es))) ==
            IndexOf(TargetKeys(es - {s}))
  {
    UnfileIndexes(PathKeys(es), s);
    assert PathKeys(es - {s}) == PathKeys(es) - {s};
    if es[s].op.Rename? {
      UnfileIndexes(TargetKeys(es), s);
      assert TargetKeys(es - {s}) == TargetKeys(es) - {s};
    } else {
      assert TargetKeys(es - {s}) == TargetKeys(es);
    }
  }

  /** The pending set while a coalescing pass still has `todo` to visit. */
  function Partly(es: Entries, new_: Entry, todo: set<nat>): Entries {
    map s | s in es && (s in todo || Leave(new_, es[s]).Some?) :: if s in todo then es[s] else Leave(new_, es[s]).value
  }

  lemma VisitOne(es: Entries, new_: Entry, todo: set<nat>, s: nat)
    requires s in es && s in todo
    ensures s in Partly(es, new_, todo) && Partly(es, new_, todo)[s] == es[s]
    ensures Leave(new_, es[s]).None? ==> Partly(es, new_, todo - {s}) == Partly(es, new_, todo) - {s}
    ensures Leave(new_, es[s]) == Some(es[s]) ==> Partly(es, new_, todo - {s}) == Partly(es, new_, todo)
    ensures Leave(new_, es[s]).Some? ==>
              Partly(es, new_, todo - {s}) == (Partly(es, new_, todo) - {s})[s := Leave(new_, es[s]).value]
  {
  }

  /** Entries outside `todo` that the new action leaves alone need no visit; afterwards none is left. */
  lemma VisitEnds(es: Entries, new_: Entry, todo: set<nat>)
    ensures Partly(es, new_, {}) == Remaining(es, new_)
    ensures (forall s :: s in es && s !in todo ==> Leave(new_, es[s]) == Some(es[s])) ==> Partly(es, new_, todo) == es
  {
  }

  /** When the new action only drops entries, what remains is the rest. */
  lemma DropsRemain(es: Entries, new_: Entry, drops: set<nat>)
    requires forall s :: s in es ==> Leave(new_, es[s]) == if s in drops then None else Some(es[s])
    ensures es - drops == Remaining(es, new_)
  {
  }

  /** Some content at `p` is still to be sent. */
  ghost predicate SomeUpsert(es: Entries, p: Path) {
    exists s :: s in es && es[s] == Entry(es[s].seqNo, Upsert, p, es[s].actionMs)
  }

  lemma UntouchedByDelete(d: Entry, v: Entry)
    requires d.op.Delete? && forall q :: q in Mentions(v) ==> !StartsWith(q, d.path)
    ensures !Outdates(d, v) && !Halves(d, v)
  {
    assert v.path in Mentions(v);
    if v.op.Rename? {
      assert v.op.to in Mentions(v);
    }
  }

  /** A rename recorded, and its content again at the target when the source was still unsent. */
  function Renamed(st: JournalState, from: Path, to: Path, actionMs: nat): JournalState {
    var moved := ApplyEntry(st, Entry(st.nextSeq, Rename(to), from, actionMs));
    if HasUpsert(st.entries, from) then ApplyEntry(moved, Entry(moved.nextSeq, Upsert, to, actionMs)) else moved
  }

  /**
   The rename is pending under the next number, and the content at the target behind it exactly if it was unsent
   at the source. Upserts of the source and whatever was said of the target are gone; all else is as it was.
   */
  ghost predicate RecordsRename(was: JournalState, now: JournalState, from: Path, to: Path, actionMs: nat) {
    var s1, s2, unsent := was.nextSeq, was.nextSeq + 1, SomeUpsert(was.entries, from);
    && now.nextSeq == (if unsent then s2 + 1 else s2)
    && s1 in now.entries && now.entries[s1] == Entry(s1, Rename(to), from, actionMs)
    && (unsent ==> s2 in now.entries && now.entries[s2] == Entry(s2, Upsert, to, actionMs))
    && forall s :: s in was.entries ==>
         if Says(was.entries[s], to) || (was.entries[s].op.Upsert? && was.entries[s].path == from) then s !in now.entries
         else s in now.entries && now.entries[s] == was.entries[s]
  }

  /** What the two records together make of the pending entries. */
  lemma RenameMeans(st: JournalState, from: Path, to: Path, actionMs: nat)
    requires st.Valid()
    ensures RecordsRename(st, Renamed(st, from, to, actionMs), from, to, actionMs)
  {
    RenameCoalesces(st.entries, Entry(st.nextSeq, Rename(to), from, actionMs), Entry(st.nextSeq + 1, Upsert, to, actionMs),
                    HasUpsert(st.entries, from));
    SameUpserts(st.entries, from);
  }

  lemma SameUpserts(es: Entries, p: Path)
    ensures SomeUpsert(es, p) <==> HasUpsert(es, p)
  {
    if HasUpsert(es, p) {
      var s :| s in es && es[s].path == p && es[s].op.Upsert?;
      assert es[s] == Entry(es[s].seqNo, Upsert, p, es[s].actionMs);
    }
  }

  /** A rename and the upsert behind it, together. */
  lemma RenameCoalesces(was: Entries, first: Entry, second: Entry, both: bool)
    requires first.op.Rename? && second.op.Upsert? && second.path == first.op.to && second.seqNo == first.seqNo + 1
    requires forall s :: s in was ==> s < first.seqNo
    ensures var now := if both then Coalesce(Coalesce(was, first), second) else Coalesce(was, first);
            && first.seqNo in now && now[first.seqNo] == first && (both ==> second.seqNo in now && now[second.seqNo] == second)
            && forall s :: s in was ==>
                 if Says(was[s], first.op.to) || (was[s].op.Upsert? && was[s].path == first.path) then s !in now
                 else s in now && now[s] == was[s]
  {
    var mid := Coalesce(was, first);
    forall s | s in was
      ensures var now := if both then Coalesce(mid, second) else mid;
              if Says(was[s], first.op.to) || (was[s].op.Upsert? && was[s].path == first.path) then s !in now
              else s in now && now[s] == was[s]
    {
      CoalesceExact(was, first, s);
      if s in mid {
        CoalesceExact(mid, second, s);
      }
    }
    CoalesceExact(mid, second, first.seqNo);
  }

  /** Every record was numbered past everything before it. */
  ghost predicate Legal(lines: seq<Line>) {
    forall k :: 0 <= k < |lines| && lines[k].EntryLine? ==> lines[k].seqNo >= Replay(lines[..k]).nextSeq
  }

  lemma LegalSnoc(lines: seq<Line>, l: Line)
    requires Legal(lines) && (l.EntryLine? ==> l.seqNo >= Replay(lines).nextSeq)
    ensures Legal(lines + [l])
  {
    var more := lines + [l];
    forall k | 0 <= k < |more| && more[k].EntryLine?
      ensures more[k].seqNo >= Replay(more[..k]).nextSeq
    {
      assert more[..k] == lines[..k];
      assert k == |lines| ==> lines[..k] == lines;
    }
  }

  lemma {:induction false} LegalCompacted(acked: nat, xs: seq<Entry>)
    requires Ascending(xs) && forall i :: 0 <= i < |xs| ==> acked < xs[i].seqNo
    ensures Legal(Compacted(acked, xs))
  {
    if xs == [] {
      LegalSnoc([], AckLine(acked));
      assert [] + [AckLine(acked)] == [AckLine(acked)];
    } else {
      var init, e := xs[..|xs| - 1], xs[|xs| - 1];
      LegalCompacted(acked, init);
      ReplayCompacted(acked, init);
      LegalSnoc(Compacted(acked, init), ToLine(e));
      assert Compacted(acked, xs) == Compacted(acked, init) + [ToLine(e)];
    }
  }

  /** Every run writes a legal file, through compactions and reopenings. */
  lemma {:induction false} RunsAreLegal(steps: seq<JournalRecovery.Step>)
    requires JournalRecovery.IsRun(steps)
    ensures Legal(JournalRecovery.Run(steps).file)
  {
    if steps != [] {
      var init, last := steps[..|steps| - 1], steps[|steps| - 1];
      var j := JournalRecovery.Run(init);
      JournalRecovery.IsRunInit(steps);
      JournalRecovery.RunsLoseNothing(init);
      RunsAreLegal(init);
      match last
      case Append(op, path, at) => LegalSnoc(j.file, ToLine(Entry(j.st.nextSeq, op, path, at)));
      case Ack(upto) => LegalSnoc(j.file, AckLine(upto));
      case Compact(xs) => LegalCompacted(j.st.acked, xs);
      case Reopen =>
    }
  }

  lemma ReadsOn(st: JournalState, l: Line)
    requires st.Valid() && (l.EntryLine? ==> l.seqNo >= st.nextSeq)
    ensures ApplyLine(st, l).Valid()
  {
    if l.AckLine? {
      AckLocalValid(st, l.ack);
    } else if FromLine(l).Some? {
      ApplyEntryValid(st, FromLine(l).value);
    }
  }

  /** Appending the next record, on values: the file stays legal and in step. */
  lemma AppendFits(lines: seq<Line>, st: JournalState, e: Entry)
    requires Legal(lines) && Mirrors(lines, st) && st.Valid() && e.seqNo == st.nextSeq
    ensures Legal(lines + [ToLine(e)]) && Mirrors(lines + [ToLine(e)], ApplyEntry(st, e)) && ApplyEntry(st, e).Valid()
  {
    LegalSnoc(lines, ToLine(e));
    MirrorAppend(lines, st, e);
    ApplyEntryValid(st, e);
  }

  lemma AckFits(lines: seq<Line>, st: JournalState, upto: nat)
    requires Legal(lines) && Mirrors(lines, st) && st.Valid()
    ensures Legal(lines + [AckLine(upto)]) && Mirrors(lines + [AckLine(upto)], AckLocal(st, upto)) && AckLocal(st, upto).Valid()
  {
    LegalSnoc(lines, AckLine(upto));
    MirrorAck(lines, st, upto);
    AckLocalValid(st, upto);
  }

  lemma ListingSnoc(xs: seq<Entry>, es: Entries, e: Entry)
    requires Listing(xs, es) && forall s :: s in es ==> s < e.seqNo
    ensures Listing(xs + [e], es[e.seqNo := e])
  {
    var more := xs + [e];
    assert more[|xs|] == e && forall x :: x in xs ==> x in more;
  }

  class ActionJournal {
    var entries: Entries
    var byPath: Index
    var byTo: Index
    var acked: nat
    var nextSeq: nat
    var lines: seq<Line>

    function State(): JournalState
      reads this
    {
      JournalState(entries, acked, nextSeq)
    }

    ghost predicate Indexed()
      reads this
    {
      Numbered(entries) && byPath == IndexOf(PathKeys(entries)) && byTo == IndexOf(TargetKeys(entries))
    }

    /** Index refinement, sound numbering, and a file that replays to the same marks and to no other pending entries. */
    ghost predicate Valid()
      reads this
    {
      Indexed() && State().Valid() && Legal(lines) && Mirrors(lines, State())
    }

    /** Open the journal from the records that parsed; `damaged` tells that others did not. */
    constructor Open(records: seq<Line>, damaged: bool)
      requires Legal(records)
      ensures Valid() && State() == Replay(records)
      ensures !damaged && (forall l :: l in records && l.EntryLine? ==> FromLine(l).Some?) ==> lines == records
    {
      entries, byPath, byTo, acked, nextSeq, lines := map[], map[], map[], 0, 1, [];
      new;
      var bad := damaged;
      for i := 0 to |records|
        invariant Indexed() && State().Valid() && State() == Replay(records[..i])
        invariant bad ==> damaged || exists l :: l in records && l.EntryLine? && FromLine(l).None?
      {
        assert records[..i + 1][..i] == records[..i];
        ReadsOn(State(), records[i]);
        var ok := ApplyOne(records[i]);
        if !ok {
          assert records[i] in records;
          bad := true;
        }
      }
      assert records[..|records|] == records;
      lines := records;
      if bad {
        WriteCompacted();
      }
    }

    method ApplyOne(l: Line) returns (ok: bool)
      requires Indexed() && State().Valid() && (l.EntryLine? ==> l.seqNo >= nextSeq)
      modifies this`entries, this`byPath, this`byTo, this`acked, this`nextSeq
      ensures Indexed() && State() == ApplyLine(old(State()), l)
      ensures ok <==> l.AckLine? || FromLine(l).Some?
    {
      ok := true;
      if l.AckLine? {
        AckMark(l.ack);
      } else {
        match FromLine(l)
        case Some(e) => Apply(e);
        case None => ok := false;
      }
    }

    method Insert(e: Entry)
      requires Indexed() && e.seqNo !in entries
      modifies this`entries, this`byPath, this`byTo, this`nextSeq
      ensures Indexed() && entries == old(entries)[e.seqNo := e]
      ensures nextSeq == if old(nextSeq) < e.seqNo + 1 then e.seqNo + 1 else old(nextSeq)
    {
      InsertKeepsIndexes(entries, e);
      byPath := File(byPath, e.path, e.seqNo);
      if e.op.Rename? {
        byTo := File(byTo, e.op.to, e.seqNo);
      }
      if nextSeq < e.seqNo + 1 {
        nextSeq := e.seqNo + 1;
      }
      entries := entries[e.seqNo := e];
    }

    method Remove(s: nat)
      requires Indexed() && s in entries
      modifies this`entries, this`byPath, this`byTo
      ensures Indexed() && entries == old(entries) - {s}
    {
      var e := entries[s];
      RemoveKeepsIndexes(entries, s);
      byPath := Unfile(byPath, e.path, s);
      if e.op.Rename? {
        byTo := Unfile(byTo, e.op.to, s);
      }
      entries := entries - {s};
    }

    method RemoveAll(victims: set<nat>)
      requires Indexed() && victims <= entries.Keys
      modifies this`entries, this`byPath, this`byTo
      ensures Indexed() && entries == old(entries) - victims
    {
      var todo := victims;
      while todo != {}
        invariant todo <= victims && Indexed()
        invariant entries == old(entries) - (victims - todo)
      {
        var s :| s in todo;
        Remove(s);
        todo := todo - {s};
      }
    }

    method AckMark(upto: nat)
      requires Indexed()
      modifies this`entries, this`byPath, this`byTo, this`acked, this`nextSeq
      ensures Indexed() && State() == AckLocal(old(State()), upto)
    {
      RemoveAll(set s | s in entries && s <= upto);
      if acked < upto {
        acked := upto;
      }
      if nextSeq < upto + 1 {
        nextSeq := upto + 1;
      }
    }

    /** Record one entry with the coalescing rules, looking victims up through the indexes. */
    method Apply(new_: Entry)
      requires Indexed() && new_.seqNo !in entries && forall s :: s in entries ==> s < nextSeq
      modifies this`entries, this`byPath, this`byTo, this`nextSeq
      ensures Indexed() && State() == ApplyEntry(old(State()), new_)
    {
      match new_.op {
        case Upsert => DropAt(new_);
        case Delete => CutSubtree(new_);
        case Rename(_) => DropEnds(new_);
      }
      Insert(new_);
    }

    method DropAt(new_: Entry)
      requires Indexed() && new_.op.Upsert?
      modifies this`entries, this`byPath, this`byTo
      ensures Indexed() && entries == Remaining(old(entries), new_)
    {
      ExactNumbers(PathKeys(entries), new_.path);
      var drops := set s | s in Exact(byPath, new_.path) && !entries[s].op.Rename?;
      DropsRemain(entries, new_, drops);
      RemoveAll(drops);
    }

    method DropEnds(new_: Entry)
      requires Indexed() && new_.op.Rename?
      modifies this`entries, this`byPath, this`byTo
      ensures Indexed() && entries == Remaining(old(entries), new_)
    {
      ghost var was := entries;
      ExactNumbers(PathKeys(entries), new_.path);
      var drops := set s | s in Exact(byPath, new_.path) && entries[s].op.Upsert?;
      RemoveAll(drops);
      ExactNumbers(PathKeys(entries), new_.op.to);
      var dropsTo := set s | s in Exact(byPath, new_.op.to) && !entries[s].op.Rename?;
      DropsRemain(was, new_, drops + dropsTo);
      RemoveAll(dropsTo);
      assert was - drops - dropsTo == was - (drops + dropsTo);
    }

    /** A delete: drop what lies under its path, rewrite the renames it splits. */
    method CutSubtree(new_: Entry)
      requires Indexed() && new_.op.Delete? && forall s :: s in entries ==> s < nextSeq
      modifies this`entries, this`byPath, this`byTo, this`nextSeq
      ensures Indexed() && nextSeq == old(nextSeq) && entries == Remaining(old(entries), new_)
    {
      var sources := Under(byPath, new_.path);
      var targets := Under(byTo, new_.path);
      var todo := sources + targets;
      ghost var was := entries;
      ScanFindsSubtree(PathKeys(was), new_.path);
      ScanFindsSubtree(TargetKeys(was), new_.path);
      VisitEnds(was, new_, todo);
      while todo != {}
        invariant todo <= was.Keys && Indexed() && nextSeq == old(nextSeq)
        invariant entries == Partly(was, new_, todo)
      {
        var s :| s in todo;
        VisitOne(was, new_, todo, s);
        CutOne(new_, s);
        todo := todo - {s};
      }
      VisitEnds(was, new_, todo);
    }

    /** Drop one entry, rewrite it in place, or leave it as it is. */
    method CutOne(new_: Entry, s: nat)
      requires Indexed() && new_.op.Delete? && s in entries && forall t :: t in entries ==> t < nextSeq
      modifies this`entries, this`byPath, this`byTo, this`nextSeq
      ensures Indexed() && nextSeq == old(nextSeq)
      ensures entries ==
              match Leave(new_, old(entries)[s])
              case None => old(entries) - {s}
              case Some(rest) => if rest == old(entries)[s] then old(entries) else (old(entries) - {s})[s := rest]
    {
      match Cut(entries[s], new_.path) {
        case None => Remove(s);
        case Some(rest) =>
          if rest != entries[s] {
            Remove(s);
            Insert(rest);
          }
      }
    }

    /** Unacknowledged entries in sequence order. */
    method Snapshot() returns (xs: seq<Entry>)
      requires Numbered(entries)
      ensures Listing(xs, entries)
    {
      xs := [];
      var rest := entries.Keys;
      ghost var done: Entries := map[];
      while rest != {}
        invariant rest <= entries.Keys && done == entries - rest && Listing(xs, done)
        invariant forall t, s :: t in done && s in rest ==> t < s
      {
        var s := Least(rest);
        ListingSnoc(xs, done, entries[s]);
        xs := xs + [entries[s]];
        rest, done := rest - {s}, done[s := entries[s]];
      }
      assert done == entries;
    }

    /** Rewrite the file: the acknowledged mark, then the pending entries in order. */
    method WriteCompacted()
      requires Indexed() && State().Valid()
      modifies this`lines
      ensures Valid()
      ensures exists xs :: Listing(xs, entries) && lines == Compacted(acked, xs)
    {
      var xs := Snapshot();
      var out := CompactedLines(acked, xs);
      LegalCompacted(acked, xs);
      MirrorCompacted(State(), xs);
      lines := out;
    }

    static method CompactedLines(acked: nat, xs: seq<Entry>) returns (out: seq<Line>)
      ensures out == Compacted(acked, xs)
    {
      out := if acked > 0 then [AckLine(acked)] else [];
      for i := 0 to |xs|
        invariant out == (if acked > 0 then [AckLine(acked)] else []) + Lines(xs[..i])
      {
        assert xs[..i + 1][..i] == xs[..i];
        out := out + [ToLine(xs[i])];
      }
      assert xs[..|xs|] == xs;
    }

    method MaybeCompact()
      requires Valid()
      modifies this`lines
      ensures Valid()
      ensures |old(lines)| < COMPACT_MIN_LINES ==> lines == old(lines)
      ensures |old(lines)| >= COMPACT_MIN_LINES ==> exists xs :: Listing(xs, entries) && lines == Compacted(acked, xs)
    {
      if |lines| >= COMPACT_MIN_LINES {
        WriteCompacted();
      }
    }

    /** Record one action under the next number, in the file first. */
    method Append(op: Op, path: Path, actionMs: nat)
      requires Valid()
      modifies this
      ensures Valid() && State() == ApplyEntry(old(State()), Entry(old(nextSeq), op, path, actionMs))
      ensures if |old(lines)| + 1 < COMPACT_MIN_LINES
              then lines == old(lines) + [ToLine(Entry(old(nextSeq), op, path, actionMs))]
              else exists xs :: Listing(xs, entries) && lines == Compacted(acked, xs)
    {
      var e := Entry(nextSeq, op, path, actionMs);
      AppendNoCompact(e);
      MaybeCompact();
    }

    method AppendNoCompact(e: Entry)
      requires Valid() && e.seqNo == nextSeq
      modifies this
      ensures Valid() && State() == ApplyEntry(old(State()), e)
      ensures lines == old(lines) + [ToLine(e)]
    {
      AppendFits(lines, State(), e);
      lines := lines + [ToLine(e)];
      Apply(e);
    }

    method Upsert(path: Path, actionMs: nat)
      requires Valid()
      modifies this
      ensures Valid() && State() == ApplyEntry(old(State()), Entry(old(nextSeq), Op.Upsert, path, actionMs))
      ensures old(nextSeq) in entries && entries[old(nextSeq)] == Entry(old(nextSeq), Op.Upsert, path, actionMs)
      ensures forall s :: s in old(entries) ==>
                if Says(old(entries)[s], path) then s !in entries else s in entries && entries[s] == old(entries)[s]
    {
      ghost var e, was := Entry(nextSeq, Op.Upsert, path, actionMs), entries;
      Append(Op.Upsert, path, actionMs);
      forall s | s in was
        ensures if Says(was[s], path) then s !in entries else s in entries && entries[s] == was[s]
      {
        CoalesceExact(was, e, s);
      }
    }

    method Delete(path: Path, actionMs: nat)
      requires Valid()
      modifies this
      ensures Valid() && State() == ApplyEntry(old(State()), Entry(old(nextSeq), Op.Delete, path, actionMs))
      ensures forall s, q :: s in entries && s != old(nextSeq) && q in Mentions(entries[s]) ==> !StartsWith(q, path)
      ensures old(nextSeq) in entries && entries[old(nextSeq)] == Entry(old(nextSeq), Op.Delete, path, actionMs)
      ensures forall s :: s in old(entries) && (forall q :: q in Mentions(old(entries)[s]) ==> !StartsWith(q, path)) ==>
                s in entries && entries[s] == old(entries)[s]
    {
      ghost var d := Entry(nextSeq, Op.Delete, path, actionMs);
      ghost var was := entries;
      Append(Op.Delete, path, actionMs);
      forall s, q | s in entries && s != d.seqNo && q in Mentions(entries[s])
        ensures !StartsWith(q, path)
      {
        DeleteClearsSubtree(was, d, s, q);
      }
      forall s | s in was && (forall q :: q in Mentions(was[s]) ==> !StartsWith(q, path))
        ensures s in entries && entries[s] == was[s]
      {
        CoalesceExact(was, d, s);
        UntouchedByDelete(d, was[s]);
      }
    }

    /** A rename, and its content again at the target when the source was still unsent. */
    method Rename(from: Path, to: Path, actionMs: nat)
      requires Valid()
      modifies this
      ensures Valid()
      ensures State() == Renamed(old(State()), from, to, actionMs) && RecordsRename(old(State()), State(), from, to, actionMs)
    {
      ghost var was := State();
      var hadUpsert := Unsent(from);
      RenameNoCompact(from, to, actionMs, hadUpsert);
      MaybeCompact();
      RenameMeans(was, from, to, actionMs);
    }

    method RenameNoCompact(from: Path, to: Path, actionMs: nat, hadUpsert: bool)
      requires Valid() && hadUpsert == HasUpsert(entries, from)
      modifies this
      ensures Valid() && State() == Renamed(old(State()), from, to, actionMs)
    {
      AppendNoCompact(Entry(nextSeq, Op.Rename(to), from, actionMs));
      if hadUpsert {
        AppendNoCompact(Entry(nextSeq, Op.Upsert, to, actionMs));
      }
    }

    /** Whether the content at `p` is still to be sent. */
    method Unsent(p: Path) returns (unsent: bool)
      requires Indexed()
      ensures unsent == HasUpsert(entries, p)
    {
      ExactNumbers(PathKeys(entries), p);
      unsent := exists s :: s in Exact(byPath, p) && entries[s].op.Upsert?;
    }

    /** Entries up to `upto` are delivered. At or below the mark nothing is written or changed. */
    method Ack(upto: nat)
      requires Valid()
      modifies this
      ensures Valid() && State() == AckLocal(old(State()), upto)
      ensures upto <= old(acked) ==> State() == old(State()) && lines == old(lines)
    {
      if upto <= acked {
        AckBelowMark(State(), upto);
        AckMark(upto);
        return;
      }
      AckFits(lines, State(), upto);
      lines := lines + [AckLine(upto)];
      AckMark(upto);
      MaybeCompact();
    }
  }

  method Least(ns: set<nat>) returns (s: nat)
    requires ns != {}
    ensures s in ns && forall t :: t in ns ==> s <= t
  {
    LeastExists(ns);
    s :| s in ns && forall t :: t in ns ==> s <= t;
  }

  lemma {:induction false} LeastExists(ns: set<nat>)
    requires ns != {}
    ensures exists s :: s in ns && forall t :: t in ns ==> s <= t
  {
    var x :| x in ns;
    if y :| y in ns && y < x {
      LeastExistsBelow(ns, x);
    }
  }

  lemma {:induction false} LeastExistsBelow(ns: set<nat>, x: nat)
    requires x in ns
    ensures exists s :: s in ns && forall t :: t in ns ==> s <= t
    decreases x
  {
    if y :| y in ns && y < x {
      LeastExistsBelow(ns, y);
    }
  }
}
