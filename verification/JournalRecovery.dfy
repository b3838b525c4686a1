/** Runs of the journal: recording, acknowledging, compacting and reopening, and crashes at any byte. */
module JournalRecovery {
  import opened Paths
  import opened Wrappers
  import opened Journals
  import opened JournalCompaction

  // ---- Runs ----

  /** The journal in memory, its file with the length of its last compacted image, and every action ever recorded. */
  datatype Journal = Journal(st: JournalState, file: seq<Line>, base: nat, recorded: Entries)

  const NEW_JOURNAL := Journal(FRESH, [], 0, map[])

  /** `Compact` rewrites the file from a listing of the pending entries; `Reopen` starts over from the file. */
  datatype Step = Append(op: Op, path: Path, actionMs: nat) | Ack(upto: nat) | Compact(listing: seq<Entry>) | Reopen

  function DoAppend(j: Journal, op: Op, path: Path, actionMs: nat): Journal {
    var e := Entry(j.st.nextSeq, op, path, actionMs);
    j.(st := ApplyEntry(j.st, e), file := j.file + [ToLine(e)], recorded := j.recorded[e.seqNo := e])
  }

  /** An acknowledgement at or below the mark is applied without writing a record. */
  function DoAck(j: Journal, upto: nat): Journal {
    j.(st := AckLocal(j.st, upto), file := if upto <= j.st.acked then j.file else j.file + [AckLine(upto)])
  }

  function DoStep(j: Journal, s: Step): Journal {
    match s
    case Append(op, path, at) => DoAppend(j, op, path, at)
    case Ack(upto) => DoAck(j, upto)
    case Compact(xs) => j.(file := Compacted(j.st.acked, xs), base := |Compacted(j.st.acked, xs)|)
    case Reopen => j.(st := Replay(j.file))
  }

  function Run(steps: seq<Step>): Journal {
    if steps == [] then NEW_JOURNAL else DoStep(Run(steps[..|steps| - 1]), steps[|steps| - 1])
  }

  /** Each compaction lists what is pending at that moment. */
  ghost predicate IsRun(steps: seq<Step>) {
    forall i :: 0 <= i < |steps| && steps[i].Compact? ==> Listing(steps[i].listing, Run(steps[..i]).st.entries)
  }

  lemma IsRunInit(steps: seq<Step>)
    requires IsRun(steps) && steps != []
    ensures IsRun(steps[..|steps| - 1])
    ensures steps[|steps| - 1].Compact? ==> Listing(steps[|steps| - 1].listing, Run(steps[..|steps| - 1]).st.entries)
  {
    var init := steps[..|steps| - 1];
    forall i | 0 <= i < |init| && init[i].Compact?
      ensures Listing(init[i].listing, Run(init[..i]).st.entries)
    {
      assert init[..i] == steps[..i] && init[i] == steps[i];
    }
  }

  /** A rename is one record, and a second one when the source's content was still unsent. */
  function RenameSteps(st: JournalState, from: Path, to: Path, actionMs: nat): seq<Step> {
    [Append(Rename(to), from, actionMs)] + if HasUpsert(st.entries, from) then [Append(Upsert, to, actionMs)] else []
  }

  // ---- No run loses an action ----

  /**
   The recorded action `u` took the path `q` away: a delete at or above it, or a rename of it or of a
   directory above it whose target was taken away later. `top` is the next free number.
   */
  ghost predicate Removes(recorded: Entries, u: nat, q: Path, top: nat)
    decreases if u < top then top - u else 0
  {
    && u < top && u in recorded && StartsWith(q, recorded[u].path)
    && (recorded[u].op.Delete? ||
        (recorded[u].op.Rename? && exists w :: u < w < top && Removes(recorded, w, recorded[u].op.to, top)))
  }

  ghost predicate RemovedAfter(recorded: Entries, s: nat, q: Path, top: nat) {
    exists u :: s < u < top && Removes(recorded, u, q, top)
  }

  /** A later action speaks for `q`; with `removed`, it may also have taken `q` away with a directory that was moved and then removed. */
  ghost predicate SpokenForAfter(recorded: Entries, s: nat, q: Path, removed: bool, top: nat) {
    || (exists t :: t in recorded && t > s && SpeaksFor(recorded[t], q))
    || (removed && RemovedAfter(recorded, s, q, top))
  }

  /** A recorded mention is acknowledged, still pending under its own number, or spoken for later. */
  ghost predicate NothingLost(st: JournalState, recorded: Entries, removed: bool) {
    forall s, q :: s in recorded && q in Mentions(recorded[s]) && s > st.acked ==>
                     || (s in st.entries && q in Mentions(st.entries[s]))
                     || SpokenForAfter(recorded, s, q, removed, st.nextSeq)
  }

  /** `v` is a recorded action, whole or worn; one that is left as the delete of its source lost its target. */
  ghost predicate Stem(v: Entry, recorded: Entries, top: nat) {
    && v.seqNo in recorded && v.seqNo < top && Worn(v, recorded[v.seqNo])
    && (v.op.Delete? && recorded[v.seqNo].op.Rename? ==> RemovedAfter(recorded, v.seqNo, recorded[v.seqNo].op.to, top))
  }

  /** The state pends recorded entries only. */
  ghost predicate Stems(st: JournalState, recorded: Entries) {
    && st.Valid()
    && (forall s :: s in recorded ==> recorded[s].seqNo == s && s < st.nextSeq)
    && (forall s :: s in st.entries ==> Stem(st.entries[s], recorded, st.nextSeq))
  }

  /** More was recorded. */
  ghost predicate Extends(more: Entries, recorded: Entries) {
    forall s :: s in recorded ==> s in more && more[s] == recorded[s]
  }

  lemma {:induction false} RemovesGrows(recorded: Entries, more: Entries, u: nat, q: Path, top: nat, higher: nat)
    requires Extends(more, recorded) && top <= higher && Removes(recorded, u, q, top)
    ensures Removes(more, u, q, higher)
    decreases top - u
  {
    if recorded[u].op.Rename? {
      var w :| u < w < top && Removes(recorded, w, recorded[u].op.to, top);
      RemovesGrows(recorded, more, w, recorded[u].op.to, top, higher);
    }
  }

  lemma SpokenGrows(recorded: Entries, more: Entries, s: nat, q: Path, removed: bool, top: nat, higher: nat)
    requires Extends(more, recorded) && top <= higher && SpokenForAfter(recorded, s, q, removed, top)
    ensures SpokenForAfter(more, s, q, removed, higher)
  {
    if t :| t in recorded && t > s && SpeaksFor(recorded[t], q) {
      assert t in more && more[t] == recorded[t];
    } else {
      var u :| s < u < top && Removes(recorded, u, q, top);
      RemovesGrows(recorded, more, u, q, top, higher);
    }
  }

  lemma StemGrows(v: Entry, recorded: Entries, more: Entries, top: nat, higher: nat)
    requires Stem(v, recorded, top) && Extends(more, recorded) && top <= higher
    ensures Stem(v, more, higher)
  {
    if v.op.Delete? && recorded[v.seqNo].op.Rename? {
      var q := recorded[v.seqNo].op.to;
      var u :| v.seqNo < u < top && Removes(recorded, u, q, top);
      RemovesGrows(recorded, more, u, q, top, higher);
    }
  }

  /** A pending delete of what it stems from takes everything below its path away. */
  lemma StemRemoves(x: Entry, recorded: Entries, q: Path, top: nat)
    requires Stem(x, recorded, top) && x.op.Delete? && StartsWith(q, x.path)
    ensures Removes(recorded, x.seqNo, q, top)
  {
  }

  /** What coalescing leaves of an entry still stems from what was recorded. */
  lemma LeaveStems(new_: Entry, v: Entry, recorded: Entries, top: nat)
    requires Stem(v, recorded, top) && Stem(new_, recorded, top) && v.seqNo < new_.seqNo
    ensures Leave(new_, v).Some? ==> Stem(Leave(new_, v).value, recorded, top)
  {
    LeaveWears(new_, v, recorded[v.seqNo]);
    if new_.op.Delete? && v.op.Rename? && StartsWith(v.op.to, new_.path) {
      StemRemoves(new_, recorded, v.op.to, top);
      assert RemovedAfter(recorded, v.seqNo, v.op.to, top);
    }
  }

  lemma StemSpeaks(x: Entry, recorded: Entries, s: nat, q: Path, top: nat)
    requires Stem(x, recorded, top) && s < x.seqNo && SpeaksFor(x, q)
    ensures SpokenForAfter(recorded, s, q, true, top)
  {
    if x.op.Delete? {
      StemRemoves(x, recorded, q, top);
      assert RemovedAfter(recorded, s, q, top);
    } else {
      assert SpeaksFor(recorded[x.seqNo], q);
    }
  }

  lemma AppendStems(st: JournalState, recorded: Entries, e: Entry)
    requires Stems(st, recorded) && e.seqNo == st.nextSeq
    ensures Stems(ApplyEntry(st, e), recorded[e.seqNo := e])
  {
    var more, after := recorded[e.seqNo := e], ApplyEntry(st, e);
    ApplyEntryValid(st, e);
    forall s | s in after.entries
      ensures Stem(after.entries[s], more, after.nextSeq)
    {
      if s != e.seqNo {
        StemGrows(st.entries[s], recorded, more, st.nextSeq, after.nextSeq);
        LeaveStems(e, st.entries[s], more, after.nextSeq);
      }
    }
  }

  lemma AppendLosesNothing(st: JournalState, recorded: Entries, e: Entry, removed: bool)
    requires Stems(st, recorded) && NothingLost(st, recorded, removed) && e.seqNo == st.nextSeq
    ensures NothingLost(ApplyEntry(st, e), recorded[e.seqNo := e], removed)
  {
    var after, more := ApplyEntry(st, e), recorded[e.seqNo := e];
    forall s, q | s in more && q in Mentions(more[s]) && s > after.acked
      ensures (s in after.entries && q in Mentions(after.entries[s])) || SpokenForAfter(more, s, q, removed, after.nextSeq)
    {
      if s != e.seqNo {
        MentionAfter(st, recorded, e, removed, s, q);
      }
    }
  }

  lemma MentionAfter(st: JournalState, recorded: Entries, e: Entry, removed: bool, s: nat, q: Path)
    requires Stems(st, recorded) && NothingLost(st, recorded, removed) && e.seqNo == st.nextSeq
    requires s in recorded && q in Mentions(recorded[s]) && s > st.acked
    ensures var after := ApplyEntry(st, e);
            || (s in after.entries && q in Mentions(after.entries[s]))
            || SpokenForAfter(recorded[e.seqNo := e], s, q, removed, after.nextSeq)
  {
    var more, top := recorded[e.seqNo := e], ApplyEntry(st, e).nextSeq;
    if s in st.entries && q in Mentions(st.entries[s]) {
      LeaveKeepsOrSpeaks(e, st.entries[s], q);
      assert e.seqNo in more && more[e.seqNo] == e;
    } else {
      SpokenGrows(recorded, more, s, q, removed, st.nextSeq, top);
    }
  }

  lemma AckLosesNothing(st: JournalState, recorded: Entries, upto: nat, removed: bool)
    requires Stems(st, recorded) && NothingLost(st, recorded, removed)
    ensures Stems(AckLocal(st, upto), recorded) && NothingLost(AckLocal(st, upto), recorded, removed)
  {
    var after := AckLocal(st, upto);
    AckLocalValid(st, upto);
    forall s | s in after.entries
      ensures Stem(after.entries[s], recorded, after.nextSeq)
    {
      StemGrows(st.entries[s], recorded, recorded, st.nextSeq, after.nextSeq);
    }
    forall s, q | s in recorded && q in Mentions(recorded[s]) && s > after.acked
      ensures (s in after.entries && q in Mentions(after.entries[s])) || SpokenForAfter(recorded, s, q, removed, after.nextSeq)
    {
      if !(s in st.entries && q in Mentions(st.entries[s])) {
        SpokenGrows(recorded, recorded, s, q, removed, st.nextSeq, after.nextSeq);
      }
    }
  }

  /** Listed entries recorded again one by one still stem from what was recorded first. */
  lemma {:induction false} RebuildStems(xs: seq<Entry>, recorded: Entries, top: nat)
    requires Ascending(xs) && forall i :: 0 <= i < |xs| ==> Stem(xs[i], recorded, top)
    ensures forall s :: s in Rebuild(xs) ==> Stem(Rebuild(xs)[s], recorded, top)
  {
    if xs != [] {
      var init, e := xs[..|xs| - 1], xs[|xs| - 1];
      RebuildStems(init, recorded, top);
      RebuildNumbered(init);
      forall s | s in Rebuild(xs) && s != e.seqNo
        ensures Stem(Rebuild(xs)[s], recorded, top)
      {
        var k := RebuildKeys(init, s);
        LeaveStems(e, Rebuild(init)[s], recorded, top);
      }
    }
  }

  /** A compacted file forgets a mention only where a later record speaks for it. */
  lemma CompactLosesNothing(st: JournalState, recorded: Entries, xs: seq<Entry>)
    requires Stems(st, recorded) && NothingLost(st, recorded, true) && Listing(xs, st.entries)
    ensures var r := Replay(Compacted(st.acked, xs)); Stems(r, recorded) && NothingLost(r, recorded, true)
  {
    var r := Replay(Compacted(st.acked, xs));
    MirrorCompacted(st, xs);
    CompactionRestoresMarks(st, xs);
    RebuildStems(xs, recorded, st.nextSeq);
    forall s, q | s in recorded && q in Mentions(recorded[s]) && s > r.acked
      ensures (s in r.entries && q in Mentions(r.entries[s])) || SpokenForAfter(recorded, s, q, true, r.nextSeq)
    {
      if s in st.entries && q in Mentions(st.entries[s]) {
        MentionRebuilt(st, recorded, xs, s, q);
      }
    }
  }

  lemma MentionRebuilt(st: JournalState, recorded: Entries, xs: seq<Entry>, s: nat, q: Path)
    requires Stems(st, recorded) && Listing(xs, st.entries) && s in st.entries && q in Mentions(st.entries[s])
    ensures var r := Replay(Compacted(st.acked, xs));
            (s in r.entries && q in Mentions(r.entries[s])) || SpokenForAfter(recorded, s, q, true, r.nextSeq)
  {
    CompactionRestoresMarks(st, xs);
    var i :| 0 <= i < |xs| && xs[i] == st.entries[s];
    CompactionLosesNothing(xs, i, q);
    if j :| i < j < |xs| && SpeaksFor(xs[j], q) {
      StemSpeaks(xs[j], recorded, s, q, st.nextSeq);
    }
  }

  /** What every run keeps, of the live journal and of its file. */
  ghost predicate Kept(j: Journal) {
    && Mirrors(j.file, j.st)
    && Stems(j.st, j.recorded) && NothingLost(j.st, j.recorded, true)
    && Stems(Replay(j.file), j.recorded) && NothingLost(Replay(j.file), j.recorded, true)
  }

  lemma StepKeeps(j: Journal, s: Step)
    requires Kept(j) && (s.Compact? ==> Listing(s.listing, j.st.entries))
    ensures Kept(DoStep(j, s))
  {
    match s
    case Append(op, path, at) =>
      var e := Entry(j.st.nextSeq, op, path, at);
      MirrorAppend(j.file, j.st, e);
      AppendStems(j.st, j.recorded, e);
      AppendStems(Replay(j.file), j.recorded, e);
      AppendLosesNothing(j.st, j.recorded, e, true);
      AppendLosesNothing(Replay(j.file), j.recorded, e, true);
    case Ack(upto) =>
      AckLosesNothing(j.st, j.recorded, upto, true);
      if upto <= j.st.acked {
        AckBelowMark(j.st, upto);
      } else {
        MirrorAck(j.file, j.st, upto);
        AckLosesNothing(Replay(j.file), j.recorded, upto, true);
      }
    case Compact(xs) =>
      MirrorCompacted(j.st, xs);
      CompactLosesNothing(j.st, j.recorded, xs);
    case Reopen =>
  }

  /**
   Every run, with compactions and reopenings anywhere: the file restores both marks and replays to
   pending entries the journal holds, and no mention of a path is lost in memory or in the file, unless
   a later action speaks for that path or took it away.
   */
  lemma {:induction false} RunsLoseNothing(steps: seq<Step>)
    requires IsRun(steps)
    ensures Kept(Run(steps))
    ensures Replay(Run(steps).file).acked == Run(steps).st.acked && Replay(Run(steps).file).nextSeq == Run(steps).st.nextSeq
  {
    if steps != [] {
      IsRunInit(steps);
      RunsLoseNothing(steps[..|steps| - 1]);
      StepKeeps(Run(steps[..|steps| - 1]), steps[|steps| - 1]);
    }
  }

  /** Every reopening found in the file exactly what memory held. */
  ghost predicate ReopensWhole(steps: seq<Step>) {
    forall i :: 0 <= i < |steps| && steps[i].Reopen? ==> ReplaysLive(Run(steps[..i]))
  }

  ghost predicate ReplaysLive(j: Journal) {
    Replay(j.file) == j.st
  }

  /** As long as reopening finds what memory held, a mention is dropped only where a later action speaks for that very path. */
  lemma {:induction false} WholeRunsLoseNothing(steps: seq<Step>)
    requires IsRun(steps) && ReopensWhole(steps)
    ensures NothingLost(Run(steps).st, Run(steps).recorded, false)
  {
    if steps != [] {
      var n := |steps| - 1;
      var j := Run(steps[..n]);
      RunPrefix(steps, n);
      WholeRunsLoseNothing(steps[..n]);
      RunsLoseNothing(steps[..n]);
      match steps[n]
      case Append(op, path, at) => AppendLosesNothing(j.st, j.recorded, Entry(j.st.nextSeq, op, path, at), false);
      case Ack(upto) => AckLosesNothing(j.st, j.recorded, upto, false);
      case Compact(_) =>
      case Reopen => assert ReplaysLive(j);
    }
  }

  /** So it is in every run that is never reopened, and in every run whose compactions were all exact. */
  lemma RunsLoseNothingStrictly(steps: seq<Step>)
    requires IsRun(steps) && (SettledCompactions(steps) || forall i :: 0 <= i < |steps| ==> !steps[i].Reopen?)
    ensures NothingLost(Run(steps).st, Run(steps).recorded, false)
  {
    if SettledCompactions(steps) {
      RecoveryExact(steps);
    }
    WholeRunsLoseNothing(steps);
  }

  /** Renaming a path whose content was unsent leaves that content pending at the target. */
  lemma RenameKeepsContent(steps: seq<Step>, from: Path, to: Path, actionMs: nat)
    requires HasUpsert(Run(steps).st.entries, from)
    ensures HasUpsert(Run(steps + RenameSteps(Run(steps).st, from, to, actionMs)).st.entries, to)
  {
    var more := RenameSteps(Run(steps).st, from, to, actionMs);
    var mid := steps + [more[0]];
    assert (steps + more)[..|steps| + 1] == mid && (steps + more)[|steps| + 1] == more[1];
    var es := Run(steps + more).st.entries;
    assert Run(steps + more) == DoAppend(Run(mid), Upsert, to, actionMs);
    assert Run(mid).st.nextSeq in es;
  }

  // ---- Exact recovery ----

  /** Every compaction found the pending set settled. */
  ghost predicate SettledCompactions(steps: seq<Step>) {
    forall i :: 0 <= i < |steps| ==> SettledAt(Run(steps[..i]), steps[i])
  }

  ghost predicate SettledAt(j: Journal, s: Step) {
    s.Compact? ==> Settled(j.st.entries)
  }

  /** What holds of a run holds of its prefixes. */
  lemma RunPrefix(steps: seq<Step>, n: nat)
    requires IsRun(steps) && n <= |steps|
    ensures IsRun(steps[..n]) && (SettledCompactions(steps) ==> SettledCompactions(steps[..n]))
    ensures (SplitFree(steps) ==> SplitFree(steps[..n])) && (ReopensWhole(steps) ==> ReopensWhole(steps[..n]))
    ensures n < |steps| ==> Run(steps[..n + 1]) == DoStep(Run(steps[..n]), steps[n])
  {
    forall k | 0 <= k < n
      ensures steps[..n][..k] == steps[..k]
    {
    }
    if n < |steps| {
      assert steps[..n + 1] == steps[..n] + [steps[n]];
      RunSnoc(steps[..n], steps[n]);
    }
  }

  lemma StepExact(j: Journal, s: Step)
    requires Kept(j) && ReplaysLive(j)
    requires SettledAt(j, s) && (s.Compact? ==> Listing(s.listing, j.st.entries))
    ensures ReplaysLive(DoStep(j, s))
  {
    match s
    case Append(op, path, at) => MirrorAppend(j.file, j.st, Entry(j.st.nextSeq, op, path, at));
    case Ack(upto) =>
      if upto <= j.st.acked {
        AckBelowMark(j.st, upto);
      } else {
        MirrorAck(j.file, j.st, upto);
      }
    case Compact(xs) => CompactionExact(j.st, xs);
    case Reopen =>
  }

  lemma {:induction false} SettledReplay(steps: seq<Step>)
    requires IsRun(steps) && SettledCompactions(steps)
    ensures ReplaysLive(Run(steps))
  {
    if steps != [] {
      var n := |steps| - 1;
      IsRunInit(steps);
      RunPrefix(steps, n);
      SettledReplay(steps[..n]);
      RunsLoseNothing(steps[..n]);
      assert SettledAt(Run(steps[..n]), steps[n]);
      StepExact(Run(steps[..n]), steps[n]);
    }
  }

  /** A compaction of an unsettled pending set leaves a file that replays to something else. */
  lemma UnsettledReplay(steps: seq<Step>, i: nat)
    requires IsRun(steps) && i < |steps| && !SettledAt(Run(steps[..i]), steps[i])
    ensures !ReplaysLive(Run(steps[..i + 1]))
  {
    RunPrefix(steps, i);
    RunsLoseNothing(steps[..i]);
    CompactionExact(Run(steps[..i]).st, steps[i].listing);
  }

  /**
   At every point of a run the file replays to exactly the state in memory if and only if every
   compaction found the pending set settled. Without a compaction it always does.
   */
  lemma RecoveryExact(steps: seq<Step>)
    requires IsRun(steps)
    ensures (forall n :: 0 <= n <= |steps| ==> ReplaysLive(Run(steps[..n]))) <==> SettledCompactions(steps)
  {
    if SettledCompactions(steps) {
      forall n | 0 <= n <= |steps|
        ensures ReplaysLive(Run(steps[..n]))
      {
        RunPrefix(steps, n);
        SettledReplay(steps[..n]);
      }
    } else {
      var i :| 0 <= i < |steps| && !SettledAt(Run(steps[..i]), steps[i]);
      UnsettledReplay(steps, i);
    }
  }

  // ---- A cause that can be seen in the actions: deletes that split a pending rename ----

  /** A delete of `p` would separate a pending rename's source from its target. */
  predicate Splits(es: Entries, p: Path) {
    exists s :: s in es && es[s].op.Rename? && (StartsWith(es[s].path, p) != StartsWith(es[s].op.to, p))
  }

  predicate SplitsAt(es: Entries, s: Step) {
    s.Append? && s.op.Delete? && Splits(es, s.path)
  }

  /** No delete of the run split a pending rename. */
  ghost predicate SplitFree(steps: seq<Step>) {
    forall i :: 0 <= i < |steps| ==> !SplitsAt(Run(steps[..i]).st.entries, steps[i])
  }

  lemma AppendSettles(es: Entries, e: Entry)
    requires Settled(es) && (forall s :: s in es ==> s < e.seqNo)
    requires e.op.Delete? ==> !Splits(es, e.path)
    ensures Settled(Coalesce(es, e))
  {
    var after := Coalesce(es, e);
    forall s, t | s in after && t in after && s < t
      ensures Leave(after[t], after[s]) == Some(after[s])
    {
      KeptWhole(es, e, s);
      if t != e.seqNo {
        KeptWhole(es, e, t);
      }
    }
  }

  /** Without a split, recording an action drops pending entries or leaves them as they are. */
  lemma KeptWhole(es: Entries, e: Entry, s: nat)
    requires s in Coalesce(es, e) && s != e.seqNo
    requires e.op.Delete? ==> !Splits(es, e.path)
    ensures s in es && Coalesce(es, e)[s] == es[s] && Leave(e, es[s]) == Some(es[s])
  {
  }

  lemma StepSettles(j: Journal, s: Step)
    requires j.st.Valid() && Settled(j.st.entries) && ReplaysLive(j) && !SplitsAt(j.st.entries, s)
    ensures Settled(DoStep(j, s).st.entries)
  {
    if s.Append? {
      AppendSettles(j.st.entries, Entry(j.st.nextSeq, s.op, s.path, s.actionMs));
    }
  }

  /** Without a split the pending set is always settled. */
  lemma {:induction false} SplitFreeSettled(steps: seq<Step>)
    requires IsRun(steps) && SplitFree(steps)
    ensures Settled(Run(steps).st.entries) && SettledCompactions(steps)
  {
    if steps != [] {
      var n := |steps| - 1;
      RunPrefix(steps, n);
      SplitFreeSettled(steps[..n]);
      RunsLoseNothing(steps[..n]);
      SettledReplay(steps[..n]);
      SettledSnoc(steps, n);
      StepSettles(Run(steps[..n]), steps[n]);
    }
  }

  lemma SettledSnoc(steps: seq<Step>, n: nat)
    requires |steps| == n + 1 && SettledCompactions(steps[..n]) && Settled(Run(steps[..n]).st.entries)
    ensures SettledCompactions(steps)
  {
    var init := steps[..n];
    forall i | 0 <= i < |steps|
      ensures SettledAt(Run(steps[..i]), steps[i])
    {
      if i < n {
        assert SettledAt(Run(init[..i]), init[i]);
        assert init[..i] == steps[..i] && init[i] == steps[i];
      } else {
        assert i == n;
      }
    }
  }

  /** In every run in which no delete splits a pending rename, the file replays to exactly the state in memory. */
  lemma ReplayIsLive(steps: seq<Step>)
    requires IsRun(steps) && SplitFree(steps)
    ensures SettledCompactions(steps) && Settled(Run(steps).st.entries) && ReplaysLive(Run(steps))
  {
    SplitFreeSettled(steps);
    SettledReplay(steps);
  }

  /** Each file from the last compacted image on was the whole file at some point of the run. */
  lemma {:induction false} PrefixWasTheFile(steps: seq<Step>, k: nat) returns (i: nat)
    requires Run(steps).base <= k <= |Run(steps).file|
    ensures i <= |steps| && Run(steps[..i]).file == Run(steps).file[..k]
  {
    if k == |Run(steps).file| {
      i := |steps|;
      assert steps[..i] == steps && Run(steps).file[..k] == Run(steps).file;
    } else {
      var init := steps[..|steps| - 1];
      assert Run(init).file <= Run(steps).file && |Run(steps).file| <= |Run(init).file| + 1 && Run(init).base == Run(steps).base;
      i := PrefixWasTheFile(init, k);
      assert init[..i] == steps[..i] && Run(init).file[..k] == Run(steps).file[..k];
    }
  }

  // ---- The file as text ----

  /** The record serialiser: one line per record, read back unchanged. */
  datatype Codec = Codec(encode: Line -> string, decode: string -> Option<Line>) {
    ghost predicate Valid() {
      forall l ::
        && '\n' !in encode(l)
        && !Blank(encode(l))
        && decode(encode(l)) == Some(l)
    }
  }

  predicate Blank(s: string) {
    forall c :: c in s ==> c == ' ' || c == '\t' || c == '\r'
  }

  function Text(codec: Codec, lines: seq<Line>): string {
    if lines == [] then "" else codec.encode(lines[0]) + "\n" + Text(codec, lines[1..])
  }

  /** Newline-terminated pieces of `raw`; whatever follows the last newline is dropped. */
  function CompleteLines(raw: string, current: string): seq<string>
    decreases |raw|
  {
    if raw == "" then []
    else if raw[0] == '\n' then [current] + CompleteLines(raw[1..], "")
    else CompleteLines(raw[1..], current + [raw[0]])
  }

  /** The records among the pieces, skipping blank pieces and those that do not parse. */
  function Parsed(codec: Codec, pieces: seq<string>): seq<Line> {
    if pieces == [] then []
    else
      var rest := Parsed(codec, pieces[1..]);
      if Blank(pieces[0]) then rest
      else match codec.decode(pieces[0])
        case None => rest
        case Some(l) => [l] + rest
  }

  /** The state a reopened journal starts from. */
  function Reopened(codec: Codec, raw: string): JournalState {
    Replay(Parsed(codec, CompleteLines(raw, "")))
  }

  lemma {:induction false} ScanLine(raw: string, current: string, word: string)
    requires '\n' !in word
    ensures CompleteLines(word + raw, current) == CompleteLines(raw, current + word)
    decreases |word|
  {
    if word == "" {
      assert word + raw == raw && current + word == current;
    } else {
      assert (word + raw)[1..] == word[1..] + raw;
      ScanLine(raw, current + [word[0]], word[1..]);
      assert current + [word[0]] + word[1..] == current + word;
    }
  }

  /** The records wholly contained in the first `n` characters of the text. */
  function RecordsWithin(codec: Codec, lines: seq<Line>, n: nat): (k: nat)
    ensures k <= |lines|
  {
    if lines == [] then 0
    else
      var width := |codec.encode(lines[0])| + 1;
      if n < width then 0 else 1 + RecordsWithin(codec, lines[1..], n - width)
  }

  /** Cutting the text anywhere leaves the records before the cut; a torn tail is ignored. */
  lemma {:induction false} CutText(codec: Codec, lines: seq<Line>, n: nat)
    requires codec.Valid() && n <= |Text(codec, lines)|
    ensures Parsed(codec, CompleteLines(Text(codec, lines)[..n], "")) == lines[..RecordsWithin(codec, lines, n)]
  {
    if lines != [] {
      var word, rest := codec.encode(lines[0]), Text(codec, lines[1..]);
      if n <= |word| {
        assert Text(codec, lines)[..n] == word[..n] + "";
        ScanLine("", "", word[..n]);
      } else {
        var m := n - |word| - 1;
        CutText(codec, lines[1..], m);
        assert Text(codec, lines)[..n] == word + ("\n" + rest[..m]);
        ScanLine("\n" + rest[..m], "", word);
        assert ("\n" + rest[..m])[1..] == rest[..m] && "" + word == word;
        assert CompleteLines(Text(codec, lines)[..n], "") == [word] + CompleteLines(rest[..m], "");
        var k := RecordsWithin(codec, lines[1..], m);
        assert RecordsWithin(codec, lines, n) == 1 + k;
        assert lines[..1 + k] == [lines[0]] + lines[1..][..k];
      }
    }
  }

  /**
   A crash that leaves any number `n` of the file's characters on disk, the last compacted image at
   least: reopening gives exactly the state of an earlier reopening, the one after the records
   written whole. If every compaction found the pending set settled, that is the state the journal was in.
   */
  lemma CrashRecovers(codec: Codec, steps: seq<Step>, n: nat) returns (i: nat)
    requires codec.Valid() && IsRun(steps) && n <= |Text(codec, Run(steps).file)|
    requires RecordsWithin(codec, Run(steps).file, n) >= Run(steps).base
    ensures i <= |steps| && Run(steps[..i]).file == Run(steps).file[..RecordsWithin(codec, Run(steps).file, n)]
    ensures Reopened(codec, Text(codec, Run(steps).file)[..n]) == Run(steps[..i] + [Reopen]).st
    ensures Mirrors(Run(steps[..i]).file, Run(steps[..i]).st)
    ensures SettledCompactions(steps) ==> Reopened(codec, Text(codec, Run(steps).file)[..n]) == Run(steps[..i]).st
  {
    var file := Run(steps).file;
    var k := RecordsWithin(codec, file, n);
    CutText(codec, file, n);
    i := PrefixWasTheFile(steps, k);
    assert Reopened(codec, Text(codec, file)[..n]) == Replay(file[..k]);
    ReopenedRun(steps, i);
  }

  lemma ReopenedRun(steps: seq<Step>, i: nat)
    requires IsRun(steps) && i <= |steps|
    ensures Run(steps[..i] + [Reopen]).st == Replay(Run(steps[..i]).file)
    ensures Mirrors(Run(steps[..i]).file, Run(steps[..i]).st)
    ensures SettledCompactions(steps) ==> ReplaysLive(Run(steps[..i]))
  {
    var part := steps[..i];
    RunPrefix(steps, i);
    RunSnoc(part, Reopen);
    RunsLoseNothing(part);
    if SettledCompactions(steps) {
      SettledReplay(part);
    }
  }

  const SOURCE: Path := ["x", "a"]
  const TARGET: Path := ["b"]
  const FOLDER: Path := ["x"]
  /** A file is renamed out of a directory and edited; then the directory is deleted. */
  const SPLITTING: seq<Step> :=
    [Append(Rename(TARGET), SOURCE, 1), Append(Upsert, TARGET, 2), Append(Delete, FOLDER, 3)]

  lemma RunSnoc(steps: seq<Step>, s: Step)
    ensures Run(steps + [s]) == DoStep(Run(steps), s)
  {
    assert (steps + [s])[..|steps|] == steps;
  }

  lemma SplittingRun()
    ensures var es := Run(SPLITTING).st.entries;
            && 1 in es && es[1] == Entry(1, Upsert, TARGET, 1)
            && 2 in es && es[2] == Entry(2, Upsert, TARGET, 2)
  {
    var moved, edited := Entry(1, Rename(TARGET), SOURCE, 1), Entry(2, Upsert, TARGET, 2);
    var s1 := [SPLITTING[0]];
    var s2 := s1 + [SPLITTING[1]];
    RunSnoc([], SPLITTING[0]);
    RunSnoc(s1, SPLITTING[1]);
    RunSnoc(s2, SPLITTING[2]);
    assert [] + [SPLITTING[0]] == s1 && s2 + [SPLITTING[2]] == SPLITTING;
    assert Run(s1).st.nextSeq == 2 && Run(s2).st.nextSeq == 3;
    assert Leave(edited, moved) == Some(moved);
    CutsOut(moved, edited);
  }

  lemma CutsOut(moved: Entry, edited: Entry)
    requires moved == Entry(1, Rename(TARGET), SOURCE, 1) && edited == Entry(2, Upsert, TARGET, 2)
    ensures Cut(moved, FOLDER) == Some(Entry(1, Upsert, TARGET, 1)) && Cut(edited, FOLDER) == Some(edited)
  {
    assert "x"[0] != "b"[0] && SOURCE[..1] == FOLDER && TARGET[0] != FOLDER[0];
  }

  /** Compaction of that run replays to a different pending set. */
  lemma CompactionCounterexample(xs: seq<Entry>)
    requires Listing(xs, Run(SPLITTING).st.entries)
    ensures Replay(Compacted(Run(SPLITTING).st.acked, xs)) != Run(SPLITTING).st
  {
    SplittingRun();
    RunsLoseNothing(SPLITTING);
    var es := Run(SPLITTING).st.entries;
    assert Leave(es[2], es[1]).None?;
    CompactionExact(Run(SPLITTING).st, xs);
  }

  // ---- A mention that goes with a directory moved away ----

  /** A file is edited, its directory renamed, and the renamed directory deleted; then compaction and a restart. */
  function MovedAway(xs: seq<Entry>): seq<Step> {
    [Append(Upsert, SOURCE, 1), Append(Rename(TARGET), FOLDER, 2), Append(Delete, TARGET, 3), Compact(xs), Reopen]
  }

  lemma MovedAwayPending()
    ensures var j := Run(MovedAway([])[..3]);
            && j.st == JournalState(map[1 := Entry(1, Upsert, SOURCE, 1), 2 := Entry(2, Delete, FOLDER, 2), 3 := Entry(3, Delete, TARGET, 3)], 0, 4)
            && j.recorded == map[1 := Entry(1, Upsert, SOURCE, 1), 2 := Entry(2, Rename(TARGET), FOLDER, 2), 3 := Entry(3, Delete, TARGET, 3)]
  {
    var steps := MovedAway([]);
    var edited, moved, deleted := Entry(1, Upsert, SOURCE, 1), Entry(2, Rename(TARGET), FOLDER, 2), Entry(3, Delete, TARGET, 3);
    assert steps[..1] == [] + [steps[0]] && steps[..2] == steps[..1] + [steps[1]] && steps[..3] == steps[..2] + [steps[2]];
    RunSnoc([], steps[0]);
    RunSnoc(steps[..1], steps[1]);
    RunSnoc(steps[..2], steps[2]);
    MovedAwayLeaves();
    assert Run(steps[..1]).st == JournalState(map[1 := edited], 0, 2);
    assert Run(steps[..2]).st == JournalState(map[1 := edited, 2 := moved], 0, 3);
  }

  lemma MovedAwayLeaves()
    ensures var edited, moved, deleted := Entry(1, Upsert, SOURCE, 1), Entry(2, Rename(TARGET), FOLDER, 2), Entry(3, Delete, TARGET, 3);
            && Leave(moved, edited) == Some(edited) && Leave(deleted, edited) == Some(edited)
            && Leave(deleted, moved) == Some(Entry(2, Delete, FOLDER, 2))
            && Leave(Entry(2, Delete, FOLDER, 2), edited) == None
  {
    assert "x"[0] != "b"[0] && SOURCE[..1] == FOLDER && |SOURCE| == 2 && |FOLDER| == 1 && TARGET[0] != FOLDER[0] && SOURCE[0] != TARGET[0];
  }

  /**
   After that restart the edit is no longer pending, and no later action speaks for its very path: it
   went with the directory that was moved and then deleted.
   */
  lemma MovedAwayForgotten(xs: seq<Entry>)
    requires IsRun(MovedAway(xs))
    ensures NothingLost(Run(MovedAway(xs)).st, Run(MovedAway(xs)).recorded, true)
    ensures !NothingLost(Run(MovedAway(xs)).st, Run(MovedAway(xs)).recorded, false)
  {
    RunsLoseNothing(MovedAway(xs));
    var j := MovedAwayListed(xs);
    ForgottenOnRestart(j, xs);
  }

  /** The journal before the compaction. */
  lemma MovedAwayListed(xs: seq<Entry>) returns (j: Journal)
    requires IsRun(MovedAway(xs))
    ensures j.st.Valid() && Listing(xs, j.st.entries) && Run(MovedAway(xs)) == DoStep(DoStep(j, Compact(xs)), Reopen)
    ensures j.st == JournalState(map[1 := Entry(1, Upsert, SOURCE, 1), 2 := Entry(2, Delete, FOLDER, 2), 3 := Entry(3, Delete, TARGET, 3)], 0, 4)
    ensures j.recorded == map[1 := Entry(1, Upsert, SOURCE, 1), 2 := Entry(2, Rename(TARGET), FOLDER, 2), 3 := Entry(3, Delete, TARGET, 3)]
  {
    MovedAwayEnds(xs);
    MovedAwayPending();
    j := Run(MovedAway(xs)[..3]);
    assert MovedAway(xs)[3].Compact?;
  }

  lemma MovedAwayEnds(xs: seq<Entry>)
    ensures MovedAway(xs)[..3] == MovedAway([])[..3] && MovedAway(xs)[3] == Compact(xs)
    ensures Run(MovedAway(xs)) == DoStep(DoStep(Run(MovedAway(xs)[..3]), Compact(xs)), Reopen)
  {
    var steps := MovedAway(xs);
    assert steps == (steps[..3] + [Compact(xs)]) + [Reopen];
    RunSnoc(steps[..3], Compact(xs));
    RunSnoc(steps[..3] + [Compact(xs)], Reopen);
  }

  lemma ForgottenOnRestart(j: Journal, xs: seq<Entry>)
    requires j.st.Valid() && j.st.acked == 0 && Listing(xs, j.st.entries) && 1 in j.st.entries && 2 in j.st.entries
    requires j.st.entries[1] == Entry(1, Upsert, SOURCE, 1) && j.st.entries[2] == Entry(2, Delete, FOLDER, 2)
    requires j.recorded == map[1 := Entry(1, Upsert, SOURCE, 1), 2 := Entry(2, Rename(TARGET), FOLDER, 2), 3 := Entry(3, Delete, TARGET, 3)]
    ensures var after := DoStep(DoStep(j, Compact(xs)), Reopen); !NothingLost(after.st, after.recorded, false)
  {
    var st := Replay(Compacted(j.st.acked, xs));
    MovedAwayRebuilt(j.st, xs);
    MovedAwayUnspoken(j.recorded, st.nextSeq);
    assert 1 in j.recorded && SOURCE in Mentions(j.recorded[1]);
  }

  lemma MovedAwayRebuilt(st: JournalState, xs: seq<Entry>)
    requires st.Valid() && Listing(xs, st.entries) && 1 in st.entries && 2 in st.entries
    requires st.entries[1] == Entry(1, Upsert, SOURCE, 1) && st.entries[2] == Entry(2, Delete, FOLDER, 2)
    ensures 1 !in Replay(Compacted(st.acked, xs)).entries && Replay(Compacted(st.acked, xs)).acked == st.acked
  {
    CompactionRestoresMarks(st, xs);
    MovedAwayLeaves();
    var i :| 0 <= i < |xs| && xs[i] == st.entries[1];
    var j :| 0 <= j < |xs| && xs[j] == st.entries[2];
    RebuildTracks(xs, i);
    assert Leave(xs[j], xs[i]) != Some(xs[i]);
  }

  lemma MovedAwayUnspoken(recorded: Entries, top: nat)
    requires recorded == map[1 := Entry(1, Upsert, SOURCE, 1), 2 := Entry(2, Rename(TARGET), FOLDER, 2), 3 := Entry(3, Delete, TARGET, 3)]
    ensures !SpokenForAfter(recorded, 1, SOURCE, false, top)
  {
    assert "x"[0] != "b"[0] && |SOURCE| == 2 && |FOLDER| == 1 && |TARGET| == 1 && SOURCE[0] != TARGET[0];
  }
}
