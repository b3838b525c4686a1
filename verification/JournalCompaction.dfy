/** Rewriting the journal file: what a compacted file, and a file that grew from one, replays to. */
module JournalCompaction {
  import opened Paths
  import opened Wrappers
  import opened Journals

  /** The pending set after recording `xs` one by one. */
  function Rebuild(xs: seq<Entry>): Entries {
    if xs == [] then map[] else Coalesce(Rebuild(xs[..|xs| - 1]), xs[|xs| - 1])
  }

  function LastSeq(acked: nat, xs: seq<Entry>): nat {
    if xs == [] then acked else xs[|xs| - 1].seqNo
  }

  lemma {:induction false} ReplayCompacted(acked: nat, xs: seq<Entry>)
    requires Ascending(xs)
    requires forall i :: 0 <= i < |xs| ==> acked < xs[i].seqNo
    ensures Replay(Compacted(acked, xs)) == JournalState(Rebuild(xs), acked, LastSeq(acked, xs) + 1)
  {
    if xs == [] {
      if acked > 0 {
        assert Compacted(acked, xs) == [] + [AckLine(acked)];
        ReplaySnoc([], AckLine(acked));
      }
    } else {
      var init, e := xs[..|xs| - 1], xs[|xs| - 1];
      ReplayCompacted(acked, init);
      LineRoundTrip(e);
      assert Compacted(acked, xs) == Compacted(acked, init) + [ToLine(e)];
      ReplaySnoc(Compacted(acked, init), ToLine(e));
    }
  }

  /** No pending entry would coalesce an earlier pending one. */
  ghost predicate Settled(es: Entries) {
    forall s, t :: s in es && t in es && s < t ==> Leave(es[t], es[s]) == Some(es[s])
  }

  lemma {:induction false} RebuildKeys(xs: seq<Entry>, s: nat) returns (k: nat)
    requires s in Rebuild(xs)
    ensures k < |xs| && xs[k].seqNo == s
  {
    k := |xs| - 1;
    if s != xs[k].seqNo {
      k := RebuildKeys(xs[..k], s);
    }
  }

  lemma LeaveWears(new_: Entry, v: Entry, e: Entry)
    requires Worn(v, e)
    ensures Leave(new_, v).Some? ==> Worn(Leave(new_, v).value, e)
    ensures v != e ==> Leave(new_, v) != Some(e)
  {
  }

  /** An entry is rebuilt as it was exactly when no later entry touches it: once dropped or rewritten, it stays so. */
  lemma {:induction false} RebuildTracks(xs: seq<Entry>, i: nat)
    requires Ascending(xs) && i < |xs|
    ensures xs[i].seqNo in Rebuild(xs) ==> Worn(Rebuild(xs)[xs[i].seqNo], xs[i])
    ensures (xs[i].seqNo in Rebuild(xs) && Rebuild(xs)[xs[i].seqNo] == xs[i]) <==>
            forall j :: i < j < |xs| ==> Leave(xs[j], xs[i]) == Some(xs[i])
  {
    var n := |xs| - 1;
    if i < n {
      RebuildTracks(xs[..n], i);
      var was, s := Rebuild(xs[..n]), xs[i].seqNo;
      assert (forall j :: i < j < |xs| ==> Leave(xs[j], xs[i]) == Some(xs[i])) <==>
             (forall j :: i < j < n ==> Leave(xs[..n][j], xs[i]) == Some(xs[i])) && Leave(xs[n], xs[i]) == Some(xs[i]);
      if s in was {
        LeaveWears(xs[n], was[s], xs[i]);
      }
    }
  }

  /** Reopening a compacted file restores the marks, so numbers are never reused. */
  lemma CompactionRestoresMarks(st: JournalState, xs: seq<Entry>)
    requires st.Valid() && Listing(xs, st.entries)
    ensures Replay(Compacted(st.acked, xs)).acked == st.acked
    ensures Replay(Compacted(st.acked, xs)).nextSeq == st.nextSeq
    ensures Replay(Compacted(st.acked, xs)).entries == Rebuild(xs)
  {
    ReplayCompacted(st.acked, xs);
    if st.nextSeq - 1 in st.entries {
      var e := st.entries[st.nextSeq - 1];
      var i :| 0 <= i < |xs| && xs[i] == e;
      assert i == |xs| - 1;
    } else {
      assert forall s :: s !in st.entries;
    }
  }

  /** A compacted file replays to the same pending set exactly when that set is settled. */
  lemma CompactionExact(st: JournalState, xs: seq<Entry>)
    requires st.Valid() && Listing(xs, st.entries)
    ensures Replay(Compacted(st.acked, xs)) == st <==> Settled(st.entries)
  {
    CompactionRestoresMarks(st, xs);
    var es := st.entries;
    if Rebuild(xs) == es {
      forall s, t | s in es && t in es && s < t
        ensures Leave(es[t], es[s]) == Some(es[s])
      {
        var i :| 0 <= i < |xs| && xs[i] == es[s];
        var j :| 0 <= j < |xs| && xs[j] == es[t];
        RebuildTracks(xs, i);
      }
    }
    if Settled(es) {
      forall s | s in es
        ensures s in Rebuild(xs) && Rebuild(xs)[s] == es[s]
      {
        var i :| 0 <= i < |xs| && xs[i] == es[s];
        RebuildTracks(xs, i);
      }
      forall s | s in Rebuild(xs)
        ensures s in es
      {
        var k := RebuildKeys(xs, s);
      }
      assert Rebuild(xs) == es;
    }
  }

  /** Even where the pending set changes, no mention is lost without a later pending entry speaking for it. */
  lemma {:induction false} CompactionLosesNothing(xs: seq<Entry>, i: nat, q: Path)
    requires Ascending(xs)
    requires i < |xs| && q in Mentions(xs[i])
    ensures var s := xs[i].seqNo; s in Rebuild(xs) ==> Rebuild(xs)[s].seqNo == s
    ensures || (xs[i].seqNo in Rebuild(xs) && q in Mentions(Rebuild(xs)[xs[i].seqNo]))
            || exists j :: i < j < |xs| && SpeaksFor(xs[j], q)
  {
    var init, e := xs[..|xs| - 1], xs[|xs| - 1];
    if i < |init| {
      CompactionLosesNothing(init, i, q);
      var s := xs[i].seqNo;
      if s in Rebuild(init) {
        var v := Rebuild(init)[s];
        if q in Mentions(v) {
          LeaveKeepsOrSpeaks(e, v, q);
        }
        var any :| any in Mentions(v);
        LeaveKeepsOrSpeaks(e, v, any);
      }
      if exists j :: i < j < |init| && SpeaksFor(init[j], q) {
        var j :| i < j < |init| && SpeaksFor(init[j], q);
        assert xs[j] == init[j];
      }
      assert xs[|xs| - 1] == e;
    }
  }

  // ---- A file beside a live journal ----

  /** `a` holds the same marks as `b`, and of its pending entries none that `b` lacks, each the same or worn further. */
  ghost predicate Behind(a: JournalState, b: JournalState) {
    && a.acked == b.acked && a.nextSeq == b.nextSeq
    && forall s :: s in a.entries ==> s in b.entries && Worn(a.entries[s], b.entries[s])
  }

  /** The file replays to a sound state behind the live one. */
  ghost predicate Mirrors(file: seq<Line>, st: JournalState) {
    Replay(file).Valid() && Behind(Replay(file), st)
  }

  /** What wore off is never kept where the original goes. */
  lemma LeaveMonotone(new_: Entry, v: Entry, e: Entry)
    requires Worn(v, e) && Leave(new_, v).Some?
    ensures Leave(new_, e).Some? && Worn(Leave(new_, v).value, Leave(new_, e).value)
  {
  }

  lemma ApplyEntryValid(st: JournalState, e: Entry)
    requires st.Valid() && e.seqNo >= st.nextSeq
    ensures ApplyEntry(st, e).Valid()
  {
    forall s | s in Coalesce(st.entries, e) && s != e.seqNo
      ensures s in st.entries && Coalesce(st.entries, e)[s].seqNo == s
    {
      assert Leave(e, st.entries[s]).value.seqNo == st.entries[s].seqNo;
    }
  }

  lemma AckLocalValid(st: JournalState, upto: nat)
    requires st.Valid()
    ensures AckLocal(st, upto).Valid()
  {
  }

  lemma BehindApply(a: JournalState, b: JournalState, e: Entry)
    requires Behind(a, b)
    ensures Behind(ApplyEntry(a, e), ApplyEntry(b, e))
  {
    forall s | s in ApplyEntry(a, e).entries && s != e.seqNo
      ensures s in ApplyEntry(b, e).entries && Worn(ApplyEntry(a, e).entries[s], ApplyEntry(b, e).entries[s])
    {
      LeaveMonotone(e, a.entries[s], b.entries[s]);
    }
  }

  /** Recording an action under the next number keeps the file in step. */
  lemma MirrorAppend(file: seq<Line>, st: JournalState, e: Entry)
    requires Mirrors(file, st) && e.seqNo == st.nextSeq
    ensures Mirrors(file + [ToLine(e)], ApplyEntry(st, e))
    ensures Replay(file + [ToLine(e)]) == ApplyEntry(Replay(file), e)
  {
    LineRoundTrip(e);
    ReplaySnoc(file, ToLine(e));
    ApplyEntryValid(Replay(file), e);
    BehindApply(Replay(file), st, e);
  }

  lemma MirrorAck(file: seq<Line>, st: JournalState, upto: nat)
    requires Mirrors(file, st)
    ensures Mirrors(file + [AckLine(upto)], AckLocal(st, upto))
    ensures Replay(file + [AckLine(upto)]) == AckLocal(Replay(file), upto)
  {
    ReplaySnoc(file, AckLine(upto));
    AckLocalValid(Replay(file), upto);
  }

  /** An acknowledgement at or below the mark changes nothing. */
  lemma AckBelowMark(st: JournalState, upto: nat)
    requires st.Valid() && upto <= st.acked
    ensures AckLocal(st, upto) == st
  {
    assert AckLocal(st, upto).entries == st.entries;
  }

  lemma {:induction false} RebuildNumbered(xs: seq<Entry>)
    ensures Numbered(Rebuild(xs))
  {
    if xs != [] {
      RebuildNumbered(xs[..|xs| - 1]);
    }
  }

  /** A compacted file mirrors the journal it was written from. */
  lemma MirrorCompacted(st: JournalState, xs: seq<Entry>)
    requires st.Valid() && Listing(xs, st.entries)
    ensures Mirrors(Compacted(st.acked, xs), st)
  {
    CompactionRestoresMarks(st, xs);
    RebuildNumbered(xs);
    forall s | s in Rebuild(xs)
      ensures s in st.entries && Worn(Rebuild(xs)[s], st.entries[s])
    {
      var k := RebuildKeys(xs, s);
      RebuildTracks(xs, k);
    }
    if st.nextSeq - 1 in st.entries {
      LastRebuilt(st, xs);
    }
  }

  lemma LastRebuilt(st: JournalState, xs: seq<Entry>)
    requires st.Valid() && Listing(xs, st.entries) && st.nextSeq - 1 in st.entries
    ensures st.nextSeq - 1 in Rebuild(xs)
  {
    var k :| 0 <= k < |xs| && xs[k] == st.entries[st.nextSeq - 1];
    var last := xs[|xs| - 1];
    assert last.seqNo in st.entries && last.seqNo < st.nextSeq;
    assert k == |xs| - 1;
  }
}
