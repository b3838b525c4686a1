/** One drain pass: chunking of the snapshot, the messages of a chunk, and the acknowledgements taken. */
module Drain {
  import opened Paths
  import opened Wrappers
  import opened Journals
  import opened JournalStore
  import Bundler

  const DRAIN_CHUNK_MAX_ENTRIES := 256

  datatype Wire =
    | WireUpsert(path: Path, actionMs: nat)
    | WireRename(from: Path, to: Path, actionMs: nat)
    | WireDelete(path: Path, actionMs: nat)

  datatype Decision = Send(wire: Wire) | Settled | Stop

  /** What the surroundings answer, by chunk and entry: file sizes, decisions, actions recorded meanwhile, and the peer's acks. */
  datatype Surroundings = Surroundings(
    size: (nat, nat) -> nat,
    decide: (nat, nat) -> Decision,
    meanwhile: nat -> seq<Recorded>,
    ack: nat -> Option<nat>)

  /** An action the user takes while a chunk is under way. */
  datatype Recorded = Recorded(op: Op, path: Path, actionMs: nat)

  /** The messages of a chunk; an upsert run is bundled with one stamp per path. */
  datatype Msg =
    | Upserts(paths: seq<Path>, stamps: map<Path, nat>)
    | RenameMsg(from: Path, to: Path, actionMs: nat)
    | DeleteMsg(path: Path, actionMs: nat)
    | ActionBatchEnd(upto: nat)

  /** A chunk `[lo, hi)` of the snapshot, what was recorded while it was under way, and the prefix the peer acknowledged, if it answered. */
  datatype Chunk = Chunk(lo: nat, hi: nat, sent: seq<Msg>, meanwhile: seq<Recorded>, acked: Option<nat>)

  function Bytes(env: Surroundings, lo: nat, hi: nat): nat
    decreases hi - lo
  {
    if hi <= lo then 0 else Bytes(env, lo, hi - 1) + env.size(lo, hi - 1)
  }

  // ---- Order on the wire ----

  /** A delivered action without the stamp of an upsert, which the bundle carries per path. */
  datatype Action = Put(path: Path) | Move(from: Path, to: Path, actionMs: nat) | Drop(path: Path, actionMs: nat)

  function ActionOf(w: Wire): Action {
    match w
    case WireUpsert(p, _) => Put(p)
    case WireRename(f, t, at) => Move(f, t, at)
    case WireDelete(p, at) => Drop(p, at)
  }

  function Puts(paths: seq<Path>): seq<Action> {
    seq(|paths|, i requires 0 <= i < |paths| => Put(paths[i]))
  }

  function Actions(wires: seq<Wire>): seq<Action> {
    seq(|wires|, i requires 0 <= i < |wires| => ActionOf(wires[i]))
  }

  function Delivered(msgs: seq<Msg>): seq<Action> {
    if msgs == [] then []
    else
      Delivered(msgs[..|msgs| - 1]) +
      match msgs[|msgs| - 1]
      case Upserts(paths, _) => Puts(paths)
      case RenameMsg(f, t, at) => [Move(f, t, at)]
      case DeleteMsg(p, at) => [Drop(p, at)]
      case ActionBatchEnd(_) => []
  }

  lemma DeliveredSnoc(msgs: seq<Msg>, m: Msg)
    ensures Delivered(msgs + [m]) == Delivered(msgs) + Delivered([m])
  {
    assert (msgs + [m])[..|msgs|] == msgs && [m][..0] == [];
  }

  /** The paths of a run of upserts, in order. */
  function UpsertPaths(wires: seq<Wire>): seq<Path>
    requires forall k :: 0 <= k < |wires| ==> wires[k].WireUpsert?
  {
    seq(|wires|, k requires 0 <= k < |wires| => wires[k].path)
  }

  /** The stamp of each path of a run: that of its last upsert there. */
  function LastStamps(wires: seq<Wire>): map<Path, nat>
    requires forall k :: 0 <= k < |wires| ==> wires[k].WireUpsert?
  {
    if wires == [] then map[] else LastStamps(wires[..|wires| - 1])[wires[|wires| - 1].path := wires[|wires| - 1].actionMs]
  }

  /** That stamp is the one of the last upsert of the path in the run, and no other path has one. */
  lemma {:induction false} LastStampsExact(wires: seq<Wire>, p: Path)
    requires forall k :: 0 <= k < |wires| ==> wires[k].WireUpsert?
    ensures p in LastStamps(wires) <==> exists k :: 0 <= k < |wires| && wires[k].path == p
    ensures forall k :: 0 <= k < |wires| && wires[k].path == p && (forall l :: k < l < |wires| ==> wires[l].path != p) ==>
              p in LastStamps(wires) && LastStamps(wires)[p] == wires[k].actionMs
  {
    if wires != [] {
      var init, last := wires[..|wires| - 1], wires[|wires| - 1];
      LastStampsExact(init, p);
      if p in LastStamps(init) {
        var k :| 0 <= k < |init| && init[k].path == p;
        assert wires[k].path == p;
      }
    }
  }

  /** The message brings the action of the wire: a rename with both paths, a delete, or a file among others. */
  predicate Brings(m: Msg, w: Wire) {
    match w
    case WireUpsert(p, _) => m.Upserts? && p in m.paths
    case WireRename(from, to, at) => m == RenameMsg(from, to, at)
    case WireDelete(p, at) => m == DeleteMsg(p, at)
  }

  lemma {:induction false} DeliveredBy(msgs: seq<Msg>, w: Wire)
    requires ActionOf(w) in Delivered(msgs)
    ensures exists m :: m in msgs && Brings(m, w)
  {
    var init, last := msgs[..|msgs| - 1], msgs[|msgs| - 1];
    if ActionOf(w) in Delivered(init) {
      DeliveredBy(init, w);
    } else {
      assert last in msgs && Brings(last, w);
    }
  }

  ghost predicate IsRun(wires: seq<Wire>, lo: nat, hi: nat) {
    lo <= hi <= |wires| && forall k :: lo <= k < hi ==> wires[k].WireUpsert?
  }

  /** A bundle message carries one run of upserts, each path with its last stamp in the run. */
  ghost predicate CarriesRun(m: Msg, wires: seq<Wire>) {
    m.Upserts? ==> exists lo: nat, hi: nat :: lo < hi && IsRun(wires, lo, hi) && IsBundleOf(m, wires[lo..hi])
  }

  ghost predicate IsBundleOf(m: Msg, run: seq<Wire>)
    requires m.Upserts? && forall k :: 0 <= k < |run| ==> run[k].WireUpsert?
  {
    m.paths == UpsertPaths(run) && m.stamps == LastStamps(run)
  }

  method Messages(wires: seq<Wire>) returns (msgs: seq<Msg>)
    ensures Delivered(msgs) == Actions(wires) && AllCarry(msgs, wires)
    ensures forall w :: w in wires ==> exists m :: m in msgs && Brings(m, w)
  {
    msgs := [];
    var run: seq<Path> := [];
    var stamps: map<Path, nat> := map[];
    ghost var lo := 0;
    for i := 0 to |wires|
      invariant Delivered(msgs) + Puts(run) == Actions(wires[..i])
      invariant AllCarry(msgs, wires)
      invariant IsRun(wires, lo, i) && run == UpsertPaths(wires[lo..i]) && stamps == LastStamps(wires[lo..i])
    {
      ActionsSnoc(wires, i);
      if wires[i].WireUpsert? {
        RunGrows(wires, lo, i);
        run, stamps := run + [wires[i].path], stamps[wires[i].path := wires[i].actionMs];
      } else {
        msgs := FlushRun(msgs, run, stamps, wires, lo, i);
        var msg := SingleMessage(wires[i]);
        DeliveredSnoc(msgs, msg);
        msgs := msgs + [msg];
        run, stamps, lo := [], map[], i + 1;
      }
    }
    assert wires[..|wires|] == wires;
    msgs := FlushRun(msgs, run, stamps, wires, lo, |wires|);
    forall w | w in wires
      ensures exists m :: m in msgs && Brings(m, w)
    {
      var k :| 0 <= k < |wires| && wires[k] == w;
      assert Actions(wires)[k] == ActionOf(w);
      DeliveredBy(msgs, w);
    }
  }

  ghost predicate AllCarry(msgs: seq<Msg>, wires: seq<Wire>) {
    forall m :: m in msgs ==> !m.ActionBatchEnd? && CarriesRun(m, wires)
  }

  function SingleMessage(w: Wire): (m: Msg)
    requires !w.WireUpsert?
    ensures Delivered([m]) == [ActionOf(w)] && !m.Upserts? && !m.ActionBatchEnd?
  {
    match w
    case WireRename(from, to, at) => RenameMsg(from, to, at)
    case WireDelete(path, at) => DeleteMsg(path, at)
  }

  lemma ActionsSnoc(wires: seq<Wire>, i: nat)
    requires i < |wires|
    ensures Actions(wires[..i + 1]) == Actions(wires[..i]) + [ActionOf(wires[i])]
  {
  }

  lemma RunGrows(wires: seq<Wire>, lo: nat, i: nat)
    requires IsRun(wires, lo, i) && i < |wires| && wires[i].WireUpsert?
    ensures IsRun(wires, lo, i + 1)
    ensures UpsertPaths(wires[lo..i + 1]) == UpsertPaths(wires[lo..i]) + [wires[i].path]
    ensures LastStamps(wires[lo..i + 1]) == LastStamps(wires[lo..i])[wires[i].path := wires[i].actionMs]
    ensures Puts(UpsertPaths(wires[lo..i + 1])) == Puts(UpsertPaths(wires[lo..i])) + [ActionOf(wires[i])]
  {
    assert wires[lo..i + 1][..i - lo] == wires[lo..i];
  }

  /** An empty run sends nothing. */
  method FlushRun(msgs: seq<Msg>, run: seq<Path>, stamps: map<Path, nat>, ghost wires: seq<Wire>, ghost lo: nat, ghost hi: nat)
    returns (out: seq<Msg>)
    requires AllCarry(msgs, wires)
    requires IsRun(wires, lo, hi) && run == UpsertPaths(wires[lo..hi]) && stamps == LastStamps(wires[lo..hi])
    ensures Delivered(out) == Delivered(msgs) + Puts(run) && AllCarry(out, wires)
  {
    out := msgs;
    if run != [] {
      DeliveredSnoc(msgs, Upserts(run, stamps));
      assert IsBundleOf(Upserts(run, stamps), wires[lo..hi]);
      out := msgs + [Upserts(run, stamps)];
    }
  }

  // ---- Chunks ----

  /** The wires of a chunk, in journal order. */
  function Wires(env: Surroundings, lo: nat, hi: nat): seq<Wire>
    decreases hi - lo
  {
    if hi <= lo then []
    else Wires(env, lo, hi - 1) + match env.decide(lo, hi - 1) case Send(w) => [w] case _ => []
  }

  /** No entry of the chunk was judged unstable, and the chunk respects both limits. */
  ghost predicate Sound(env: Surroundings, lo: nat, hi: nat) {
    && lo <= hi <= lo + DRAIN_CHUNK_MAX_ENTRIES
    && (forall k :: lo <= k < hi ==> !env.decide(lo, k).Stop?)
    && (hi > lo + 1 ==> Bytes(env, lo, hi) <= Bundler.BUNDLE_MAX_BYTES)
  }

  /** The chunk could not have taken one more entry. */
  ghost predicate Full(env: Surroundings, n: nat, lo: nat, hi: nat) {
    || hi == n
    || hi == lo + DRAIN_CHUNK_MAX_ENTRIES
    || (hi > lo && Bytes(env, lo, hi) + env.size(lo, hi) > Bundler.BUNDLE_MAX_BYTES)
    || env.decide(lo, hi).Stop?
  }

  /** How many of the entries from `lo` on are sent. */
  function SentBefore(env: Surroundings, lo: nat, k: nat): nat
    decreases k - lo
  {
    if k <= lo then 0 else SentBefore(env, lo, k - 1) + if env.decide(lo, k - 1).Send? then 1 else 0
  }

  /** Each entry that was decided to be sent has its place among the wires, in journal order, and there is nothing else. */
  lemma {:induction false} WiresInOrder(env: Surroundings, lo: nat, hi: nat, k: nat)
    requires lo <= k < hi
    ensures |Wires(env, lo, hi)| == SentBefore(env, lo, hi)
    ensures env.decide(lo, k).Send? ==>
              SentBefore(env, lo, k) < |Wires(env, lo, hi)| && Wires(env, lo, hi)[SentBefore(env, lo, k)] == env.decide(lo, k).wire
    decreases hi - lo
  {
    if hi > lo + 1 {
      WiresInOrder(env, lo, hi - 1, if k < hi - 1 then k else lo);
    } else {
      assert Wires(env, lo, lo) == [];
    }
  }

  lemma {:induction false} BytesCount(env: Surroundings, lo: nat, hi: nat, k: nat)
    requires lo <= k < hi
    ensures Bytes(env, lo, hi) >= env.size(lo, k)
    decreases hi - lo
  {
    if k < hi - 1 {
      BytesCount(env, lo, hi - 1, k);
    }
  }

  /** Any two entries of a chunk fit within the byte limit together. */
  lemma {:induction false} EntriesFitTogether(env: Surroundings, lo: nat, hi: nat, k: nat, l: nat)
    requires lo <= k < l < hi
    ensures Bytes(env, lo, hi) >= env.size(lo, k) + env.size(lo, l)
    ensures Sound(env, lo, hi) ==> env.size(lo, k) + env.size(lo, l) <= Bundler.BUNDLE_MAX_BYTES
    decreases hi - lo
  {
    if l < hi - 1 {
      EntriesFitTogether(env, lo, hi - 1, k, l);
    } else {
      BytesCount(env, lo, hi - 1, k);
    }
  }

  /** Collect one chunk from `lo`; `stop` when it ended at a file still being written. */
  method CollectChunk(env: Surroundings, n: nat, lo: nat) returns (hi: nat, wires: seq<Wire>, stop: bool)
    requires lo < n
    ensures lo <= hi <= n && Sound(env, lo, hi) && Full(env, n, lo, hi)
    ensures wires == Wires(env, lo, hi)
    ensures stop ==> hi < n && env.decide(lo, hi).Stop?
    ensures !stop ==> lo < hi
  {
    var i, count, bytes := lo, 0, 0;
    wires, stop := [], false;
    while i < n && count < DRAIN_CHUNK_MAX_ENTRIES
      invariant lo <= i <= n && count == i - lo && Sound(env, lo, i)
      invariant bytes == Bytes(env, lo, i) && wires == Wires(env, lo, i) && !stop
    {
      var size := env.size(lo, i);
      if count > 0 && bytes + size > Bundler.BUNDLE_MAX_BYTES {
        break;
      }
      match env.decide(lo, i) {
        case Send(wire) => wires := wires + [wire];
        case Settled =>
        case Stop =>
          stop := true;
          break;
      }
      count, bytes, i := count + 1, bytes + size, i + 1;
    }
    hi := i;
  }

  /** A non-empty run of the snapshot, as full as the limits allow, sent in order and closed. */
  ghost predicate ChunkOk(env: Surroundings, snap: seq<Entry>, c: Chunk) {
    && c.lo < c.hi <= |snap|
    && Sound(env, c.lo, c.hi) && Full(env, |snap|, c.lo, c.hi) && Complete(env, snap, c)
  }

  /** Each chunk starts where the one before it ended. */
  ghost predicate Contiguous(chunks: seq<Chunk>) {
    && (chunks != [] ==> chunks[0].lo == 0)
    && forall c, d :: 0 <= c < d < |chunks| && d == c + 1 ==> chunks[d].lo == chunks[c].hi
  }

  /** Chunks of a pass: contiguous from the start of the snapshot, each acknowledged whole before the next. */
  ghost predicate Partition(env: Surroundings, snap: seq<Entry>, chunks: seq<Chunk>) {
    && (forall c :: 0 <= c < |chunks| ==> ChunkOk(env, snap, chunks[c]))
    && Contiguous(chunks)
    && (forall c :: 0 <= c < |chunks| - 1 ==> chunks[c].acked == Some(Last(snap, chunks[c])))
  }

  function Last(snap: seq<Entry>, c: Chunk): nat
    requires 0 < c.hi <= |snap|
  {
    snap[c.hi - 1].seqNo
  }

  /** A chunk's messages deliver its admitted actions in journal order and close with its last number. */
  ghost predicate Complete(env: Surroundings, snap: seq<Entry>, c: Chunk)
    requires c.lo < c.hi <= |snap|
  {
    && Delivers(c.sent, Wires(env, c.lo, c.hi), Last(snap, c)) && c.meanwhile == env.meanwhile(c.lo)
    && (c.acked.Some? ==> c.acked.value <= Last(snap, c))
  }

  /** `sent` carries the wires in order, each run of upserts with its last stamps, and closes with `upto`. */
  ghost predicate Delivers(sent: seq<Msg>, wires: seq<Wire>, upto: nat) {
    && sent != [] && sent[|sent| - 1] == ActionBatchEnd(upto) && Delivered(sent) == Actions(wires)
    && forall m :: m in sent[..|sent| - 1] ==> CarriesRun(m, wires)
  }

  function RecordAll(st: JournalState, rs: seq<Recorded>): JournalState {
    if rs == [] then st
    else
      var before, r := RecordAll(st, rs[..|rs| - 1]), rs[|rs| - 1];
      ApplyEntry(before, Entry(before.nextSeq, r.op, r.path, r.actionMs))
  }

  /** What one chunk does to the journal: actions recorded meanwhile, then the acknowledgement. */
  function Answered(st: JournalState, meanwhile: seq<Recorded>, acked: Option<nat>): JournalState {
    var grown := RecordAll(st, meanwhile);
    if acked.Some? then AckLocal(grown, acked.value) else grown
  }

  function AfterChunk(st: JournalState, c: Chunk): JournalState {
    Answered(st, c.meanwhile, c.acked)
  }

  function AfterAll(st: JournalState, chunks: seq<Chunk>): JournalState {
    if chunks == [] then st else AfterChunk(AfterAll(st, chunks[..|chunks| - 1]), chunks[|chunks| - 1])
  }

  datatype Outcome = Finished | StoppedUnstable | ShortAck | Broken

  function NextStart(chunks: seq<Chunk>): nat {
    if chunks == [] then 0 else chunks[|chunks| - 1].hi
  }

  /** What a pass has sent so far, and what that did to the journal. */
  ghost predicate Progress(env: Surroundings, was: JournalState, snap: seq<Entry>, chunks: seq<Chunk>, now: JournalState) {
    Partition(env, snap, chunks) && now == AfterAll(was, chunks)
  }

  lemma ProgressSnoc(env: Surroundings, was: JournalState, snap: seq<Entry>, chunks: seq<Chunk>, now: JournalState, chunk: Chunk)
    requires Progress(env, was, snap, chunks, now) && LastIsWhole(snap, chunks)
    requires chunk.lo == NextStart(chunks) && ChunkOk(env, snap, chunk)
    ensures Progress(env, was, snap, chunks + [chunk], AfterChunk(now, chunk))
  {
    PartitionSnoc(env, snap, chunks, chunk);
    assert (chunks + [chunk])[..|chunks|] == chunks;
  }

  /** Collect and deliver the next chunk; a pass that cannot go on says why. */
  method NextChunk(journal: ActionJournal, env: Surroundings, snap: seq<Entry>, chunks: seq<Chunk>, ghost was: JournalState)
    returns (more: seq<Chunk>, outcome: Option<Outcome>)
    requires journal.Valid() && NextStart(chunks) < |snap|
    requires Progress(env, was, snap, chunks, journal.State()) && LastIsWhole(snap, chunks)
    modifies journal
    ensures journal.Valid() && Progress(env, was, snap, more, journal.State()) && outcome != Some(Finished)
    ensures outcome.None? ==> LastIsWhole(snap, more) && NextStart(chunks) < NextStart(more) <= |snap|
    ensures outcome == Some(ShortAck) ==> more != [] && EndsShort(snap, more[|more| - 1])
    ensures outcome == Some(Broken) ==> more != [] && more[|more| - 1].acked.None?
  {
    var i := NextStart(chunks);
    var hi, wires, stop := CollectChunk(env, |snap|, i);
    more := chunks;
    if hi > i {
      ghost var before := journal.State();
      var chunk := Deliver(journal, env, snap, i, hi, wires);
      ProgressSnoc(env, was, snap, chunks, before, chunk);
      more := chunks + [chunk];
      if chunk.acked.None? {
        return more, Some(Broken);
      }
      if chunk.acked.value < Last(snap, chunk) {
        return more, Some(ShortAck);
      }
    }
    outcome := if stop then Some(StoppedUnstable) else None;
  }

  /** The last acknowledgement fell short of the chunk. */
  ghost predicate EndsShort(snap: seq<Entry>, c: Chunk) {
    0 < c.hi <= |snap| && c.acked.Some? && c.acked.value < Last(snap, c)
  }

  /**
   One pass over the journal. It ends after the last entry, at an unstable file, at an ack short of
   the chunk's end, or with the connection. Actions recorded meanwhile are never acknowledged by it.
   */
  method DrainActionJournal(journal: ActionJournal, env: Surroundings)
    returns (snap: seq<Entry>, chunks: seq<Chunk>, outcome: Outcome)
    requires journal.Valid()
    modifies journal
    ensures journal.Valid() && Listing(snap, old(journal.entries))
    ensures Partition(env, snap, chunks) && journal.State() == AfterAll(old(journal.State()), chunks)
    ensures journal.acked < old(journal.nextSeq)
    ensures outcome.Finished? ==> NextStart(chunks) == |snap| && LastIsWhole(snap, chunks)
    ensures outcome.Finished? ==> forall s :: s in journal.entries ==> s >= old(journal.nextSeq)
    ensures outcome.ShortAck? ==> chunks != [] && EndsShort(snap, chunks[|chunks| - 1])
    ensures outcome.Broken? ==> chunks != [] && chunks[|chunks| - 1].acked.None?
  {
    snap := journal.Snapshot();
    ghost var was := journal.State();
    chunks := [];
    while NextStart(chunks) < |snap|
      invariant journal.Valid() && Progress(env, was, snap, chunks, journal.State())
      invariant LastIsWhole(snap, chunks) && NextStart(chunks) <= |snap| && journal.acked < was.nextSeq
      decreases |snap| - NextStart(chunks)
    {
      var stopped;
      chunks, stopped := NextChunk(journal, env, snap, chunks, was);
      SnapshotBelow(env, was, snap, chunks);
      AcksStayBelow(was, chunks);
      if stopped.Some? {
        return snap, chunks, stopped.value;
      }
    }
    outcome := Finished;
    forall s | s in journal.entries
      ensures s >= was.nextSeq
    {
      FinishedLeavesLater(was, snap, chunks, s);
    }
  }

  /** Send one chunk, close it, and take the ack; actions may be recorded in between. */
  method Deliver(journal: ActionJournal, env: Surroundings, snap: seq<Entry>, lo: nat, hi: nat, wires: seq<Wire>)
    returns (chunk: Chunk)
    requires journal.Valid() && lo < hi <= |snap| && wires == Wires(env, lo, hi)
    modifies journal
    ensures journal.Valid() && chunk.lo == lo && chunk.hi == hi && Complete(env, snap, chunk)
    ensures journal.State() == AfterChunk(old(journal.State()), chunk)
  {
    var upto := snap[hi - 1].seqNo;
    var sent := Closed(wires, upto);
    var acked := Await(journal, env.meanwhile(lo), env.ack(lo), upto);
    chunk := Chunk(lo, hi, sent, env.meanwhile(lo), acked);
    MakesChunk(env, snap, chunk);
  }

  lemma MakesChunk(env: Surroundings, snap: seq<Entry>, c: Chunk)
    requires c.lo < c.hi <= |snap| && Delivers(c.sent, Wires(env, c.lo, c.hi), Last(snap, c))
    requires c.meanwhile == env.meanwhile(c.lo) && (c.acked.Some? ==> c.acked.value <= Last(snap, c))
    ensures Complete(env, snap, c)
  {
  }

  /** Wait for the answer while actions are recorded; the ack is clamped to the chunk's end. */
  method Await(journal: ActionJournal, meanwhile: seq<Recorded>, answer: Option<nat>, upto: nat) returns (acked: Option<nat>)
    requires journal.Valid()
    modifies journal
    ensures journal.Valid() && (acked.Some? <==> answer.Some?) && (acked.Some? ==> acked.value <= upto)
    ensures acked.Some? ==> acked.value == if answer.value < upto then answer.value else upto
    ensures journal.State() == Answered(old(journal.State()), meanwhile, acked)
  {
    RecordMeanwhile(journal, meanwhile);
    acked := None;
    if answer.Some? {
      acked := Some(if answer.value < upto then answer.value else upto);
      journal.Ack(acked.value);
    }
  }

  method Closed(wires: seq<Wire>, upto: nat) returns (sent: seq<Msg>)
    ensures Delivers(sent, wires, upto)
  {
    var msgs := Messages(wires);
    DeliveredSnoc(msgs, ActionBatchEnd(upto));
    assert Delivered([ActionBatchEnd(upto)]) == [];
    sent := msgs + [ActionBatchEnd(upto)];
  }

  method RecordMeanwhile(journal: ActionJournal, rs: seq<Recorded>)
    requires journal.Valid()
    modifies journal
    ensures journal.Valid() && journal.State() == RecordAll(old(journal.State()), rs)
  {
    for i := 0 to |rs|
      invariant journal.Valid() && journal.State() == RecordAll(old(journal.State()), rs[..i])
    {
      assert rs[..i + 1][..i] == rs[..i];
      journal.Append(rs[i].op, rs[i].path, rs[i].actionMs);
    }
    assert rs[..|rs|] == rs;
  }

  ghost predicate LastIsWhole(snap: seq<Entry>, chunks: seq<Chunk>) {
    chunks != [] ==>
      0 < chunks[|chunks| - 1].hi <= |snap| && chunks[|chunks| - 1].acked == Some(Last(snap, chunks[|chunks| - 1]))
  }

  lemma ContiguousSnoc(chunks: seq<Chunk>, chunk: Chunk)
    requires Contiguous(chunks) && chunk.lo == NextStart(chunks)
    ensures Contiguous(chunks + [chunk])
  {
  }

  lemma PartitionSnoc(env: Surroundings, snap: seq<Entry>, chunks: seq<Chunk>, chunk: Chunk)
    requires Partition(env, snap, chunks) && LastIsWhole(snap, chunks)
    requires chunk.lo == NextStart(chunks) && ChunkOk(env, snap, chunk)
    ensures Partition(env, snap, chunks + [chunk])
  {
    var more := chunks + [chunk];
    ContiguousSnoc(chunks, chunk);
    forall c | 0 <= c < |more|
      ensures ChunkOk(env, snap, more[c])
    {
      assert more[c] == if c < |chunks| then chunks[c] else chunk;
    }
    forall c | 0 <= c < |more| - 1
      ensures more[c].acked == Some(Last(snap, more[c]))
    {
      assert more[c] == chunks[c] && ChunkOk(env, snap, chunks[c]);
    }
  }

  lemma {:induction false} RecordAllGrows(st: JournalState, rs: seq<Recorded>)
    ensures RecordAll(st, rs).acked == st.acked && RecordAll(st, rs).nextSeq >= st.nextSeq
    ensures forall s :: s in RecordAll(st, rs).entries ==> s in st.entries || s >= st.nextSeq
  {
    if rs != [] {
      RecordAllGrows(st, rs[..|rs| - 1]);
    }
  }

  /** What is left after the chunks was pending before or recorded meanwhile, and lies above the last acknowledgement. */
  lemma {:induction false} AfterAllShrinks(st: JournalState, chunks: seq<Chunk>, s: nat)
    requires s in AfterAll(st, chunks).entries
    ensures s in st.entries || s >= st.nextSeq
    ensures chunks != [] && chunks[|chunks| - 1].acked.Some? ==> s > chunks[|chunks| - 1].acked.value
    ensures AfterAll(st, chunks).nextSeq >= st.nextSeq
  {
    if chunks != [] {
      var init, c := chunks[..|chunks| - 1], chunks[|chunks| - 1];
      var before := AfterAll(st, init);
      RecordAllGrows(before, c.meanwhile);
      NextSeqGrows(st, init);
      if s in before.entries {
        AfterAllShrinks(st, init, s);
      }
    }
  }

  lemma {:induction false} NextSeqGrows(st: JournalState, chunks: seq<Chunk>)
    ensures AfterAll(st, chunks).nextSeq >= st.nextSeq
  {
    if chunks != [] {
      NextSeqGrows(st, chunks[..|chunks| - 1]);
      RecordAllGrows(AfterAll(st, chunks[..|chunks| - 1]), chunks[|chunks| - 1].meanwhile);
    }
  }

  /** No acknowledgement of the pass reaches a number given out after its snapshot. */
  lemma {:induction false} AcksStayBelow(st: JournalState, chunks: seq<Chunk>)
    requires st.Valid() && forall c :: c in chunks && c.acked.Some? ==> c.acked.value < st.nextSeq
    ensures AfterAll(st, chunks).acked < st.nextSeq
  {
    if chunks != [] {
      AcksStayBelow(st, chunks[..|chunks| - 1]);
      RecordAllGrows(AfterAll(st, chunks[..|chunks| - 1]), chunks[|chunks| - 1].meanwhile);
    }
  }

  lemma LastIsGreatest(st: JournalState, snap: seq<Entry>, s: nat)
    requires Listing(snap, st.entries) && st.Valid() && s in st.entries
    ensures snap != [] && s <= snap[|snap| - 1].seqNo
  {
    assert st.entries[s] in snap;
  }

  /** A pass that runs to the end leaves only what was recorded while it ran. */
  lemma FinishedLeavesLater(st: JournalState, snap: seq<Entry>, chunks: seq<Chunk>, s: nat)
    requires Listing(snap, st.entries) && st.Valid() && LastIsWhole(snap, chunks) && NextStart(chunks) == |snap|
    requires s in AfterAll(st, chunks).entries
    ensures s >= st.nextSeq
  {
    AfterAllShrinks(st, chunks, s);
    if s in st.entries {
      LastIsGreatest(st, snap, s);
    }
  }

  lemma SnapshotBelow(env: Surroundings, st: JournalState, snap: seq<Entry>, chunks: seq<Chunk>)
    requires Listing(snap, st.entries) && st.Valid() && Partition(env, snap, chunks)
    ensures forall c :: c in chunks && c.acked.Some? ==> c.acked.value < st.nextSeq
  {
    forall c | c in chunks && c.acked.Some?
      ensures c.acked.value < st.nextSeq
    {
      var k :| 0 <= k < |chunks| && chunks[k] == c;
      assert ChunkOk(env, snap, chunks[k]);
      assert snap[c.hi - 1].seqNo in st.entries;
    }
  }

  /** The chunks of a pass cover a prefix of the snapshot, each entry in exactly one chunk, in order. */
  lemma ChunksCoverPrefix(env: Surroundings, snap: seq<Entry>, chunks: seq<Chunk>, k: nat) returns (c: nat)
    requires Partition(env, snap, chunks) && chunks != [] && k < chunks[|chunks| - 1].hi
    ensures c < |chunks| && chunks[c].lo <= k < chunks[c].hi
    ensures forall d :: 0 <= d < |chunks| && chunks[d].lo <= k < chunks[d].hi ==> d == c
    ensures Bytes(env, chunks[c].lo, chunks[c].hi) > Bundler.BUNDLE_MAX_BYTES ==> chunks[c].hi == chunks[c].lo + 1
  {
    assert forall c :: 0 <= c < |chunks| ==> ChunkOk(env, snap, chunks[c]);
    c := RunsCover(chunks, k, |chunks| - 1);
  }

  lemma {:induction false} RunsCover(chunks: seq<Chunk>, k: nat, n: nat) returns (c: nat)
    requires Contiguous(chunks) && (forall c :: 0 <= c < |chunks| ==> chunks[c].lo < chunks[c].hi)
    requires n < |chunks| && k < chunks[n].hi
    ensures c <= n && chunks[c].lo <= k < chunks[c].hi
    ensures forall d :: 0 <= d < |chunks| && chunks[d].lo <= k < chunks[d].hi ==> d == c
  {
    if k >= chunks[n].lo {
      c := n;
      forall d | 0 <= d < |chunks| && d != n
        ensures !(chunks[d].lo <= k < chunks[d].hi)
      {
        if d < n {
          RunsAscend(chunks, d, n);
        } else {
          RunsAscend(chunks, n, d);
        }
      }
    } else {
      assert n > 0;
      c := RunsCover(chunks, k, n - 1);
    }
  }

  lemma {:induction false} RunsAscend(chunks: seq<Chunk>, d: nat, n: nat)
    requires Contiguous(chunks) && (forall c :: 0 <= c < |chunks| ==> chunks[c].lo < chunks[c].hi)
    requires d < n < |chunks|
    ensures chunks[d].hi <= chunks[n].lo
  {
    assert chunks[n].lo == chunks[n - 1].hi;
    if d + 1 < n {
      RunsAscend(chunks, d, n - 1);
    }
  }
}
