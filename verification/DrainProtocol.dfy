/**
 Delivery of the journal as a protocol: a client that drains it in chunks, a wire, and a server
 that acknowledges prefixes. Recording, failures, disconnects and restarts interleave freely.
 */
module DrainProtocol {
  import opened Paths
  import opened Journals
  import opened JournalCompaction
  import JournalRecovery

  /** `Action(seqs)` is one message carrying (part of) the listed entries; `BatchEnd` closes a chunk. */
  datatype Packet = Action(seqs: set<nat>) | BatchEnd(upto: nat)

  /** Where the client is in its pass over a snapshot of the journal. */
  datatype Pass =
    | Idle
    | Draining(snap: seq<Entry>, next: nat)
    | Awaiting(snap: seq<Entry>, lo: nat, hi: nat)

  /** One connection phase: the client's pass, both directions of the wire, and the server's loop variables. */
  datatype Link =
    | Down
    | Up(pass: Pass, toServer: seq<Packet>, toClient: seq<nat>, lastAcked: nat, chunkFailed: bool, chunkSeen: set<nat>)

  /**
   `settled` entries were resolved by the client alone, `handled` ones belonged to a chunk whose
   messages the server all handled, `superseded` ones left the pending set when an action was recorded or
   the file replayed. `recorded` holds every action ever recorded; `shrunk` tells that some restart found
   less in the file than memory had held.
   */
  datatype Config = Config(
    st: JournalState, file: seq<Line>, recorded: Entries, shrunk: bool, link: Link,
    settled: set<nat>, handled: set<nat>, superseded: set<nat>)
  {
    predicate Accounted(s: nat) {
      s in settled || s in handled || s in superseded
    }
  }

  const START := Config(FRESH, [], map[], false, Down, {}, {}, {})

  datatype Step =
    | Record(op: Op, path: Path, actionMs: nat)
    | Compact(listing: seq<Entry>)
    | Restart
    | Connect
    | Disconnect
    | NextPhase
    | StartPass(snapshot: seq<Entry>)
    | SendChunk(upTo: nat, locally: set<nat>, messages: seq<set<nat>>)
    | EndPass
    | ServerAction(ok: bool)
    | ServerBatchEnd
    | ClientAck

  function Numbers(es: seq<Entry>): set<nat> {
    set k | 0 <= k < |es| :: es[k].seqNo
  }

  function Union(messages: seq<set<nat>>): set<nat> {
    if messages == [] then {} else messages[0] + Union(messages[1..])
  }

  function Packets(messages: seq<set<nat>>): seq<Packet> {
    if messages == [] then [] else [Action(messages[0])] + Packets(messages[1..])
  }

  function Min(a: nat, b: nat): nat {
    if a < b then a else b
  }

  ghost predicate Enabled(c: Config, step: Step) {
    match step
    case Record(_, _, _) => true
    case Compact(listing) => Listing(listing, c.st.entries)
    case Restart => c.link.Down?
    case Connect => c.link.Down?
    case Disconnect => c.link.Up?
    case NextPhase => c.link.Up? && c.link.pass.Idle?
    case StartPass(snapshot) => c.link.Up? && c.link.pass.Idle? && Listing(snapshot, c.st.entries)
    case SendChunk(upTo, locally, messages) =>
      // Every entry of the chunk is either settled by the client or travels in some message.
      && c.link.Up? && c.link.pass.Draining? && c.link.pass.next < upTo <= |c.link.pass.snap|
      && locally + Union(messages) == Numbers(c.link.pass.snap[c.link.pass.next..upTo])
    case EndPass => c.link.Up? && c.link.pass.Draining?
    case ServerAction(_) => c.link.Up? && c.link.toServer != [] && c.link.toServer[0].Action?
    case ServerBatchEnd => c.link.Up? && c.link.toServer != [] && c.link.toServer[0].BatchEnd?
    case ClientAck => c.link.Up? && c.link.pass.Awaiting? && c.link.toClient != [] && 0 < c.link.pass.hi <= |c.link.pass.snap|
  }

  /** Numbers coalesced away between two pending sets. */
  function Gone(before: Entries, after: Entries): set<nat> {
    before.Keys - after.Keys
  }

  ghost function Take(c: Config, step: Step): Config
    requires Enabled(c, step)
  {
    match step
    case Record(op, path, at) =>
      var e := Entry(c.st.nextSeq, op, path, at);
      var st := ApplyEntry(c.st, e);
      c.(st := st, file := c.file + [ToLine(e)], recorded := c.recorded[e.seqNo := e],
         superseded := c.superseded + Gone(c.st.entries, st.entries))
    case Compact(listing) => c.(file := Compacted(c.st.acked, listing))
    case Restart =>
      var st := Replay(c.file);
      c.(st := st, shrunk := c.shrunk || st != c.st, superseded := c.superseded + Gone(c.st.entries, st.entries))
    case Connect => c.(link := Up(Idle, [], [], 0, false, {}))
    case Disconnect => c.(link := Down)
    case NextPhase => c.(link := Up(Idle, [], [], 0, false, {}))
    case StartPass(snapshot) => c.(link := c.link.(pass := Draining(snapshot, 0)))
    case SendChunk(upTo, locally, messages) =>
      var p := c.link.pass;
      c.(link := c.link.(
           pass := Awaiting(p.snap, p.next, upTo),
           toServer := c.link.toServer + Packets(messages) + [BatchEnd(p.snap[upTo - 1].seqNo)]),
         settled := c.settled + locally)
    case EndPass => c.(link := c.link.(pass := Idle))
    case ServerAction(ok) =>
      c.(link := c.link.(
           toServer := c.link.toServer[1..],
           chunkFailed := c.link.chunkFailed || !ok,
           chunkSeen := c.link.chunkSeen + c.link.toServer[0].seqs))
    case ServerBatchEnd =>
      var upto := c.link.toServer[0].upto;
      var ack := if c.link.chunkFailed || upto < c.link.lastAcked then c.link.lastAcked else upto;
      c.(link := c.link.(
           toServer := c.link.toServer[1..], toClient := c.link.toClient + [ack],
           lastAcked := ack, chunkFailed := false, chunkSeen := {}),
         handled := if c.link.chunkFailed then c.handled else c.handled + c.link.chunkSeen)
    case ClientAck =>
      var p := c.link.pass;
      var upto := p.snap[p.hi - 1].seqNo;
      var acked := Min(c.link.toClient[0], upto);
      c.(st := AckLocal(c.st, acked),
         file := if acked <= c.st.acked then c.file else c.file + [AckLine(acked)],
         link := c.link.(
           toClient := c.link.toClient[1..],
           pass := if acked < upto then Idle else Draining(p.snap, p.hi)))
  }

  // ---- The invariant ----

  /** Every number given out so far is pending or accounted for; acknowledged ones are accounted for. */
  ghost predicate Ledgered(c: Config) {
    && c.st.Valid()
    && (forall s :: 1 <= s < c.st.nextSeq ==> s in c.st.entries || s in c.settled || s in c.handled || s in c.superseded)
    && (forall s :: s in c.st.entries ==> s !in c.superseded)
    && (forall s :: s in c.superseded ==> s < c.st.nextSeq)
  }

  /** What the snapshot still says about the live journal while other actions are recorded. */
  ghost predicate SnapshotFits(st: JournalState, snap: seq<Entry>, next: nat) {
    && Ascending(snap) && next <= |snap|
    && (forall k :: 0 <= k < |snap| ==> snap[k].seqNo < st.nextSeq)
    && (forall k :: 0 <= k < next ==> snap[k].seqNo <= st.acked)
    && (forall s, k :: s in st.entries && 0 <= k < |snap| && s <= snap[k].seqNo ==> s in Numbers(snap))
  }

  /** The chunk in flight: on its way with its end marker last, or answered by exactly one ack. */
  ghost predicate ChunkFits(c: Config)
    requires c.link.Up? && c.link.pass.Awaiting?
  {
    var l, p := c.link, c.link.pass;
    && p.lo < p.hi <= |p.snap| && SnapshotFits(c.st, p.snap, p.lo)
    && if l.toServer != [] then
         && l.toClient == []
         && l.toServer[|l.toServer| - 1] == BatchEnd(p.snap[p.hi - 1].seqNo)
         && (forall k :: 0 <= k < |l.toServer| - 1 ==> l.toServer[k].Action?)
         && (forall s :: s in Numbers(p.snap[p.lo..p.hi]) ==>
               s in c.settled || s in l.chunkSeen || InFlight(l.toServer, s))
       else
         l.toClient == [l.lastAcked] && l.chunkSeen == {} && !l.chunkFailed
  }

  predicate InFlight(packets: seq<Packet>, s: nat) {
    exists k :: 0 <= k < |packets| && packets[k].Action? && s in packets[k].seqs
  }

  ghost predicate LinkFits(c: Config) {
    c.link.Up? ==>
      && c.link.lastAcked < c.st.nextSeq
      && (forall s :: 1 <= s <= c.link.lastAcked ==> s in c.settled || s in c.handled || s in c.superseded)
      && match c.link.pass
         case Idle => Quiet(c.link)
         case Draining(snap, next) => Quiet(c.link) && SnapshotFits(c.st, snap, next)
         case Awaiting(_, _, _) => ChunkFits(c)
  }

  predicate Quiet(l: Link)
    requires l.Up?
  {
    l.toServer == [] && l.toClient == [] && !l.chunkFailed && l.chunkSeen == {}
  }

  ghost predicate Inv(c: Config) {
    && Ledgered(c)
    && (forall s :: 1 <= s <= c.st.acked ==> s in c.settled || s in c.handled || s in c.superseded)
    && LinkFits(c)
  }

  // ---- Steps keep the invariant ----

  /** Pending sets only lose old numbers and gain fresh ones. */
  lemma SnapshotSurvives(a: JournalState, b: JournalState, snap: seq<Entry>, next: nat)
    requires SnapshotFits(a, snap, next) && a.nextSeq <= b.nextSeq && a.acked <= b.acked
    requires forall s :: s in b.entries ==> s in a.entries || s >= a.nextSeq
    ensures SnapshotFits(b, snap, next)
  {
  }

  lemma RecordKeepsInv(c: Config, step: Step)
    requires Inv(c) && step.Record?
    ensures Inv(Take(c, step))
  {
    var e := Entry(c.st.nextSeq, step.op, step.path, step.actionMs);
    var d := Take(c, step);
    forall s | s in d.st.entries && s != e.seqNo
      ensures s in c.st.entries && d.st.entries[s].seqNo == s
    {
      assert Leave(e, c.st.entries[s]).value.seqNo == c.st.entries[s].seqNo;
    }
    assert e.seqNo in d.st.entries;
    JournalGrows(c, d);
  }

  lemma ShrinkKeepsInv(c: Config, st: JournalState)
    requires Inv(c) && c.link.Down? && st.Valid() && st.acked == c.st.acked && st.nextSeq == c.st.nextSeq
    requires st.entries.Keys <= c.st.entries.Keys
    ensures forall shrunk :: Inv(c.(st := st, shrunk := shrunk, superseded := c.superseded + Gone(c.st.entries, st.entries)))
  {
  }

  /** Starting over from the file, whatever it was compacted and grown from. */
  lemma RestartKeepsInv(c: Config, step: Step)
    requires Inv(c) && Mirrors(c.file, c.st) && step.Restart? && Enabled(c, step)
    ensures Inv(Take(c, step))
  {
    ShrinkKeepsInv(c, Replay(c.file));
  }

  /** The file stays in step with the journal. */
  lemma StepKeepsFile(c: Config, step: Step)
    requires c.st.Valid() && Mirrors(c.file, c.st) && Enabled(c, step)
    ensures Mirrors(Take(c, step).file, Take(c, step).st)
  {
    match step
    case Record(op, path, at) => MirrorAppend(c.file, c.st, Entry(c.st.nextSeq, op, path, at));
    case Compact(listing) => MirrorCompacted(c.st, listing);
    case ClientAck => AckKeepsFile(c, Min(c.link.toClient[0], c.link.pass.snap[c.link.pass.hi - 1].seqNo));
    case _ =>
  }

  lemma AckKeepsFile(c: Config, acked: nat)
    requires c.st.Valid() && Mirrors(c.file, c.st)
    ensures Mirrors(if acked <= c.st.acked then c.file else c.file + [AckLine(acked)], AckLocal(c.st, acked))
  {
    if acked <= c.st.acked {
      AckBelowMark(c.st, acked);
    } else {
      MirrorAck(c.file, c.st, acked);
    }
  }

  /** Recording leaves the connection alone, and what was said about it stays true. */
  lemma JournalGrows(c: Config, d: Config)
    requires Inv(c) && d.link == c.link && d.settled == c.settled && d.handled == c.handled
    requires d.superseded == c.superseded + Gone(c.st.entries, d.st.entries)
    requires d.st.Valid() && d.st.acked == c.st.acked && d.st.nextSeq == c.st.nextSeq + 1
    requires forall s :: s in d.st.entries <==> s == c.st.nextSeq || (s in c.st.entries && s in d.st.entries)
    ensures Inv(d)
  {
    if c.link.Up? && !c.link.pass.Idle? {
      SnapshotSurvives(c.st, d.st, c.link.pass.snap, if c.link.pass.Draining? then c.link.pass.next else c.link.pass.lo);
    }
  }

  lemma {:induction false} UnionInFlight(messages: seq<set<nat>>, s: nat)
    requires s in Union(messages)
    ensures InFlight(Packets(messages), s)
  {
    if s in messages[0] {
      assert Packets(messages)[0].seqs == messages[0];
    } else {
      UnionInFlight(messages[1..], s);
      var k :| 0 <= k < |Packets(messages[1..])| && Packets(messages[1..])[k].Action? && s in Packets(messages[1..])[k].seqs;
      assert Packets(messages)[k + 1] == Packets(messages[1..])[k];
    }
  }

  lemma {:induction false} PacketsAreActions(messages: seq<set<nat>>)
    ensures forall k :: 0 <= k < |Packets(messages)| ==> Packets(messages)[k].Action?
  {
    if messages != [] {
      PacketsAreActions(messages[1..]);
    }
  }

  lemma SendKeepsInv(c: Config, step: Step)
    requires Inv(c) && step.SendChunk? && Enabled(c, step)
    ensures Inv(Take(c, step))
  {
    var d := Take(c, step);
    var packets := Packets(step.messages);
    PacketsAreActions(step.messages);
    assert d.link.toServer == packets + [BatchEnd(d.link.pass.snap[step.upTo - 1].seqNo)];
    forall s | s in Numbers(d.link.pass.snap[d.link.pass.lo..d.link.pass.hi])
      ensures s in d.settled || InFlight(d.link.toServer, s)
    {
      if s !in step.locally {
        UnionInFlight(step.messages, s);
        var k :| 0 <= k < |packets| && packets[k].Action? && s in packets[k].seqs;
        assert d.link.toServer[k] == packets[k];
      }
    }
  }

  lemma ServerActionKeepsInv(c: Config, step: Step)
    requires Inv(c) && step.ServerAction? && Enabled(c, step)
    ensures Inv(Take(c, step))
  {
    var d := Take(c, step);
    forall s | s in Numbers(c.link.pass.snap[c.link.pass.lo..c.link.pass.hi])
      ensures s in d.settled || s in d.link.chunkSeen || InFlight(d.link.toServer, s)
    {
      if s !in c.settled && s !in c.link.chunkSeen {
        var k :| 0 <= k < |c.link.toServer| && c.link.toServer[k].Action? && s in c.link.toServer[k].seqs;
        if k > 0 {
          assert d.link.toServer[k - 1] == c.link.toServer[k];
        }
      }
    }
  }

  /** Once the server has handled a whole chunk, everything up to its end is accounted for. */
  lemma ChunkAccounts(c: Config, d: Config, s: nat)
    requires Inv(c) && c.link.Up? && c.link.pass.Awaiting? && |c.link.toServer| == 1 && c.link.toServer[0].BatchEnd?
    requires !c.link.chunkFailed && d == Take(c, ServerBatchEnd)
    requires 1 <= s <= c.link.toServer[0].upto
    ensures d.Accounted(s)
  {
    var p := c.link.pass;
    if s in c.st.entries {
      assert s in Numbers(p.snap);
      var k :| 0 <= k < |p.snap| && p.snap[k].seqNo == s;
      if k >= p.lo {
        assert k < p.hi;
        assert p.snap[p.lo..p.hi][k - p.lo].seqNo == s;
        assert s in Numbers(p.snap[p.lo..p.hi]);
        assert !InFlight(c.link.toServer, s);
      }
    }
  }

  lemma ServerEndKeepsInv(c: Config, step: Step)
    requires Inv(c) && step.ServerBatchEnd? && Enabled(c, step)
    ensures Inv(Take(c, step))
  {
    var d := Take(c, step);
    assert |c.link.toServer| == 1;
    if !c.link.chunkFailed {
      forall s | 1 <= s <= c.link.toServer[0].upto
        ensures d.Accounted(s)
      {
        ChunkAccounts(c, d, s);
      }
    }
  }

  lemma AckKeepsLedgered(c: Config, d: Config, acked: nat)
    requires Ledgered(c) && acked < c.st.nextSeq
    requires forall s :: 1 <= s <= c.st.acked ==> s in c.settled || s in c.handled || s in c.superseded
    requires forall s :: 1 <= s <= acked ==> s in c.settled || s in c.handled || s in c.superseded
    requires d.st == AckLocal(c.st, acked) && d.settled == c.settled && d.handled == c.handled && d.superseded == c.superseded
    ensures Ledgered(d)
    ensures forall s :: 1 <= s <= d.st.acked ==> s in d.settled || s in d.handled || s in d.superseded
  {
    AckLocalValid(c.st, acked);
  }

  /** Where the client goes on after an ack: to the next chunk, or nowhere. */
  lemma AckKeepsLink(c: Config, d: Config, acked: nat)
    requires Inv(c) && Enabled(c, ClientAck) && d == Take(c, ClientAck)
    requires d.st == AckLocal(c.st, acked) && acked == Min(c.link.toClient[0], c.link.pass.snap[c.link.pass.hi - 1].seqNo)
    ensures LinkFits(d)
  {
    var p := c.link.pass;
    SnapshotSurvives(c.st, d.st, p.snap, p.lo);
    assert d.link.toClient == [] && d.link.toServer == [];
    if d.link.pass.Draining? {
      forall k | 0 <= k < p.hi
        ensures p.snap[k].seqNo <= d.st.acked
      {
      }
    }
  }

  lemma AckKeepsInv(c: Config, step: Step)
    requires Inv(c) && step.ClientAck? && Enabled(c, step)
    ensures Inv(Take(c, step))
  {
    var d := Take(c, step);
    var p := c.link.pass;
    var acked := Min(c.link.toClient[0], p.snap[p.hi - 1].seqNo);
    assert p.snap[p.hi - 1].seqNo < c.st.nextSeq;
    AckKeepsLedgered(c, d, acked);
    AckKeepsLink(c, d, acked);
  }

  /** Connecting, disconnecting, starting and ending a pass, and compaction. */
  lemma LinkKeepsInv(c: Config, step: Step)
    requires Inv(c) && Enabled(c, step)
    requires step.Compact? || step.Connect? || step.Disconnect? || step.NextPhase? || step.StartPass? || step.EndPass?
    ensures Inv(Take(c, step))
  {
  }

  lemma StepKeepsInv(c: Config, step: Step)
    requires Inv(c) && Mirrors(c.file, c.st) && Enabled(c, step)
    ensures Inv(Take(c, step)) && Mirrors(Take(c, step).file, Take(c, step).st)
  {
    StepKeepsFile(c, step);
    match step
    case Record(_, _, _) => RecordKeepsInv(c, step);
    case Restart => RestartKeepsInv(c, step);
    case SendChunk(_, _, _) => SendKeepsInv(c, step);
    case ServerAction(_) => ServerActionKeepsInv(c, step);
    case ServerBatchEnd => ServerEndKeepsInv(c, step);
    case ClientAck => AckKeepsInv(c, step);
    case _ => LinkKeepsInv(c, step);
  }

  // ---- What superseded means ----

  function JournalOf(c: Config): JournalRecovery.Journal {
    JournalRecovery.Journal(c.st, c.file, 0, c.recorded)
  }

  /** A later recorded action speaks for every path the action `s` was about, or, after a restart that lost something, took it away. */
  ghost predicate SpokenFor(c: Config, s: nat) {
    s in c.recorded &&
    forall q :: q in Mentions(c.recorded[s]) ==> JournalRecovery.SpokenForAfter(c.recorded, s, q, c.shrunk, c.st.nextSeq)
  }

  ghost predicate Told(c: Config) {
    && JournalRecovery.Kept(JournalOf(c))
    && JournalRecovery.NothingLost(c.st, c.recorded, c.shrunk)
    && forall s :: s in c.superseded ==> SpokenFor(c, s)
  }

  lemma SpokenStays(c: Config, d: Config, s: nat)
    requires SpokenFor(c, s) && JournalRecovery.Extends(d.recorded, c.recorded)
    requires c.st.nextSeq <= d.st.nextSeq && (c.shrunk ==> d.shrunk)
    ensures SpokenFor(d, s)
  {
    forall q | q in Mentions(d.recorded[s])
      ensures JournalRecovery.SpokenForAfter(d.recorded, s, q, d.shrunk, d.st.nextSeq)
    {
      JournalRecovery.SpokenGrows(c.recorded, d.recorded, s, q, c.shrunk, c.st.nextSeq, d.st.nextSeq);
    }
  }

  /** What left the pending set above the mark is spoken for. */
  lemma GoneIsSpoken(d: Config, s: nat)
    requires JournalRecovery.NothingLost(d.st, d.recorded, d.shrunk) && s in d.recorded && s > d.st.acked && s !in d.st.entries
    ensures SpokenFor(d, s)
  {
  }

  lemma SupersededTold(c: Config, d: Config)
    requires Told(c) && JournalRecovery.Extends(d.recorded, c.recorded)
    requires c.st.nextSeq <= d.st.nextSeq && (c.shrunk ==> d.shrunk) && c.st.acked == d.st.acked
    requires JournalRecovery.NothingLost(d.st, d.recorded, d.shrunk)
    requires d.superseded == c.superseded + Gone(c.st.entries, d.st.entries)
    ensures forall s :: s in d.superseded ==> SpokenFor(d, s)
  {
    forall s | s in d.superseded
      ensures SpokenFor(d, s)
    {
      if s in c.superseded {
        SpokenStays(c, d, s);
      } else {
        assert JournalRecovery.Stem(c.st.entries[s], c.recorded, c.st.nextSeq);
        GoneIsSpoken(d, s);
      }
    }
  }

  lemma RecordTells(c: Config, step: Step)
    requires Told(c) && step.Record?
    ensures Told(Take(c, step))
  {
    var d, e := Take(c, step), Entry(c.st.nextSeq, step.op, step.path, step.actionMs);
    JournalRecovery.StepKeeps(JournalOf(c), JournalRecovery.Append(step.op, step.path, step.actionMs));
    assert JournalOf(d) == JournalRecovery.DoAppend(JournalOf(c), step.op, step.path, step.actionMs);
    JournalRecovery.AppendLosesNothing(c.st, c.recorded, e, c.shrunk);
    SupersededTold(c, d);
  }

  lemma RestartTells(c: Config, step: Step)
    requires Told(c) && step.Restart? && Enabled(c, step)
    ensures Told(Take(c, step))
  {
    var d := Take(c, step);
    JournalRecovery.StepKeeps(JournalOf(c), JournalRecovery.Reopen);
    SupersededTold(c, d);
  }

  lemma CompactTells(c: Config, step: Step)
    requires Told(c) && step.Compact? && Enabled(c, step)
    ensures Told(Take(c, step))
  {
    var d := Take(c, step);
    JournalRecovery.StepKeeps(JournalOf(c), JournalRecovery.Compact(step.listing));
    forall s | s in d.superseded
      ensures SpokenFor(d, s)
    {
      SpokenStays(c, d, s);
    }
  }

  lemma AckTells(c: Config, step: Step)
    requires Told(c) && step.ClientAck? && Enabled(c, step)
    ensures Told(Take(c, step))
  {
    var d, acked := Take(c, step), Min(c.link.toClient[0], c.link.pass.snap[c.link.pass.hi - 1].seqNo);
    JournalRecovery.StepKeeps(JournalOf(c), JournalRecovery.Ack(acked));
    assert JournalOf(d) == JournalRecovery.DoAck(JournalOf(c), acked);
    JournalRecovery.AckLosesNothing(c.st, c.recorded, acked, c.shrunk);
    forall s | s in d.superseded
      ensures SpokenFor(d, s)
    {
      SpokenStays(c, d, s);
    }
  }

  lemma LinkTells(c: Config, step: Step)
    requires Told(c) && Enabled(c, step) && !step.Record? && !step.Restart? && !step.Compact? && !step.ClientAck?
    ensures Told(Take(c, step))
  {
    var d := Take(c, step);
    assert JournalOf(d) == JournalOf(c) && d.shrunk == c.shrunk && d.superseded == c.superseded;
    forall s | s in d.superseded
      ensures SpokenFor(d, s)
    {
      SpokenStays(c, d, s);
    }
  }

  lemma StepTells(c: Config, step: Step)
    requires Told(c) && Enabled(c, step)
    ensures Told(Take(c, step))
  {
    match step
    case Record(_, _, _) => RecordTells(c, step);
    case Restart => RestartTells(c, step);
    case Compact(_) => CompactTells(c, step);
    case ClientAck => AckTells(c, step);
    case _ => LinkTells(c, step);
  }

  // ---- Over every run ----

  ghost predicate Moves(c: Config, step: Step, d: Config) {
    Enabled(c, step) && d == Take(c, step)
  }

  ghost predicate IsRun(cs: seq<Config>, steps: seq<Step>) {
    && |cs| == |steps| + 1 && cs[0] == START
    && forall i :: 0 <= i < |steps| ==> Moves(cs[i], steps[i], cs[i + 1])
  }

  lemma StepTaken(cs: seq<Config>, steps: seq<Step>, i: nat)
    requires IsRun(cs, steps) && i < |steps|
    ensures Moves(cs[i], steps[i], cs[i + 1])
  {
  }

  lemma {:induction false} RunKeepsInv(cs: seq<Config>, steps: seq<Step>, i: nat)
    requires IsRun(cs, steps) && i < |cs|
    ensures Inv(cs[i]) && Mirrors(cs[i].file, cs[i].st)
  {
    if i > 0 {
      RunKeepsInv(cs, steps, i - 1);
      StepTaken(cs, steps, i - 1);
      StepKeepsInv(cs[i - 1], steps[i - 1]);
    }
  }

  lemma {:induction false} RunTells(cs: seq<Config>, steps: seq<Step>, i: nat)
    requires IsRun(cs, steps) && i < |cs|
    ensures Told(cs[i])
  {
    if i > 0 {
      RunTells(cs, steps, i - 1);
      StepTaken(cs, steps, i - 1);
      StepTells(cs[i - 1], steps[i - 1]);
    }
  }

  /**
   In every run, at every moment: the pending numbers all lie above the acknowledged mark, and each
   number at or below it was settled by the client, belonged to a chunk the server handled whole,
   or was superseded: later recorded actions speak for every path it was about, or (only once a restart
   found less in the file than memory had held) took that path away.
   */
  lemma DrainIsSafe(cs: seq<Config>, steps: seq<Step>, i: nat, s: nat)
    requires IsRun(cs, steps) && i < |cs|
    ensures s in cs[i].st.entries ==> s > cs[i].st.acked
    ensures 1 <= s <= cs[i].st.acked ==> s in cs[i].settled || s in cs[i].handled || s in cs[i].superseded
    ensures s in cs[i].superseded ==> SpokenFor(cs[i], s)
  {
    RunKeepsInv(cs, steps, i);
    RunTells(cs, steps, i);
  }

  /** No restart loses anything as long as every compaction finds the pending set settled. */
  lemma {:induction false} SettledNeverShrinks(cs: seq<Config>, steps: seq<Step>, i: nat)
    requires IsRun(cs, steps) && i < |cs|
    requires forall k :: 0 <= k < i && steps[k].Compact? ==> Settled(cs[k].st.entries)
    ensures !cs[i].shrunk && Replay(cs[i].file) == cs[i].st
  {
    if i > 0 {
      SettledNeverShrinks(cs, steps, i - 1);
      RunTells(cs, steps, i - 1);
      StepTaken(cs, steps, i - 1);
      ReplayStays(cs[i - 1], steps[i - 1]);
    }
  }

  lemma ReplayStays(c: Config, step: Step)
    requires Told(c) && Enabled(c, step) && Replay(c.file) == c.st && (step.Compact? ==> Settled(c.st.entries))
    ensures Replay(Take(c, step).file) == Take(c, step).st && Take(c, step).shrunk == c.shrunk
  {
    if step.Record? {
      RecordReplays(c, step);
    } else if step.Compact? {
      JournalRecovery.StepExact(JournalOf(c), JournalRecovery.Compact(step.listing));
    } else if step.ClientAck? {
      AckReplays(c, step);
    }
  }

  lemma RecordReplays(c: Config, step: Step)
    requires Told(c) && step.Record? && Replay(c.file) == c.st
    ensures Replay(Take(c, step).file) == Take(c, step).st
  {
    JournalRecovery.StepExact(JournalOf(c), JournalRecovery.Append(step.op, step.path, step.actionMs));
  }

  lemma AckReplays(c: Config, step: Step)
    requires Told(c) && step.ClientAck? && Enabled(c, step) && Replay(c.file) == c.st
    ensures Replay(Take(c, step).file) == Take(c, step).st
  {
    var acked := Min(c.link.toClient[0], c.link.pass.snap[c.link.pass.hi - 1].seqNo);
    JournalRecovery.StepExact(JournalOf(c), JournalRecovery.Ack(acked));
  }

  /** What recording an action drops, that action speaks for: every path the dropped entry still was about. */
  lemma RecordSupersedes(cs: seq<Config>, steps: seq<Step>, i: nat, s: nat, q: Path)
    requires IsRun(cs, steps) && i < |steps| && steps[i].Record?
    requires s in cs[i].st.entries && s !in cs[i + 1].st.entries && q in Mentions(cs[i].st.entries[s])
    ensures cs[i].st.nextSeq in cs[i + 1].recorded && SpeaksFor(cs[i + 1].recorded[cs[i].st.nextSeq], q)
  {
    var e := Entry(cs[i].st.nextSeq, steps[i].op, steps[i].path, steps[i].actionMs);
    LeaveKeepsOrSpeaks(e, cs[i].st.entries[s], q);
  }

  /** An acknowledgement removes only entries the client settled or whose chunk the server handled whole. */
  lemma AckRemovesDelivered(cs: seq<Config>, steps: seq<Step>, i: nat, s: nat)
    requires IsRun(cs, steps) && i < |steps| && steps[i].ClientAck?
    requires s in cs[i].st.entries && s !in cs[i + 1].st.entries
    ensures s in cs[i].settled || s in cs[i].handled
    ensures s in Numbers(cs[i].link.pass.snap[..cs[i].link.pass.hi])
  {
    RunKeepsInv(cs, steps, i);
    var c, p := cs[i], cs[i].link.pass;
    assert s <= p.snap[p.hi - 1].seqNo && s <= c.link.lastAcked && s > c.st.acked;
    assert s in Numbers(p.snap);
    var k :| 0 <= k < |p.snap| && p.snap[k].seqNo == s;
    assert k < p.hi && p.snap[..p.hi][k].seqNo == s;
  }
}
