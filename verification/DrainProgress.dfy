/** Delivery gets somewhere: handled chunks leave the journal, failed ones stay, and no chunk waits for ever. */
module DrainProgress {
  import opened Journals
  import opened DrainProtocol

  // ---- The server's mark never runs ahead of the client's ----

  /** The client's mark has caught up with what the server last answered, and what is still to be sent lies above it. */
  ghost predicate Paced(c: Config) {
    c.link.Up? ==>
      match c.link.pass
      case Idle => c.link.lastAcked <= c.st.acked
      case Draining(snap, next) => c.link.lastAcked <= c.st.acked && Ahead(c, snap, next)
      case Awaiting(snap, lo, hi) =>
        && lo < hi <= |snap| && Ahead(c, snap, lo)
        && (c.link.lastAcked <= c.st.acked || (c.link.toServer == [] && c.link.lastAcked == snap[hi - 1].seqNo))
  }

  ghost predicate Ahead(c: Config, snap: seq<Entry>, next: nat) {
    forall k :: next <= k < |snap| ==> c.st.acked < snap[k].seqNo
  }

  lemma AckPaces(c: Config)
    requires Inv(c) && Paced(c) && Enabled(c, ClientAck)
    ensures Paced(Take(c, ClientAck))
  {
    var d, p := Take(c, ClientAck), c.link.pass;
    assert c.link.toServer == [] && c.link.toClient == [c.link.lastAcked];
    if d.link.pass.Draining? {
      forall k | p.hi <= k < |p.snap|
        ensures d.st.acked < p.snap[k].seqNo
      {
        assert p.snap[p.hi - 1].seqNo < p.snap[k].seqNo && c.st.acked < p.snap[k].seqNo;
      }
    }
  }

  lemma StepPaces(c: Config, step: Step)
    requires Inv(c) && Paced(c) && Enabled(c, step)
    ensures Paced(Take(c, step))
  {
    match step
    case ClientAck => AckPaces(c);
    case StartPass(snapshot) =>
      forall k | 0 <= k < |snapshot|
        ensures c.st.acked < snapshot[k].seqNo
      {
        assert snapshot[k].seqNo in c.st.entries;
      }
    case _ =>
  }

  lemma {:induction false} RunPaces(cs: seq<Config>, steps: seq<Step>, i: nat)
    requires IsRun(cs, steps) && i < |cs|
    ensures Paced(cs[i]) && Inv(cs[i])
  {
    RunKeepsInv(cs, steps, i);
    if i > 0 {
      RunPaces(cs, steps, i - 1);
      StepTaken(cs, steps, i - 1);
      StepPaces(cs[i - 1], steps[i - 1]);
    }
  }

  // ---- A chunk that is handled whole ----

  /** From a step on until `b`, the client neither disconnects nor takes an answer. */
  ghost predicate Undisturbed(steps: seq<Step>, a: nat, b: nat)
    requires b <= |steps|
  {
    forall k :: a < k < b ==> !steps[k].Disconnect? && !steps[k].ClientAck?
  }

  ghost predicate NoFailure(steps: seq<Step>, a: nat, b: nat)
    requires b <= |steps|
  {
    forall k :: a < k < b ==> steps[k] != ServerAction(false)
  }

  /** The chunk is in flight and nothing of it has failed; once answered, the answer covers it. */
  ghost predicate GoingWell(c: Config, snap: seq<Entry>, lo: nat, hi: nat) {
    && c.link.Up? && c.link.pass == Awaiting(snap, lo, hi) && lo < hi <= |snap| && !c.link.chunkFailed
    && (c.link.toServer == [] ==> c.link.lastAcked >= snap[hi - 1].seqNo)
  }

  lemma StepGoesWell(c: Config, step: Step, d: Config, snap: seq<Entry>, lo: nat, hi: nat)
    requires Inv(c) && GoingWell(c, snap, lo, hi) && Moves(c, step, d)
    requires !step.Disconnect? && !step.ClientAck? && step != ServerAction(false)
    ensures GoingWell(d, snap, lo, hi)
  {
  }

  lemma {:induction false} ChunkGoesWell(cs: seq<Config>, steps: seq<Step>, a: nat, b: nat, snap: seq<Entry>, lo: nat)
    requires IsRun(cs, steps) && a < b <= |steps| && steps[a].SendChunk?
    requires cs[a].link.Up? && cs[a].link.pass == Draining(snap, lo)
    requires Undisturbed(steps, a, b) && NoFailure(steps, a, b)
    ensures GoingWell(cs[b], snap, lo, steps[a].upTo)
  {
    RunKeepsInv(cs, steps, b - 1);
    StepTaken(cs, steps, b - 1);
    if a < b - 1 {
      ChunkGoesWell(cs, steps, a, b - 1, snap, lo);
      StepGoesWell(cs[b - 1], steps[b - 1], cs[b], snap, lo, steps[a].upTo);
    } else {
      ChunkStartsWell(cs[a], steps[a], cs[b]);
    }
  }

  /** A chunk is sent from the middle of a pass. */
  lemma SentFromPass(cs: seq<Config>, steps: seq<Step>, a: nat)
    requires IsRun(cs, steps) && a < |steps| && steps[a].SendChunk?
    ensures cs[a].link.Up? && cs[a].link.pass.Draining? && cs[a].link.pass.next < steps[a].upTo <= |cs[a].link.pass.snap|
  {
    StepTaken(cs, steps, a);
  }

  lemma ChunkStartsWell(c: Config, step: Step, d: Config)
    requires Inv(c) && step.SendChunk? && Moves(c, step, d)
    ensures c.link.Up? && c.link.pass.Draining? && GoingWell(d, c.link.pass.snap, c.link.pass.next, step.upTo)
  {
  }

  /**
   A chunk all of whose messages the server handled: when the client has taken the answer, nothing of the
   chunk is pending any more, the mark has reached its last number, and the pass goes on behind it.
   */
  lemma HandledChunkLeaves(cs: seq<Config>, steps: seq<Step>, a: nat, j: nat, s: nat)
    requires IsRun(cs, steps) && a < j < |steps| && steps[a].SendChunk? && steps[j].ClientAck?
    requires Undisturbed(steps, a, j) && NoFailure(steps, a, j)
    ensures cs[a].link.Up? && cs[a].link.pass.Draining?
    ensures var p, hi := cs[a].link.pass, steps[a].upTo;
            && p.next < hi <= |p.snap| && cs[j + 1].st.acked >= p.snap[hi - 1].seqNo
            && (s in Numbers(p.snap[p.next..hi]) ==> s !in cs[j + 1].st.entries)
            && cs[j + 1].link.Up? && cs[j + 1].link.pass == Draining(p.snap, hi)
  {
    SentFromPass(cs, steps, a);
    ChunkGoesWell(cs, steps, a, j, cs[a].link.pass.snap, cs[a].link.pass.next);
    RunKeepsInv(cs, steps, j);
    StepTaken(cs, steps, j);
    AnsweredWell(cs[j], cs[a].link.pass.snap, cs[a].link.pass.next, steps[a].upTo, s);
  }

  lemma AnsweredWell(c: Config, snap: seq<Entry>, lo: nat, hi: nat, s: nat)
    requires Inv(c) && GoingWell(c, snap, lo, hi) && Enabled(c, ClientAck)
    ensures var d := Take(c, ClientAck);
            && d.st.acked >= snap[hi - 1].seqNo && d.link.Up? && d.link.pass == Draining(snap, hi)
            && (s in Numbers(snap[lo..hi]) ==> s !in d.st.entries)
  {
    assert c.link.toServer == [] && c.link.toClient == [c.link.lastAcked];
    if s in Numbers(snap[lo..hi]) {
      var k :| 0 <= k < |snap[lo..hi]| && snap[lo..hi][k].seqNo == s;
      assert snap[lo + k].seqNo == s;
    }
  }

  // ---- A chunk with a failed message ----

  /** Something of the chunk in flight failed: the answer to come, or already there, does not pass the mark. */
  ghost predicate GoingWrong(c: Config, snap: seq<Entry>, lo: nat, hi: nat, mark: nat) {
    && c.link.Up? && c.link.pass == Awaiting(snap, lo, hi) && c.st.acked == mark
    && if c.link.toServer == [] then c.link.lastAcked <= mark else c.link.chunkFailed
  }

  lemma StepGoesWrong(c: Config, step: Step, d: Config, snap: seq<Entry>, lo: nat, hi: nat, mark: nat)
    requires Inv(c) && Paced(c) && GoingWrong(c, snap, lo, hi, mark) && Moves(c, step, d)
    requires !step.Disconnect? && !step.ClientAck?
    ensures GoingWrong(d, snap, lo, hi, mark)
  {
  }

  /** While a chunk is in flight undisturbed, it stays the chunk in flight and the mark stays. */
  lemma {:induction false} StillAwaiting(cs: seq<Config>, steps: seq<Step>, a: nat, b: nat, snap: seq<Entry>, lo: nat)
    requires IsRun(cs, steps) && a < b <= |steps| && steps[a].SendChunk? && Undisturbed(steps, a, b)
    requires cs[a].link.Up? && cs[a].link.pass == Draining(snap, lo)
    ensures cs[b].link.Up? && cs[b].st.acked == cs[a].st.acked && cs[b].link.pass == Awaiting(snap, lo, steps[a].upTo)
  {
    StepTaken(cs, steps, b - 1);
    if a < b - 1 {
      StillAwaiting(cs, steps, a, b - 1, snap, lo);
    }
  }

  lemma {:induction false} ChunkGoesWrong(cs: seq<Config>, steps: seq<Step>, a: nat, f: nat, b: nat, snap: seq<Entry>, lo: nat)
    requires IsRun(cs, steps) && a < f < b <= |steps| && steps[a].SendChunk? && steps[f] == ServerAction(false)
    requires Undisturbed(steps, a, b) && cs[a].link.Up? && cs[a].link.pass == Draining(snap, lo)
    ensures GoingWrong(cs[b], snap, lo, steps[a].upTo, cs[a].st.acked)
  {
    if b == f + 1 {
      FailureSpoils(cs, steps, a, f, snap, lo);
    } else {
      ChunkGoesWrong(cs, steps, a, f, b - 1, snap, lo);
      StillWrong(cs, steps, b - 1, snap, lo, steps[a].upTo, cs[a].st.acked);
    }
  }

  lemma StillWrong(cs: seq<Config>, steps: seq<Step>, i: nat, snap: seq<Entry>, lo: nat, hi: nat, mark: nat)
    requires IsRun(cs, steps) && i < |steps| && GoingWrong(cs[i], snap, lo, hi, mark)
    requires !steps[i].Disconnect? && !steps[i].ClientAck?
    ensures GoingWrong(cs[i + 1], snap, lo, hi, mark)
  {
    RunPaces(cs, steps, i);
    StepTaken(cs, steps, i);
    StepGoesWrong(cs[i], steps[i], cs[i + 1], snap, lo, hi, mark);
  }

  lemma FailureSpoils(cs: seq<Config>, steps: seq<Step>, a: nat, f: nat, snap: seq<Entry>, lo: nat)
    requires IsRun(cs, steps) && a < f < |steps| && steps[a].SendChunk? && steps[f] == ServerAction(false)
    requires Undisturbed(steps, a, f) && cs[a].link.Up? && cs[a].link.pass == Draining(snap, lo)
    ensures GoingWrong(cs[f + 1], snap, lo, steps[a].upTo, cs[a].st.acked)
  {
    StillAwaiting(cs, steps, a, f, snap, lo);
    RunKeepsInv(cs, steps, f);
    StepTaken(cs, steps, f);
    MessageFails(cs[f], cs[f + 1], snap, lo, steps[a].upTo);
  }

  lemma MessageFails(c: Config, d: Config, snap: seq<Entry>, lo: nat, hi: nat)
    requires Inv(c) && c.link.Up? && c.link.pass == Awaiting(snap, lo, hi) && Moves(c, ServerAction(false), d)
    ensures GoingWrong(d, snap, lo, hi, c.st.acked)
  {
    assert c.link.toServer[|c.link.toServer| - 1].BatchEnd?;
  }

  /** After a failed message the answer changes nothing in the journal: the mark stays, and the pass is given up to be repeated. */
  lemma FailedChunkStays(cs: seq<Config>, steps: seq<Step>, a: nat, f: nat, j: nat)
    requires IsRun(cs, steps) && a < f < j < |steps|
    requires steps[a].SendChunk? && steps[f] == ServerAction(false) && steps[j].ClientAck? && Undisturbed(steps, a, j)
    ensures cs[j + 1].st == cs[j].st && cs[j + 1].st.acked == cs[a].st.acked
    ensures cs[j + 1].link.Up? && cs[j + 1].link.pass.Idle?
  {
    SentFromPass(cs, steps, a);
    ChunkGoesWrong(cs, steps, a, f, j, cs[a].link.pass.snap, cs[a].link.pass.next);
    RunPaces(cs, steps, j);
    StepTaken(cs, steps, j);
    AnsweredWrong(cs[j], cs[j + 1], cs[a].link.pass.snap, cs[a].link.pass.next, steps[a].upTo, cs[a].st.acked);
  }

  lemma AnsweredWrong(c: Config, d: Config, snap: seq<Entry>, lo: nat, hi: nat, mark: nat)
    requires Inv(c) && Paced(c) && GoingWrong(c, snap, lo, hi, mark) && Moves(c, ClientAck, d)
    ensures d.st == c.st && c.st.acked == mark && d.link.Up? && d.link.pass.Idle?
  {
    assert c.link.toServer == [] && c.link.toClient == [c.link.lastAcked];
    assert c.st.acked < snap[hi - 1].seqNo;
    assert AckLocal(c.st, c.link.lastAcked).entries == c.st.entries;
  }

  // ---- A pass without failures ----

  /** How far the chunks sent since `a` reach. */
  function Reach(steps: seq<Step>, a: nat, b: nat): nat
    requires a < b <= |steps|
    decreases b
  {
    if a == b - 1 then 0 else if steps[b - 1].SendChunk? then steps[b - 1].upTo else Reach(steps, a, b - 1)
  }

  /** The pass over `snap` is under way, its first `n` entries delivered or in flight. */
  ghost predicate OnCourse(c: Config, snap: seq<Entry>, n: nat) {
    && c.link.Up?
    && match c.link.pass
       case Idle => false
       case Draining(s, next) => s == snap && next == n
       case Awaiting(s, lo, hi) => hi == n && GoingWell(c, snap, lo, hi)
  }

  lemma StepStaysOnCourse(c: Config, step: Step, d: Config, snap: seq<Entry>, n: nat)
    requires Inv(c) && OnCourse(c, snap, n) && Moves(c, step, d)
    requires !step.Disconnect? && !step.EndPass? && step != ServerAction(false)
    ensures OnCourse(d, snap, if step.SendChunk? then step.upTo else n)
  {
    if c.link.pass.Awaiting? && !step.ClientAck? {
      StepGoesWell(c, step, d, snap, c.link.pass.lo, c.link.pass.hi);
    }
  }

  /** Between two steps nothing fails, the connection holds and the client does not stop. */
  ghost predicate Clean(steps: seq<Step>, a: nat, b: nat)
    requires b <= |steps|
  {
    forall k :: a < k < b ==> !steps[k].Disconnect? && !steps[k].EndPass? && steps[k] != ServerAction(false)
  }

  lemma {:induction false} CleanPassStaysOnCourse(cs: seq<Config>, steps: seq<Step>, a: nat, b: nat)
    requires IsRun(cs, steps) && a < b <= |steps| && steps[a].StartPass? && Clean(steps, a, b)
    ensures OnCourse(cs[b], steps[a].snapshot, Reach(steps, a, b))
  {
    RunKeepsInv(cs, steps, b - 1);
    StepTaken(cs, steps, b - 1);
    if a < b - 1 {
      CleanPassStaysOnCourse(cs, steps, a, b - 1);
      StepStaysOnCourse(cs[b - 1], steps[b - 1], cs[b], steps[a].snapshot, Reach(steps, a, b - 1));
    } else {
      StartsOnCourse(cs[a], steps[a], cs[b]);
    }
  }

  lemma StartsOnCourse(c: Config, step: Step, d: Config)
    requires step.StartPass? && Moves(c, step, d)
    ensures OnCourse(d, step.snapshot, 0)
  {
  }

  /**
   A clean pass is never given up, and between chunks nothing of what it has sent is pending. Once it has
   sent its whole snapshot and the last answer is in, nothing of the snapshot is pending.
   */
  lemma CleanPassDelivers(cs: seq<Config>, steps: seq<Step>, a: nat, b: nat, s: nat)
    requires IsRun(cs, steps) && a < b <= |steps| && steps[a].StartPass? && Clean(steps, a, b)
    ensures cs[b].link.Up? && !cs[b].link.pass.Idle?
    ensures cs[b].link.pass.Draining? ==>
              && Reach(steps, a, b) <= |steps[a].snapshot|
              && (s in Numbers(steps[a].snapshot[..Reach(steps, a, b)]) ==> s !in cs[b].st.entries)
  {
    CleanPassStaysOnCourse(cs, steps, a, b);
    RunKeepsInv(cs, steps, b);
    if cs[b].link.pass.Draining? {
      SentIsGone(cs[b], s);
    }
  }

  lemma SentIsGone(c: Config, s: nat)
    requires Inv(c) && c.link.Up? && c.link.pass.Draining?
    ensures c.link.pass.next <= |c.link.pass.snap|
    ensures s in Numbers(c.link.pass.snap[..c.link.pass.next]) ==> s !in c.st.entries
  {
    var snap, n := c.link.pass.snap, c.link.pass.next;
    if s in Numbers(snap[..n]) {
      var k :| 0 <= k < |snap[..n]| && snap[..n][k].seqNo == s;
      assert snap[k].seqNo == s;
    }
  }

  // ---- No chunk waits for ever ----

  /** What is still to happen to the chunk in flight. */
  function Work(l: Link): nat
    requires l.Up?
  {
    2 * |l.toServer| + |l.toClient|
  }

  /** The next thing that happens to the chunk in flight, if the connection holds. */
  function NextOf(l: Link, ok: bool): Step
    requires l.Up?
  {
    if l.toServer == [] then ClientAck else if l.toServer[0].Action? then ServerAction(ok) else ServerBatchEnd
  }

  /** As long as a chunk is in flight the server or the client can go on, and each such step leaves less to do. */
  lemma NeverStuck(cs: seq<Config>, steps: seq<Step>, i: nat, ok: bool)
    requires IsRun(cs, steps) && i < |cs| && cs[i].link.Up? && cs[i].link.pass.Awaiting?
    ensures var c, step := cs[i], NextOf(cs[i].link, ok);
            && Enabled(c, step) && Take(c, step).link.Up? && Work(Take(c, step).link) < Work(c.link)
            && (step.ClientAck? <==> !Take(c, step).link.pass.Awaiting?)
  {
    RunKeepsInv(cs, steps, i);
  }
}
