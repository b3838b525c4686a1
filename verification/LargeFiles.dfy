/** Large files: split into chunks, delivered in any order, assembled and committed under their digest. */
module LargeFiles {
  import opened Wrappers
  import opened Digests
  import opened Ledgers
  import opened Engine

  const FILE_CHUNK_SIZE: nat := 8 * 1024 * 1024

  // ---- Splitting ----

  function ChunkCount(size: nat): (n: nat)
    ensures n >= 1 && (size > 0 ==> (n - 1) * FILE_CHUNK_SIZE < size <= n * FILE_CHUNK_SIZE)
  {
    var n := (size + FILE_CHUNK_SIZE - 1) / FILE_CHUNK_SIZE;
    if n < 1 then 1 else n
  }

  function ChunkEnd(size: nat, i: nat): nat {
    if (i + 1) * FILE_CHUNK_SIZE < size then (i + 1) * FILE_CHUNK_SIZE else size
  }

  /** The bytes of `content` that chunk `i` carries. */
  function Chunk(content: Bytes, i: nat): (r: Bytes)
    requires i * FILE_CHUNK_SIZE <= |content|
  {
    content[i * FILE_CHUNK_SIZE..ChunkEnd(|content|, i)]
  }

  /** One chunk from a position, however few bytes each read returns. */
  method FillChunk(content: Bytes, from: nat) returns (data: Bytes)
    requires from <= |content|
    ensures data == content[from..if from + FILE_CHUNK_SIZE < |content| then from + FILE_CHUNK_SIZE else |content|]
  {
    data := [];
    while |data| < FILE_CHUNK_SIZE
      invariant |data| <= FILE_CHUNK_SIZE && from + |data| <= |content| && data == content[from..from + |data|]
      decreases |content| - |data|
    {
      var at := from + |data|;
      if at == |content| {
        break;
      }
      var n :| 0 < n <= FILE_CHUNK_SIZE - |data| && at + n <= |content|;
      data := data + content[at..at + n];
    }
  }

  ghost predicate IsChunk(content: Bytes, i: nat, data: Bytes) {
    i * FILE_CHUNK_SIZE < |content| && data == Chunk(content, i)
  }

  /** Chunk `i`, or nothing at the end of the file. */
  method ReadChunk(content: Bytes, i: nat) returns (data: Option<Bytes>)
    ensures data.None? <==> |content| <= i * FILE_CHUNK_SIZE
    ensures data.Some? ==> IsChunk(content, i, data.value)
  {
    if |content| <= i * FILE_CHUNK_SIZE {
      return None;
    }
    var bytes := FillChunk(content, i * FILE_CHUNK_SIZE);
    data := Some(bytes);
  }

  /** The sender reads chunk after chunk until the file ends. */
  method StreamLargeFile(content: Bytes) returns (totalChunks: nat, chunks: seq<Bytes>)
    ensures totalChunks == ChunkCount(|content|)
    ensures |chunks| == if content == [] then 0 else totalChunks
    ensures forall i :: 0 <= i < |chunks| ==> IsChunk(content, i, chunks[i])
  {
    totalChunks := ChunkCount(|content|);
    chunks := [];
    while true
      invariant |chunks| <= totalChunks
      invariant forall i :: 0 <= i < |chunks| ==> IsChunk(content, i, chunks[i])
      decreases totalChunks - |chunks|
    {
      var data := ReadChunk(content, |chunks|);
      if content != [] {
        InRange(|content|, |chunks|);
      }
      if data.None? {
        break;
      }
      chunks := chunks + [data.value];
    }
    assert content == [] ==> |chunks| > 0 ==> IsChunk(content, 0, chunks[0]);
  }

  /** Those of the indices whose chunk exists, in order and with repeats. */
  function Existing(size: nat, indices: seq<nat>): seq<nat> {
    if indices == [] then []
    else
      var init, i := Existing(size, indices[..|indices| - 1]), indices[|indices| - 1];
      if i * FILE_CHUNK_SIZE < size then init + [i] else init
  }

  /** Every requested chunk that exists is among them, nothing else is, and if all exist they are just the request. */
  lemma {:induction false} ExistingExact(size: nat, indices: seq<nat>)
    ensures forall i: nat :: i in Existing(size, indices) <==> i in indices && i * FILE_CHUNK_SIZE < size
    ensures (forall i :: i in indices ==> i * FILE_CHUNK_SIZE < size) ==> Existing(size, indices) == indices
  {
    if indices != [] {
      var init, last := indices[..|indices| - 1], indices[|indices| - 1];
      ExistingExact(size, init);
      assert indices == init + [last];
      if forall i :: i in indices ==> i * FILE_CHUNK_SIZE < size {
        assert last in indices && forall i :: i in init ==> i in indices;
      }
    }
  }

  /** Retransmission reads the requested chunks by offset; a chunk past the end of the file is skipped. */
  method RequestedChunks(content: Bytes, indices: seq<nat>) returns (sent: seq<(nat, Bytes)>)
    ensures |sent| == |Existing(|content|, indices)|
    ensures forall k :: 0 <= k < |sent| ==> sent[k].0 == Existing(|content|, indices)[k] && IsChunk(content, sent[k].0, sent[k].1)
  {
    sent := [];
    for n := 0 to |indices|
      invariant |sent| == |Existing(|content|, indices[..n])|
      invariant forall k :: 0 <= k < |sent| ==>
                  sent[k].0 == Existing(|content|, indices[..n])[k] && IsChunk(content, sent[k].0, sent[k].1)
    {
      var i := indices[n];
      assert indices[..n + 1][..n] == indices[..n];
      var data := ReadChunk(content, i);
      if data.Some? {
        sent := sent + [(i, data.value)];
      }
    }
    assert indices[..|indices|] == indices;
  }

  // ---- Assembly ----

  /** Seek and write; writing past the end leaves a hole of zeros. */
  function WriteAt(file: Bytes, offset: nat, data: Bytes): (r: Bytes)
    ensures data == [] ==> r == file
    ensures data != [] ==> |r| == if |file| < offset + |data| then offset + |data| else |file|
    ensures data != [] ==> r[offset..offset + |data|] == data
    ensures forall i :: 0 <= i < |file| && (i < offset || offset + |data| <= i) ==> r[i] == file[i]
  {
    if data == [] then file
    else
      var padded := if |file| < offset then file + seq(offset - |file|, _ => 0) else file;
      padded[..offset] + data + if offset + |data| < |padded| then padded[offset + |data|..] else []
  }

  datatype Assembly = Assembly(
    totalChunks: nat, received: set<nat>, fileSize: nat, modifiedMs: nat, actionMs: Option<nat>, finalHash: Option<Digest>)

  /** A transfer under way: what is known about it, and its staging file. */
  datatype Transfer = Transfer(asm: Assembly, staged: Bytes) {

    function Arrive(i: nat, data: Bytes): Transfer {
      Transfer(asm.(received := asm.received + {i}), WriteAt(staged, i * FILE_CHUNK_SIZE, data))
    }

    predicate Full() {
      |asm.received| == asm.totalChunks
    }
  }

  function Started(meta: Meta, totalChunks: nat, actionMs: Option<nat>): Transfer {
    Transfer(Assembly(totalChunks, {}, meta.size, meta.modifiedMs, actionMs, None), seq(meta.size, _ => 0))
  }

  /** Every chunk received so far sits in its place. */
  ghost predicate Faithful(t: Transfer, content: Bytes) {
    && t.asm.totalChunks == ChunkCount(|content|) && |t.staged| == |content| > 0
    && forall i :: i in t.asm.received ==> i < t.asm.totalChunks && Placed(t.staged, content, i)
  }

  ghost predicate Placed(staged: Bytes, content: Bytes, i: nat)
    requires |staged| == |content|
  {
    i * FILE_CHUNK_SIZE < |content| && Chunk(staged, i) == Chunk(content, i)
  }

  lemma ArriveStaysFaithful(t: Transfer, content: Bytes, i: nat)
    requires Faithful(t, content) && i < t.asm.totalChunks
    ensures i * FILE_CHUNK_SIZE < |content| && Faithful(t.Arrive(i, Chunk(content, i)), content)
  {
    InRange(|content|, i);
    var after := t.Arrive(i, Chunk(content, i));
    WritePlaces(t.staged, content, i);
    forall j | j in after.asm.received
      ensures j < after.asm.totalChunks && Placed(after.staged, content, j)
    {
      if j != i {
        WriteSpares(t.staged, content, i, j);
      }
    }
  }

  lemma WritePlaces(staged: Bytes, content: Bytes, i: nat)
    requires |staged| == |content| && i * FILE_CHUNK_SIZE < |content|
    ensures var after := WriteAt(staged, i * FILE_CHUNK_SIZE, Chunk(content, i));
            |after| == |content| && Placed(after, content, i)
  {
  }

  lemma WriteSpares(staged: Bytes, content: Bytes, i: nat, j: nat)
    requires |staged| == |content| && i * FILE_CHUNK_SIZE < |content| && i != j && Placed(staged, content, j)
    ensures var after := WriteAt(staged, i * FILE_CHUNK_SIZE, Chunk(content, i));
            |after| == |content| && Placed(after, content, j)
  {
    var after := WriteAt(staged, i * FILE_CHUNK_SIZE, Chunk(content, i));
    WritePlaces(staged, content, i);
    ChunksApart(|content|, i, j);
    var lo, hi := j * FILE_CHUNK_SIZE, ChunkEnd(|content|, j);
    forall k | lo <= k < hi
      ensures after[k] == staged[k]
    {
    }
    assert after[lo..hi] == staged[lo..hi];
  }

  lemma ChunksApart(size: nat, i: nat, j: nat)
    requires i != j
    ensures ChunkEnd(size, i) <= j * FILE_CHUNK_SIZE || ChunkEnd(size, j) <= i * FILE_CHUNK_SIZE
  {
  }

  /** When every chunk is in place the staging file is the source. */
  lemma FullIsContent(t: Transfer, content: Bytes)
    requires Faithful(t, content) && forall i :: 0 <= i < t.asm.totalChunks ==> i in t.asm.received
    ensures t.staged == content
  {
    forall k | 0 <= k < |content|
      ensures t.staged[k] == content[k]
    {
      var i := k / FILE_CHUNK_SIZE;
      assert i < t.asm.totalChunks && Placed(t.staged, content, i);
      assert t.staged[k] == Chunk(t.staged, i)[k - i * FILE_CHUNK_SIZE] == Chunk(content, i)[k - i * FILE_CHUNK_SIZE];
    }
  }

  function Range(n: nat): (r: set<nat>)
    ensures |r| == n && forall i: nat :: i in r <==> i < n
  {
    if n == 0 then {} else Range(n - 1) + {n - 1}
  }

  /** Counting the received indices tells whether all have arrived, as long as none is out of range. */
  lemma CountTellsAll(received: set<nat>, total: nat)
    requires forall i :: i in received ==> i < total
    ensures |received| <= total
    ensures |received| == total <==> forall i :: 0 <= i < total ==> i in received
  {
    var missing := Range(total) - received;
    SubsetSmaller(received, Range(total));
    assert Range(total) == received + missing && |Range(total)| == |received| + |missing|;
    assert missing == {} <==> forall i :: 0 <= i < total ==> i in received by {
      assert forall i :: 0 <= i < total && i !in received ==> i in missing;
    }
  }

  /**
   The receiver accepts any index and only counts. A full count means every chunk is there exactly
   when no index from past the end was counted; the digest check catches the rest.
   */
  lemma FullCountExact(received: set<nat>, total: nat)
    requires |received| == total
    ensures (forall i :: 0 <= i < total ==> i in received) <==> (forall i :: i in received ==> i < total)
  {
    if forall i :: i in received ==> i < total {
      CountTellsAll(received, total);
    } else if forall i :: 0 <= i < total ==> i in received {
      var extra :| extra in received && extra >= total;
      SubsetSmaller(Range(total) + {extra}, received);
      assert false;
    }
  }

  /** Chunks 0 and 2 of a two-chunk file count as a full transfer, though chunk 1 is missing. */
  lemma FullCountMisleads(meta: Meta, first: Bytes, stray: Bytes)
    ensures var t := Started(meta, 2, None).Arrive(0, first).Arrive(2, stray);
            t.Full() && 1 < t.asm.totalChunks && 1 !in t.asm.received
  {
    var t := Started(meta, 2, None).Arrive(0, first).Arrive(2, stray);
    assert t.asm.received == {0, 2};
  }

  // ---- A whole transfer ----

  datatype Event = Arrives(i: nat) | Ends

  datatype Phase = Open(t: Transfer) | Complete(bytes: Bytes) | Mismatch | Refused

  /**
   One message of the sender that holds `content` reaches the receiver, whose tombstones veto the path at
   that moment or not; once closed, messages are ignored.
   */
  function Next(digest: Bytes -> Digest, content: Bytes, ph: Phase, e: Event, vetoed: bool): Phase {
    match ph
    case Complete(_) => ph
    case Mismatch => ph
    case Refused => ph
    case Open(t) =>
      match e
      case Ends =>
        if |t.asm.received| < t.asm.totalChunks then Open(t.(asm := t.asm.(finalHash := Some(digest(content)))))
        else Checked(digest, t.staged, digest(content), vetoed)
      case Arrives(i) =>
        if i * FILE_CHUNK_SIZE < |content| then
          var after := t.Arrive(i, Chunk(content, i));
          if after.asm.finalHash.Some? && after.Full() then Checked(digest, after.staged, after.asm.finalHash.value, vetoed)
          else Open(after)
        else ph
  }

  function Checked(digest: Bytes -> Digest, bytes: Bytes, hash: Digest, vetoed: bool): Phase {
    if vetoed then Refused else if digest(bytes) == hash then Complete(bytes) else Mismatch
  }

  /** The messages `es` one after the other; `veto` tells by position what the tombstones say then. */
  function Play(digest: Bytes -> Digest, content: Bytes, start: Phase, es: seq<Event>, veto: nat -> bool): Phase {
    if es == [] then start
    else Next(digest, content, Play(digest, content, start, es[..|es| - 1], veto), es[|es| - 1], veto(|es| - 1))
  }

  ghost predicate AllArrived(content: Bytes, es: seq<Event>) {
    forall i :: 0 <= i < ChunkCount(|content|) ==> Arrives(i) in es
  }

  /** The end marker and every chunk are among the messages. */
  ghost predicate Delivered(content: Bytes, es: seq<Event>) {
    Ends in es && AllArrived(content, es)
  }

  /** Message `k` is the one that completes the delivery. */
  ghost predicate ClosesAt(content: Bytes, es: seq<Event>, k: nat) {
    k < |es| && !Delivered(content, es[..k]) && Delivered(content, es[..k + 1])
  }

  ghost predicate Tracks(digest: Bytes -> Digest, content: Bytes, es: seq<Event>, ph: Phase) {
    match ph
    case Mismatch => false
    case Refused => Delivered(content, es)
    case Complete(bytes) => bytes == content && Delivered(content, es)
    case Open(t) =>
      && Faithful(t, content) && !(Ends in es && t.Full())
      && (forall i: nat :: i in t.asm.received <==> i < t.asm.totalChunks && Arrives(i) in es)
      && t.asm.finalHash == if Ends in es then Some(digest(content)) else None
  }

  /**
   Chunks in any order, with repeats and losses: the transfer is over exactly when the end marker and
   every chunk have arrived, whichever comes last. If the tombstones veto the path at that message it is
   refused; otherwise it commits, and what it commits is the source.
   */
  lemma AnyOrderCommits(
      digest: Bytes -> Digest, content: Bytes, meta: Meta, actionMs: Option<nat>, es: seq<Event>, veto: nat -> bool)
    requires |content| == meta.size > 0
    ensures var ph := Play(digest, content, Open(Started(meta, ChunkCount(meta.size), actionMs)), es, veto);
            && (!ph.Open? <==> Delivered(content, es))
            && (forall k: nat :: ClosesAt(content, es, k) ==> ph == if veto(k) then Refused else Complete(content))
  {
    var start := Open(Started(meta, ChunkCount(meta.size), actionMs));
    PlayTracks(digest, content, start, es, veto);
    forall k: nat | ClosesAt(content, es, k)
      ensures Play(digest, content, start, es, veto) == if veto(k) then Refused else Complete(content)
    {
      StaysClosed(digest, content, start, es, veto, k);
    }
  }

  /** Every message keeps the account of what has arrived. */
  lemma {:induction false} PlayTracks(digest: Bytes -> Digest, content: Bytes, start: Phase, es: seq<Event>, veto: nat -> bool)
    requires start.Open? && Tracks(digest, content, [], start)
    ensures var ph := Play(digest, content, start, es, veto);
            Tracks(digest, content, es, ph) && (!ph.Open? <==> Delivered(content, es))
  {
    if es != [] {
      var init, e := es[..|es| - 1], es[|es| - 1];
      assert es == init + [e];
      PlayTracks(digest, content, start, init, veto);
      TracksNext(digest, content, init, Play(digest, content, start, init, veto), e, veto(|init|));
    }
    var ph := Play(digest, content, start, es, veto);
    if ph.Open? {
      OpenIsPartial(digest, content, es, ph);
    }
  }

  /** The message that completes the delivery decides, and later ones change nothing. */
  lemma {:induction false} StaysClosed(
      digest: Bytes -> Digest, content: Bytes, start: Phase, es: seq<Event>, veto: nat -> bool, k: nat)
    requires start.Open? && Tracks(digest, content, [], start) && ClosesAt(content, es, k)
    ensures Play(digest, content, start, es, veto) == if veto(k) then Refused else Complete(content)
  {
    var init, e := es[..|es| - 1], es[|es| - 1];
    if k < |init| {
      assert es[..k] == init[..k] && es[..k + 1] == init[..k + 1];
      StaysClosed(digest, content, start, init, veto, k);
    } else {
      assert es[..k] == init && es[..k + 1] == es;
      PlayTracks(digest, content, start, init, veto);
      PlayTracks(digest, content, start, es, veto);
      ClosedAs(digest, content, Play(digest, content, start, init, veto).t, e, veto(k));
    }
  }

  lemma OpenIsPartial(digest: Bytes -> Digest, content: Bytes, es: seq<Event>, ph: Phase)
    requires ph.Open? && Tracks(digest, content, es, ph)
    ensures !Delivered(content, es)
  {
    CountTellsAll(ph.t.asm.received, ph.t.asm.totalChunks);
  }

  /** A message that closes an open transfer refuses it exactly under a veto. */
  lemma ClosedAs(digest: Bytes -> Digest, content: Bytes, t: Transfer, e: Event, vetoed: bool)
    ensures var ph := Next(digest, content, Open(t), e, vetoed);
            ph.Open? || (ph.Refused? <==> vetoed)
  {
  }

  lemma TracksNext(digest: Bytes -> Digest, content: Bytes, es: seq<Event>, ph: Phase, e: Event, vetoed: bool)
    requires Tracks(digest, content, es, ph)
    ensures Tracks(digest, content, es + [e], Next(digest, content, ph, e, vetoed))
  {
    if ph.Open? {
      match e {
        case Ends => TracksEnd(digest, content, es, ph.t, vetoed);
        case Arrives(i) => TracksArrival(digest, content, es, ph.t, i, vetoed);
      }
    }
  }

  lemma TracksEnd(digest: Bytes -> Digest, content: Bytes, es: seq<Event>, t: Transfer, vetoed: bool)
    requires Tracks(digest, content, es, Open(t))
    ensures Tracks(digest, content, es + [Ends], Next(digest, content, Open(t), Ends, vetoed))
  {
    CountTellsAll(t.asm.received, t.asm.totalChunks);
    if t.Full() {
      FullIsContent(t, content);
    }
  }

  lemma TracksArrival(digest: Bytes -> Digest, content: Bytes, es: seq<Event>, t: Transfer, i: nat, vetoed: bool)
    requires Tracks(digest, content, es, Open(t))
    ensures Tracks(digest, content, es + [Arrives(i)], Next(digest, content, Open(t), Arrives(i), vetoed))
  {
    var more := es + [Arrives(i)];
    assert Ends in more <==> Ends in es;
    InRange(|content|, i);
    if i * FILE_CHUNK_SIZE < |content| {
      ArriveStaysFaithful(t, content, i);
      var after := t.Arrive(i, Chunk(content, i));
      OneMoreArrived(t.asm.received, t.asm.totalChunks, es, i);
      if after.Full() {
        AllIn(content, more, after);
      }
    }
  }

  lemma OneMoreArrived(received: set<nat>, total: nat, es: seq<Event>, i: nat)
    requires i < total && forall k: nat :: k in received <==> k < total && Arrives(k) in es
    ensures forall k: nat :: k in received + {i} <==> k < total && Arrives(k) in es + [Arrives(i)]
  {
    forall k: nat
      ensures k in received + {i} <==> k < total && Arrives(k) in es + [Arrives(i)]
    {
      assert Arrives(k) in es + [Arrives(i)] <==> Arrives(k) in es || k == i;
    }
  }

  lemma AllIn(content: Bytes, es: seq<Event>, t: Transfer)
    requires Faithful(t, content) && t.Full()
    requires forall k: nat :: k in t.asm.received <==> k < t.asm.totalChunks && Arrives(k) in es
    ensures t.staged == content && AllArrived(content, es)
  {
    CountTellsAll(t.asm.received, t.asm.totalChunks);
    FullIsContent(t, content);
  }

  lemma InRange(size: nat, i: nat)
    requires size > 0
    ensures i * FILE_CHUNK_SIZE < size <==> i < ChunkCount(size)
  {
  }
}
