/** Large-file transfers as the engine keeps them: one staging file per path, many transfers at once. */
module LargeFileStore {
  import opened Paths
  import opened Wrappers
  import opened Digests
  import opened Ledgers
  import opened Engine
  import opened LargeFiles

  // ---- Staging names ----

  /** A path as `Path` yields it: components hold no separator. */
  predicate Normal(p: Path) {
    forall i :: 0 <= i < |p| ==> '/' !in p[i]
  }

  /** Each component followed by a separator. */
  function Joined(p: Path): string {
    if p == [] then "" else p[0] + "/" + Joined(p[1..])
  }

  /** The text determines the path. */
  lemma {:induction false} JoinedInjective(a: Path, b: Path)
    requires Normal(a) && Normal(b) && Joined(a) == Joined(b)
    ensures a == b
  {
    if a != [] && b != [] {
      FirstSeparator(a[0], Joined(a[1..]), b[0], Joined(b[1..]));
      JoinedInjective(a[1..], b[1..]);
      assert a == [a[0]] + a[1..] && b == [b[0]] + b[1..];
    }
  }

  lemma FirstSeparator(x: string, xs: string, y: string, ys: string)
    requires '/' !in x && '/' !in y && x + "/" + xs == y + "/" + ys
    ensures x == y && xs == ys
  {
    var all := x + "/" + xs;
    assert all[|x|] == '/' && (y + "/" + ys)[|y|] == '/';
    assert |x| == |y|;
    assert x == all[..|x|] && xs == all[|x| + 1..];
    assert y == (y + "/" + ys)[..|y|] && ys == (y + "/" + ys)[|y| + 1..];
  }

  ghost predicate Injective(h: string -> string) {
    forall a, b :: h(a) == h(b) ==> a == b
  }

  function StagingName(h: string -> string, p: Path): string {
    h(Joined(p)) + ".part"
  }

  /** Two transfers never share a staging file, siblings of one directory included. */
  lemma StagingApart(h: string -> string, a: Path, b: Path)
    requires Injective(h) && Normal(a) && Normal(b) && StagingName(h, a) == StagingName(h, b)
    ensures a == b
  {
    var x, y := h(Joined(a)), h(Joined(b));
    assert x == StagingName(h, a)[..|StagingName(h, a)| - 5] && y == StagingName(h, b)[..|StagingName(h, b)| - 5];
    JoinedInjective(a, b);
  }

  // ---- The store ----

  datatype ChunkResult = ReadyToCommit(hash: Digest) | Pending

  datatype FinishResult = Committed | MissingChunks(indices: seq<nat>) | HashMismatch

  /** What a commit makes of a finished transfer. */
  datatype Verdict = TurnedDown | Corrupt | Replaces

  function Judged(digest: Bytes -> Digest, l: Ledger, p: Path, t: Transfer, hash: Digest): Verdict {
    if VetoFor(l, p, t.asm.actionMs, t.asm.modifiedMs).Some? then TurnedDown
    else if digest(t.staged) != hash then Corrupt
    else Replaces
  }

  /** The destinations, what is listed, and the ledger. */
  datatype Place = Place(files: map<Path, Bytes>, manifest: Manifest, ledger: Ledger)

  class TransferStore {
    const digest: Bytes -> Digest
    const h: string -> string
    var inProgress: map<Path, Assembly>
    var staging: map<string, Bytes>
    var files: map<Path, Bytes>
    var manifest: Manifest
    var ledger: Ledger

    ghost predicate Valid()
      reads this
    {
      Injective(h) && forall p :: p in inProgress ==> Normal(p) && StagingName(h, p) in staging
    }

    ghost function State(): Place
      reads this
    {
      Place(files, manifest, ledger)
    }

    /**
     What committing the transfer `t` makes of the place: refused, it stays as it is; otherwise the
     admission is recorded, and the destination and its listing change exactly when the digest is right.
     */
    ghost predicate Settles(was: Place, now: Place, p: Path, t: Transfer, hash: Digest, r: FinishResult)
      reads this
    {
      var admitted := AdmitRecord(was.ledger, p, t.asm.actionMs, t.asm.modifiedMs);
      match Judged(digest, was.ledger, p, t, hash)
      case TurnedDown => r == Committed && now == was
      case Corrupt => r == HashMismatch && now == was.(ledger := admitted)
      case Replaces =>
        && r == Committed && p in now.files && digest(now.files[p]) == hash
        && now == Place(was.files[p := t.staged],
                        was.manifest[p := Meta(p, t.asm.fileSize, hash, t.asm.modifiedMs, false)], admitted)
    }

    /** The transfer under way at `p`, if any. */
    ghost function At(p: Path): Option<Transfer>
      requires Valid()
      reads this
    {
      if p in inProgress then Some(Transfer(inProgress[p], staging[StagingName(h, p)])) else None
    }

    constructor (digest: Bytes -> Digest, h: string -> string, files: map<Path, Bytes>, manifest: Manifest, ledger: Ledger)
      requires Injective(h)
      ensures Valid() && inProgress == map[] && this.files == files && this.manifest == manifest && this.ledger == ledger
      ensures this.digest == digest && this.h == h
    {
      this.digest, this.h := digest, h;
      this.files, this.manifest, this.ledger := files, manifest, ledger;
      inProgress, staging := map[], map[];
    }

    /** A start is admitted like any write; an admitted one restarts the path's own transfer and no other. */
    method Begin(meta: Meta, totalChunks: nat, actionMs: Option<nat>)
      requires Valid() && Normal(meta.relPath)
      modifies this
      ensures Valid() && files == old(files) && manifest == old(manifest)
      ensures forall q :: q != meta.relPath ==> At(q) == old(At(q))
      ensures if VetoFor(old(ledger), meta.relPath, actionMs, meta.modifiedMs).Some?
              then At(meta.relPath) == old(At(meta.relPath)) && ledger == old(ledger)
              else At(meta.relPath) == Some(Started(meta, totalChunks, actionMs))
                   && At(meta.relPath).value.asm == Assembly(totalChunks, {}, meta.size, meta.modifiedMs, actionMs, None)
                   && |At(meta.relPath).value.staged| == meta.size
                   && ledger == AdmitRecord(old(ledger), meta.relPath, actionMs, meta.modifiedMs)
    {
      var p := meta.relPath;
      if VetoFor(ledger, p, actionMs, meta.modifiedMs).Some? {
        return;
      }
      ledger := AdmitRecord(ledger, p, actionMs, meta.modifiedMs);
      Put(p, Assembly(totalChunks, {}, meta.size, meta.modifiedMs, actionMs, None), seq(meta.size, _ => 0));
    }

    /** Write a transfer's record and staging file. */
    method Put(p: Path, asm: Assembly, bytes: Bytes)
      requires Valid() && Normal(p)
      modifies this`staging, this`inProgress
      ensures Valid() && At(p) == Some(Transfer(asm, bytes)) && forall q :: q != p ==> At(q) == old(At(q))
    {
      Apart(p);
      staging := staging[StagingName(h, p) := bytes];
      inProgress := inProgress[p := asm];
    }

    /** Take a transfer out, its staging file with it. */
    method TakeOut(p: Path) returns (t: Transfer)
      requires Valid() && p in inProgress
      modifies this`staging, this`inProgress
      ensures Valid() && Some(t) == old(At(p)) && At(p) == None && forall q :: q != p ==> At(q) == old(At(q))
    {
      Apart(p);
      var name := StagingName(h, p);
      t := Transfer(inProgress[p], staging[name]);
      inProgress := inProgress - {p};
      staging := staging - {name};
    }

    /** A chunk goes to its offset; the last missing one after the end marker asks for the commit. */
    method ReceiveChunk(p: Path, i: nat, data: Bytes) returns (r: ChunkResult)
      requires Valid()
      modifies this`staging, this`inProgress
      ensures Valid() && forall q :: q != p ==> At(q) == old(At(q))
      ensures At(p) == if old(At(p)).None? then None else Some(old(At(p)).value.Arrive(i, data))
      ensures r == if old(At(p)).Some? && At(p).value.asm.finalHash.Some? && At(p).value.Full()
                   then ReadyToCommit(At(p).value.asm.finalHash.value) else Pending
    {
      if p !in inProgress {
        return Pending;
      }
      var asm := inProgress[p];
      asm := asm.(received := asm.received + {i});
      Put(p, asm, WriteAt(staging[StagingName(h, p)], i * FILE_CHUNK_SIZE, data));
      if asm.finalHash.Some? && |asm.received| == asm.totalChunks {
        return ReadyToCommit(asm.finalHash.value);
      }
      r := Pending;
    }

    /** The end marker: the missing indices in order, or the commit. */
    method Finish(p: Path, hash: Digest) returns (r: FinishResult)
      requires Valid()
      modifies this
      ensures Valid() && forall q :: q != p ==> At(q) == old(At(q))
      ensures var was := old(At(p));
              if was.None? then r == Committed && State() == old(State()) && At(p) == None
              else if |was.value.asm.received| < was.value.asm.totalChunks then
                && r.MissingChunks? && State() == old(State())
                && At(p) == Some(was.value.(asm := was.value.asm.(finalHash := Some(hash))))
                && (forall i :: i in r.indices <==> 0 <= i < was.value.asm.totalChunks && i !in was.value.asm.received)
                && (forall a, b :: 0 <= a < b < |r.indices| ==> r.indices[a] < r.indices[b])
              else
                && At(p) == None && Settles(old(State()), State(), p, was.value, hash, r)
    {
      if p !in inProgress {
        return Committed;
      }
      var asm := inProgress[p];
      if |asm.received| < asm.totalChunks {
        var missing := Missing(asm);
        inProgress := inProgress[p := asm.(finalHash := Some(hash))];
        return MissingChunks(missing);
      }
      r := Commit(p, hash);
    }

    method Missing(asm: Assembly) returns (out: seq<nat>)
      ensures forall i :: i in out <==> 0 <= i < asm.totalChunks && i !in asm.received
      ensures forall a, b :: 0 <= a < b < |out| ==> out[a] < out[b]
    {
      out := [];
      for i := 0 to asm.totalChunks
        invariant forall k :: k in out <==> 0 <= k < i && k !in asm.received
        invariant forall a, b :: 0 <= a < b < |out| ==> out[a] < out[b]
      {
        if i !in asm.received {
          assert forall a :: 0 <= a < |out| ==> out[a] in out;
          out := out + [i];
        }
      }
    }

    /**
     The destination changes only to bytes with the announced digest; a refused or corrupt transfer
     leaves it alone. Either way the transfer is over and its staging file gone.
     */
    method Commit(p: Path, hash: Digest) returns (r: FinishResult)
      requires Valid()
      modifies this
      ensures Valid() && At(p) == None && (forall q :: q != p ==> At(q) == old(At(q)))
      ensures !r.MissingChunks?
      ensures old(At(p)).None? ==> r == Committed && State() == old(State())
      ensures old(At(p)).Some? ==> Settles(old(State()), State(), p, old(At(p)).value, hash, r)
    {
      if p !in inProgress {
        return Committed;
      }
      var t := TakeOut(p);
      var asm := t.asm;
      if VetoFor(ledger, p, asm.actionMs, asm.modifiedMs).Some? {
        return Committed;
      }
      ledger := AdmitRecord(ledger, p, asm.actionMs, asm.modifiedMs);
      if digest(t.staged) != hash {
        return HashMismatch;
      }
      files := files[p := t.staged];
      manifest := manifest[p := Meta(p, asm.fileSize, hash, asm.modifiedMs, false)];
      r := Committed;
    }

    lemma Apart(p: Path)
      requires Valid() && Normal(p)
      ensures forall q :: q in inProgress && StagingName(h, q) == StagingName(h, p) ==> q == p
    {
      forall q | q in inProgress && StagingName(h, q) == StagingName(h, p)
        ensures q == p
      {
        StagingApart(h, p, q);
      }
    }
  }

  /** What a receiver holds at one path, as a phase of the transfer. */
  ghost predicate Holds(s: TransferStore, p: Path, ph: Phase)
    requires s.Valid()
    reads s
  {
    match ph
    case Open(t) => s.At(p) == Some(t)
    case Mismatch => s.At(p) == None
    case Refused => s.At(p) == None
    case Complete(bytes) => s.At(p) == None && p in s.files && s.files[p] == bytes
  }

  /** The tombstones veto the open transfer as they stand. */
  ghost predicate Vetoed(l: Ledger, p: Path, ph: Phase) {
    ph.Open? && VetoFor(l, p, ph.t.asm.actionMs, ph.t.asm.modifiedMs).Some?
  }

  /** No other transfer is touched; files change exactly where this message committed one. */
  twostate predicate OnlyAt(s: TransferStore, p: Path, was: Phase, now: Phase)
    requires old(s.Valid()) && s.Valid()
    reads s
  {
    && (forall q :: q != p ==> s.At(q) == old(s.At(q)))
    && s.files == if was.Open? && now.Complete? then old(s.files)[p := now.bytes] else old(s.files)
  }

  /** The receive loop on an end marker. */
  method HandleEnd(s: TransferStore, p: Path, content: Bytes, ghost ph: Phase)
    requires s.Valid() && Holds(s, p, ph)
    modifies s
    ensures s.Valid()
    ensures var now := Next(s.digest, content, ph, Ends, Vetoed(old(s.ledger), p, ph));
            Holds(s, p, now) && OnlyAt(s, p, ph, now)
  {
    var _ := s.Finish(p, s.digest(content));
  }

  /** The receive loop on a chunk; the one that completes a finished transfer commits it. */
  method HandleChunk(s: TransferStore, p: Path, content: Bytes, i: nat, ghost ph: Phase)
    requires s.Valid() && Holds(s, p, ph)
    modifies s
    ensures s.Valid()
    ensures var now := Next(s.digest, content, ph, Arrives(i), Vetoed(old(s.ledger), p, ph));
            Holds(s, p, now) && OnlyAt(s, p, ph, now)
  {
    var data := ReadChunk(content, i);
    if data.Some? {
      assert data.value == Chunk(content, i);
      var r := s.ReceiveChunk(p, i, data.value);
      if r.ReadyToCommit? {
        var _ := s.Commit(p, r.hash);
      }
    }
  }
}
