/** Size-rotated log files and what is left of everything written. */
module Rotation {
  import opened Wrappers
  import opened Digests

  type Record = seq<Byte>

  /** Log files by number: 0 is the active file, `n` the file `name.n`. A file is the records appended to it. */
  type Files = map<nat, seq<Record>>

  function Contents(files: Files, n: nat): seq<Record> {
    if n in files then files[n] else []
  }

  function Size(records: seq<Record>): nat {
    if records == [] then 0 else Size(records[..|records| - 1]) + |records[|records| - 1]|
  }

  /** Files `n` down to 0, oldest record first. */
  function OnDisk(files: Files, n: nat): seq<Record> {
    Contents(files, n) + if n == 0 then [] else OnDisk(files, n - 1)
  }

  ghost predicate IsSuffix<T(!new)>(part: seq<T>, whole: seq<T>) {
    exists dropped :: whole == dropped + part
  }

  function Lookup(files: Files, n: nat): Option<seq<Record>> {
    if n in files then Some(files[n]) else None
  }

  /** File `n` once the files from number `low` on have moved up by one; what would pass `maxFiles` is dropped. */
  function Shifted(files: Files, maxFiles: nat, low: nat, n: nat): Option<seq<Record>> {
    if n < low then Lookup(files, n) else if low < n <= maxFiles then Lookup(files, n - 1) else None
  }

  ghost predicate IsShifted(after: Files, files: Files, maxFiles: nat, low: nat) {
    forall n: nat :: Lookup(after, n) == Shifted(files, maxFiles, low, n)
  }

  class RotatingFile {
    const maxBytes: Option<nat>
    const maxFiles: nat
    var files: Files
    var openSize: Option<nat>
    ghost var written: seq<Record>

    ghost predicate Valid()
      reads this
    {
      && (forall n :: n in files ==> n <= maxFiles && Within(files[n]))
      && (openSize.Some? ==> 0 in files && openSize.value == Size(files[0]))
      && IsSuffix(OnDisk(files, maxFiles), written)
    }

    /** A file passes the limit only through a single non-empty record. */
    ghost predicate Within(records: seq<Record>) {
      maxBytes.Some? ==> Size(records) <= maxBytes.value || (records != [] && Size(records[..|records| - 1]) == 0)
    }

    predicate MustRotate(active: seq<Record>, need: nat) {
      maxBytes.Some? && Size(active) > 0 && Size(active) + need > maxBytes.value
    }

    /** The records an append of `need` bytes gives up: those of the oldest file, and only when it rotates. */
    function Lost(before: Files, need: nat): seq<Record> {
      if MustRotate(Contents(before, 0), need) then Contents(before, maxFiles) else []
    }

    constructor (maxBytes: Option<nat>, maxFiles: nat)
      ensures Valid() && files == map[] && written == [] && this.maxBytes == maxBytes && this.maxFiles == maxFiles
    {
      this.maxBytes, this.maxFiles := maxBytes, maxFiles;
      files, openSize, written := map[], None, [];
      new;
      NothingOnDisk(maxFiles);
      assert [] == [] + OnDisk(files, maxFiles);
    }

    method OpenAppend()
      modifies this`files, this`openSize
      ensures files == old(files)[0 := Contents(old(files), 0)] && openSize == Some(Size(files[0]))
    {
      if 0 !in files {
        files := files[0 := []];
      }
      openSize := Some(Size(files[0]));
      assert files == old(files)[0 := Contents(old(files), 0)];
    }

    /** Drop the last number, then move each file up, the highest first. */
    method RotateFiles()
      requires forall n :: n in files ==> n <= maxFiles
      modifies this`files
      ensures IsShifted(files, old(files), maxFiles, 0)
    {
      if maxFiles == 0 {
        files := files - {0};
        return;
      }
      files := files - {maxFiles};
      var i := maxFiles;
      while i > 0
        invariant 0 <= i <= maxFiles
        invariant IsShifted(files, old(files), maxFiles, i)
      {
        i := i - 1;
        ghost var before := files;
        assert Lookup(before, i) == Lookup(old(files), i) && Lookup(before, i + 1) == None;
        if i in files {
          files := files[i + 1 := files[i]] - {i};
        }
        assert forall n: nat :: n != i && n != i + 1 ==> Lookup(files, n) == Lookup(before, n);
      }
    }

    /** Close, rotate and start an empty active file. */
    method Reopen()
      requires forall n :: n in files ==> n <= maxFiles && Within(files[n])
      modifies this`files, this`openSize
      ensures openSize == Some(0) && 0 in files && files[0] == []
      ensures forall n :: n in files ==> n <= maxFiles && Within(files[n])
      ensures old(OnDisk(files, maxFiles)) == Contents(old(files), maxFiles) + OnDisk(files, maxFiles)
    {
      ghost var before := files;
      openSize := None;
      RotateFiles();
      assert forall n :: n in files ==> Lookup(files, n) == Shifted(before, maxFiles, 0, n);
      assert Lookup(files, 0) == None;
      RotateKeepsSuffix(before, files, maxFiles);
      OpenChangesNothing(files, maxFiles);
      OpenAppend();
    }

    /** Open the active file, rotating first when `need` more bytes would pass the limit. */
    method MakeRoom(need: nat)
      requires Valid()
      modifies this`files, this`openSize
      ensures openSize.Some? && 0 in files && openSize.value == Size(files[0])
      ensures forall n :: n in files ==> n <= maxFiles && Within(files[n])
      ensures old(OnDisk(files, maxFiles)) == Lost(old(files), need) + OnDisk(files, maxFiles)
      ensures maxBytes.Some? && Size(files[0]) > 0 ==> Size(files[0]) + need <= maxBytes.value
    {
      if openSize.None? {
        OpenChangesNothing(files, maxFiles);
        OpenAppend();
      }
      assert OnDisk(files, maxFiles) == old(OnDisk(files, maxFiles));
      assert Contents(files, 0) == Contents(old(files), 0) && Contents(files, maxFiles) == Contents(old(files), maxFiles);
      if maxBytes.Some? && openSize.value > 0 && openSize.value + need > maxBytes.value {
        Reopen();
      }
    }

    /**
     Append one record. What is on disk stays a suffix of everything written and ends with this
     record, and no file outgrows the limit but through a single record.
     */
    method WriteLine(line: Record)
      requires Valid()
      modifies this
      ensures Valid() && written == old(written) + [line]
      ensures Lost(old(files), |line|) + OnDisk(files, maxFiles) == old(OnDisk(files, maxFiles)) + [line]
      ensures maxBytes.None? || Size(Contents(old(files), 0)) == 0 || Size(Contents(old(files), 0)) + |line| <= maxBytes.value ==>
                OnDisk(files, maxFiles) == old(OnDisk(files, maxFiles)) + [line]
      ensures OnDisk(files, maxFiles) == old(OnDisk(files, maxFiles)) + [line] ||
              Contents(old(files), maxFiles) + OnDisk(files, maxFiles) == old(OnDisk(files, maxFiles)) + [line]
    {
      ghost var before := OnDisk(files, maxFiles);
      ghost var dropped := Lost(files, |line|);
      MakeRoom(|line|);
      ghost var kept := OnDisk(files, maxFiles);
      AppendLast(files, maxFiles, line);
      SizeAppended(files[0], line);
      SuffixGrows(written, before, dropped, kept, line);
      files := files[0 := files[0] + [line]];
      openSize := Some(openSize.value + |line|);
      written := written + [line];
    }
  }

  lemma SizeAppended(records: seq<Record>, line: Record)
    ensures (records + [line])[..|records|] == records && Size(records + [line]) == Size(records) + |line|
  {
    assert (records + [line])[..|records|] == records;
  }

  lemma SuffixGrows<T(!new)>(whole: seq<T>, part: seq<T>, dropped: seq<T>, kept: seq<T>, x: T)
    requires IsSuffix(part, whole) && part == dropped + kept
    ensures IsSuffix(kept + [x], whole + [x]) && dropped + (kept + [x]) == part + [x]
  {
    var older :| whole == older + part;
    assert whole + [x] == (older + dropped) + (kept + [x]);
  }

  lemma {:induction false} NothingOnDisk(n: nat)
    ensures OnDisk(map[], n) == []
  {
    if n > 0 {
      NothingOnDisk(n - 1);
    }
  }

  lemma {:induction false} OpenChangesNothing(files: Files, n: nat)
    ensures OnDisk(files[0 := Contents(files, 0)], n) == OnDisk(files, n)
  {
    if n > 0 {
      OpenChangesNothing(files, n - 1);
    }
  }

  lemma {:induction false} AppendLast(files: Files, n: nat, line: Record)
    requires 0 in files
    ensures OnDisk(files[0 := files[0] + [line]], n) == OnDisk(files, n) + [line]
  {
    if n > 0 {
      AppendLast(files, n - 1, line);
    }
  }

  /** A rotation loses the oldest file and nothing else. */
  lemma RotateKeepsSuffix(files: Files, after: Files, maxFiles: nat)
    requires IsShifted(after, files, maxFiles, 0)
    ensures OnDisk(files, maxFiles) == Contents(files, maxFiles) + OnDisk(after, maxFiles)
  {
    assert Lookup(after, 0) == None;
    if maxFiles > 0 {
      ShiftOnDisk(files, after, maxFiles, maxFiles);
    }
  }

  lemma {:induction false} ShiftOnDisk(files: Files, after: Files, maxFiles: nat, n: nat)
    requires IsShifted(after, files, maxFiles, 0) && 0 < n <= maxFiles
    ensures OnDisk(after, n) == OnDisk(files, n - 1)
  {
    assert Lookup(after, n) == Lookup(files, n - 1) && Lookup(after, 0) == None;
    if n > 1 {
      ShiftOnDisk(files, after, maxFiles, n - 1);
    }
  }
}
