/** The action journal as values: coalescing, acknowledgement, records and replay. */
module Journals {
  import opened Paths
  import opened Wrappers

  datatype Op = Upsert | Delete | Rename(to: Path)

  /** One pending user action; for a rename `path` is the source. */
  datatype Entry = Entry(seqNo: nat, op: Op, path: Path, actionMs: nat)

  type Entries = map<nat, Entry>

  datatype JournalState = JournalState(entries: Entries, acked: nat, nextSeq: nat) {
    ghost predicate Valid() {
      && acked < nextSeq
      && (forall s :: s in entries ==> entries[s].seqNo == s && acked < s < nextSeq)
      && (nextSeq - 1 == acked || nextSeq - 1 in entries)
    }
  }

  const FRESH := JournalState(map[], 0, 1)

  // ---- Coalescing ----

  /** What a delete of `p` leaves of the pending entry `v`. */
  function Cut(v: Entry, p: Path): Option<Entry> {
    match v.op
    case Upsert => if StartsWith(v.path, p) then None else Some(v)
    case Delete => if StartsWith(v.path, p) then None else Some(v)
    case Rename(to) =>
      var fromIn, toIn := StartsWith(v.path, p), StartsWith(to, p);
      if fromIn && toIn then None
      else if fromIn then Some(v.(op := Upsert, path := to))
      else if toIn then Some(v.(op := Delete))
      else Some(v)
  }

  /** What recording `new` leaves of the pending entry `v`. */
  function Leave(new_: Entry, v: Entry): Option<Entry> {
    match new_.op
    case Upsert => if v.path == new_.path && !v.op.Rename? then None else Some(v)
    case Delete => Cut(v, new_.path)
    case Rename(to) =>
      if (v.path == new_.path && v.op.Upsert?) || (v.path == to && !v.op.Rename?) then None else Some(v)
  }

  /** `v` is what became of the entry `e` after later entries coalesced it: itself, or one end of a rename. */
  predicate Worn(v: Entry, e: Entry) {
    v == e || (e.op.Rename? && (v == e.(op := Upsert, path := e.op.to) || v == e.(op := Delete)))
  }

  function Remaining(es: Entries, new_: Entry): Entries {
    map s | s in es && Leave(new_, es[s]).Some? :: Leave(new_, es[s]).value
  }

  function Coalesce(es: Entries, new_: Entry): Entries {
    Remaining(es, new_)[new_.seqNo := new_]
  }

  function ApplyEntry(st: JournalState, e: Entry): JournalState {
    JournalState(Coalesce(st.entries, e), st.acked, if st.nextSeq < e.seqNo + 1 then e.seqNo + 1 else st.nextSeq)
  }

  function AckLocal(st: JournalState, upto: nat): JournalState {
    JournalState(map s | s in st.entries && s > upto :: st.entries[s],
                 if st.acked < upto then upto else st.acked,
                 if st.nextSeq < upto + 1 then upto + 1 else st.nextSeq)
  }

  /** The paths an entry is about. */
  function Mentions(e: Entry): set<Path> {
    match e.op
    case Upsert => {e.path}
    case Delete => {e.path}
    case Rename(to) => {e.path, to}
  }

  /** Recording `e` speaks for the path `q`: exactly, or as a delete of a directory above it. */
  predicate SpeaksFor(e: Entry, q: Path) {
    match e.op
    case Upsert => q == e.path
    case Delete => StartsWith(q, e.path)
    case Rename(to) => q == e.path || q == to
  }

  /** Coalescing drops a mention only where the new action speaks for that path. */
  lemma LeaveKeepsOrSpeaks(new_: Entry, v: Entry, q: Path)
    requires q in Mentions(v)
    ensures (Leave(new_, v).Some? && q in Mentions(Leave(new_, v).value)) || SpeaksFor(new_, q)
    ensures Leave(new_, v).Some? ==> Mentions(Leave(new_, v).value) <= Mentions(v) && Leave(new_, v).value.seqNo == v.seqNo
  {
  }

  /** After a delete of `p`, nothing pending mentions `p` or anything below it, except that delete. */
  lemma DeleteClearsSubtree(es: Entries, d: Entry, s: nat, q: Path)
    requires d.op.Delete? && s in Coalesce(es, d) && s != d.seqNo && q in Mentions(Coalesce(es, d)[s])
    ensures !StartsWith(q, d.path)
  {
    assert s in es && Coalesce(es, d)[s] == Cut(es[s], d.path).value;
  }

  /** A pending upsert or delete of exactly `p`. */
  predicate Says(v: Entry, p: Path) {
    v.path == p && (v.op.Upsert? || v.op.Delete?)
  }

  /** The actions that recording `e` makes pointless. */
  predicate Outdates(e: Entry, v: Entry) {
    match e.op
    case Upsert => Says(v, e.path)
    case Delete => forall q :: q in Mentions(v) ==> StartsWith(q, e.path)
    case Rename(to) => (v.op.Upsert? && v.path == e.path) || Says(v, to)
  }

  /** A delete takes one end of the rename `v`. */
  predicate Halves(e: Entry, v: Entry) {
    e.op.Delete? && v.op.Rename? && StartsWith(v.path, e.path) != StartsWith(v.op.to, e.path)
  }

  /**
   Recording an action drops exactly the pending ones it makes pointless. A rename that loses its source is
   left as the upsert of its target, one that loses its target as the delete of its source, and every other
   entry stays as it is.
   */
  lemma CoalesceExact(es: Entries, e: Entry, s: nat)
    requires s in es && s != e.seqNo
    ensures e.seqNo in Coalesce(es, e) && Coalesce(es, e)[e.seqNo] == e
    ensures s in Coalesce(es, e) <==> !Outdates(e, es[s])
    ensures s in Coalesce(es, e) ==>
              Coalesce(es, e)[s] ==
              if !Halves(e, es[s]) then es[s]
              else if StartsWith(es[s].path, e.path) then Entry(es[s].seqNo, Upsert, es[s].op.to, es[s].actionMs)
              else Entry(es[s].seqNo, Delete, es[s].path, es[s].actionMs)
  {
    var v := es[s];
    assert v.path in Mentions(v);
    if v.op.Rename? {
      assert v.op.to in Mentions(v);
    }
  }

  /** What is recorded is said once: after an upsert or delete nothing else says anything of that path, after a rename nothing of its target and no upsert of its source. */
  lemma SaidOnce(es: Entries, e: Entry, s: nat)
    requires s in Coalesce(es, e) && s != e.seqNo
    ensures !e.op.Rename? ==> !Says(Coalesce(es, e)[s], e.path)
    ensures e.op.Rename? ==> !Says(Coalesce(es, e)[s], e.op.to)
    ensures e.op.Rename? ==> !(Coalesce(es, e)[s].op.Upsert? && Coalesce(es, e)[s].path == e.path)
  {
    CoalesceExact(es, e, s);
  }

  // ---- Records on disk ----

  datatype Line =
    | AckLine(ack: nat)
    | EntryLine(seqNo: nat, op: string, path: Path, to: Option<Path>, actionMs: nat)

  function ToLine(e: Entry): Line {
    match e.op
    case Upsert => EntryLine(e.seqNo, "upsert", e.path, None, e.actionMs)
    case Delete => EntryLine(e.seqNo, "delete", e.path, None, e.actionMs)
    case Rename(to) => EntryLine(e.seqNo, "rename", e.path, Some(to), e.actionMs)
  }

  /** A record with an unknown operation, or a rename without a target, is damage. */
  function FromLine(l: Line): Option<Entry>
    requires l.EntryLine?
  {
    if l.op == "upsert" then Some(Entry(l.seqNo, Upsert, l.path, l.actionMs))
    else if l.op == "delete" then Some(Entry(l.seqNo, Delete, l.path, l.actionMs))
    else if l.op == "rename" && l.to.Some? then Some(Entry(l.seqNo, Rename(l.to.value), l.path, l.actionMs))
    else None
  }

  /** Nothing else is read: a record that reads as `e` names its operation and carries its fields. */
  lemma LineReadsAs(l: Line, e: Entry)
    requires l.EntryLine? && FromLine(l) == Some(e)
    ensures ToLine(e).op == l.op && l.seqNo == e.seqNo && l.path == e.path && l.actionMs == e.actionMs
    ensures e.op.Rename? ==> l.to == Some(e.op.to)
  {
  }

  lemma LineRoundTrip(e: Entry)
    ensures FromLine(ToLine(e)) == Some(e)
  {
  }

  function ApplyLine(st: JournalState, l: Line): JournalState {
    if l.AckLine? then AckLocal(st, l.ack)
    else if FromLine(l).Some? then ApplyEntry(st, FromLine(l).value)
    else st
  }

  function Replay(lines: seq<Line>): JournalState {
    if lines == [] then FRESH else ApplyLine(Replay(lines[..|lines| - 1]), lines[|lines| - 1])
  }

  lemma ReplaySnoc(lines: seq<Line>, l: Line)
    ensures Replay(lines + [l]) == ApplyLine(Replay(lines), l)
  {
    assert (lines + [l])[..|lines|] == lines;
  }

  predicate HasUpsert(es: Entries, p: Path) {
    exists s :: s in es && es[s].path == p && es[s].op.Upsert?
  }

  // ---- Listing and rewriting ----

  ghost predicate Numbered(es: Entries) {
    forall s :: s in es ==> es[s].seqNo == s
  }

  ghost predicate Ascending(xs: seq<Entry>) {
    forall i, j :: 0 <= i < j < |xs| ==> xs[i].seqNo < xs[j].seqNo
  }

  /** `xs` lists the pending entries in sequence order. */
  ghost predicate Listing(xs: seq<Entry>, es: Entries) {
    && Ascending(xs)
    && (forall i :: 0 <= i < |xs| ==> xs[i].seqNo in es && es[xs[i].seqNo] == xs[i])
    && (forall s :: s in es ==> es[s] in xs)
  }

  function Lines(xs: seq<Entry>): seq<Line> {
    if xs == [] then [] else Lines(xs[..|xs| - 1]) + [ToLine(xs[|xs| - 1])]
  }

  /** The rewritten file: the acknowledged mark, then the pending entries. */
  function Compacted(acked: nat, xs: seq<Entry>): seq<Line> {
    (if acked > 0 then [AckLine(acked)] else []) + Lines(xs)
  }
}
