/** The two writers of the shared config file: each replaces its own sections and leaves the rest alone. */
module ConfigSplice {

  /** A config file as its lines. */
  type Doc = seq<string>

  // ---- Trimming ----

  predicate IsSpace(c: char) {
    || c == ' ' || '\t' <= c <= '\r' || c == '\U{85}' || c == '\U{A0}' || c == '\U{1680}' || '\U{2000}' <= c <= '\U{200A}'
    || c == '\U{2028}' || c == '\U{2029}' || c == '\U{202F}' || c == '\U{205F}' || c == '\U{3000}'
  }

  function TrimStart(s: string): string {
    if s != "" && IsSpace(s[0]) then TrimStart(s[1..]) else s
  }

  function TrimEnd(s: string): string {
    if s != "" && IsSpace(s[|s| - 1]) then TrimEnd(s[..|s| - 1]) else s
  }

  function Trim(s: string): string {
    TrimStart(TrimEnd(s))
  }

  lemma {:induction false} TrimEndAgain(s: string)
    ensures TrimEnd(TrimEnd(s)) == TrimEnd(s)
  {
    if s != "" && IsSpace(s[|s| - 1]) {
      TrimEndAgain(s[..|s| - 1]);
    }
  }

  lemma {:induction false} TrimStartFirst(s: string)
    ensures Trim(TrimStart(s)) == Trim(s)
  {
    if s != "" && IsSpace(s[0]) {
      TrimStartFirst(s[1..]);
      OneSpaceFirst(s);
    }
  }

  /** A leading space does not survive trimming. */
  lemma {:induction false} OneSpaceFirst(s: string)
    requires s != "" && IsSpace(s[0])
    ensures Trim(s[1..]) == Trim(s)
  {
    if |s| > 1 && IsSpace(s[|s| - 1]) {
      OneSpaceFirst(s[..|s| - 1]);
      assert s[..|s| - 1][1..] == s[1..][..|s| - 2];
    } else if |s| > 1 {
      assert s[1..][|s| - 2] == s[|s| - 1];
      assert TrimEnd(s[1..]) == s[1..] && TrimEnd(s) == s;
    } else {
      assert TrimEnd(s) == TrimEnd(s[..0]) == "";
      assert s[1..] == "";
    }
  }

  // ---- Lines ----

  datatype Kind = Blank | Comment | ArrayHeader(name: string) | TableHeader | Text

  predicate StartsArray(t: string) {
    |t| >= 2 && t[0] == '[' && t[1] == '['
  }

  predicate EndsArray(t: string) {
    |t| >= 2 && t[|t| - 2] == ']' && t[|t| - 1] == ']'
  }

  function Lower(s: string): string {
    if s == "" then "" else [if 'A' <= s[0] <= 'Z' then (s[0] as int + 32) as char else s[0]] + Lower(s[1..])
  }

  /** What a line is, by its trimmed form. A header needs its closing brackets at the very end. */
  function Classify(line: string): Kind {
    var t := Trim(line);
    if StartsArray(t) && EndsArray(t) then
      assert |t| >= 4 by {
        assert t[0] != t[|t| - 2] && t[1] != t[|t| - 2];
      }
      ArrayHeader(Lower(Trim(t[2..|t| - 2])))
    else if t != "" && t[0] == '[' && !StartsArray(t) then TableHeader
    else if t == "" then Blank
    else if t[0] == '#' then Comment
    else Text
  }

  predicate Silent(line: string) {
    Classify(line).Blank? || Classify(line).Comment?
  }

  // ---- What a document says: its lines with the section each stands in ----

  datatype Section = Root | Table(title: string) | Array(name: string)

  function Enter(s: Section, line: string): Section {
    match Classify(line)
    case ArrayHeader(name) => Array(name)
    case TableHeader => Table(Trim(line))
    case _ => s
  }

  function Ending(s: Section, doc: Doc): Section {
    if doc == [] then s else Enter(Ending(s, doc[..|doc| - 1]), doc[|doc| - 1])
  }

  datatype Entry = Entry(section: Section, text: string)

  /** The trimmed lines other than blank ones and comments, in order. */
  function Entries(s: Section, doc: Doc): seq<Entry> {
    if doc == [] then []
    else
      var init, last := doc[..|doc| - 1], doc[|doc| - 1];
      Entries(s, init) + if Silent(last) then [] else [Entry(Enter(Ending(s, init), last), Trim(last))]
  }

  lemma {:induction false} EntriesConcat(s: Section, a: Doc, b: Doc)
    ensures Ending(s, a + b) == Ending(Ending(s, a), b)
    ensures Entries(s, a + b) == Entries(s, a) + Entries(Ending(s, a), b)
  {
    if b == [] {
      assert a + b == a;
    } else {
      assert (a + b)[..|a + b| - 1] == a + b[..|b| - 1];
      EntriesConcat(s, a, b[..|b| - 1]);
    }
  }

  lemma OneLine(s: Section, line: string)
    ensures Ending(s, [line]) == Enter(s, line)
    ensures Entries(s, [line]) == if Silent(line) then [] else [Entry(Enter(s, line), Trim(line))]
  {
    assert [line][..0] == [];
  }

  lemma {:induction false} SilentLines(s: Section, doc: Doc)
    requires forall line :: line in doc ==> Silent(line)
    ensures Ending(s, doc) == s && Entries(s, doc) == []
  {
    if doc != [] {
      assert doc[|doc| - 1] in doc;
      SilentLines(s, doc[..|doc| - 1]);
    }
  }

  function Mine(owns: set<string>, e: Entry): bool {
    e.section.Array? && e.section.name in owns
  }

  function Own(es: seq<Entry>, owns: set<string>): seq<Entry> {
    if es == [] then []
    else Own(es[..|es| - 1], owns) + if Mine(owns, es[|es| - 1]) then [es[|es| - 1]] else []
  }

  function Foreign(es: seq<Entry>, owns: set<string>): seq<Entry> {
    if es == [] then []
    else Foreign(es[..|es| - 1], owns) + if Mine(owns, es[|es| - 1]) then [] else [es[|es| - 1]]
  }

  lemma {:induction false} SplitConcat(a: seq<Entry>, b: seq<Entry>, owns: set<string>)
    ensures Own(a + b, owns) == Own(a, owns) + Own(b, owns)
    ensures Foreign(a + b, owns) == Foreign(a, owns) + Foreign(b, owns)
  {
    if b == [] {
      assert a + b == a;
    } else {
      assert (a + b)[..|a + b| - 1] == a + b[..|b| - 1];
      SplitConcat(a, b[..|b| - 1], owns);
    }
  }

  lemma {:induction false} AllOwn(es: seq<Entry>, owns: set<string>)
    requires forall e :: e in es ==> Mine(owns, e)
    ensures Own(es, owns) == es && Foreign(es, owns) == []
  {
    if es != [] {
      AllOwn(es[..|es| - 1], owns);
      assert es == es[..|es| - 1] + [es[|es| - 1]];
    }
  }

  lemma {:induction false} AllForeign(es: seq<Entry>, owns: set<string>)
    requires forall e :: e in es ==> !Mine(owns, e)
    ensures Own(es, owns) == [] && Foreign(es, owns) == es
  {
    if es != [] {
      AllForeign(es[..|es| - 1], owns);
      assert es == es[..|es| - 1] + [es[|es| - 1]];
    }
  }

  lemma {:induction false} SplitMembers(es: seq<Entry>, owns: set<string>)
    ensures forall e :: e in Foreign(es, owns) ==> !Mine(owns, e)
    ensures forall e :: e in Own(es, owns) ==> Mine(owns, e)
  {
    if es != [] {
      SplitMembers(es[..|es| - 1], owns);
    }
  }

  // ---- Splicing ----

  lemma OneMore(s: Section, doc: Doc, line: string)
    ensures Ending(s, doc + [line]) == Enter(Ending(s, doc), line)
    ensures Entries(s, doc + [line]) ==
            if Silent(line) then Entries(s, doc) else Entries(s, doc) + [Entry(Enter(Ending(s, doc), line), Trim(line))]
  {
    assert (doc + [line])[..|doc|] == doc;
  }

  lemma ForeignOneMore(es: seq<Entry>, e: Entry, owns: set<string>)
    ensures Foreign(es + [e], owns) == if Mine(owns, e) then Foreign(es, owns) else Foreign(es, owns) + [e]
  {
    assert (es + [e])[..|es|] == es;
  }

  /** The document says the same wherever it stands. */
  ghost predicate Standalone(doc: Doc) {
    forall s :: Entries(s, doc) == Entries(Root, doc)
  }

  ghost predicate Closes(doc: Doc, sec: Section) {
    forall s :: Ending(s, doc) == sec
  }

  predicate InOwn(owns: set<string>, sec: Section) {
    sec.Array? && sec.name in owns
  }

  /** Lines kept from a document: before its first own section, and after it. */
  datatype Parts = Parts(before: Doc, after: Doc)

  /** What the loop has done with the lines `seen` so far. */
  ghost predicate Sorted(owns: set<string>, seen: Doc, parts: Parts, found: bool) {
    && Standalone(parts.after)
    && Foreign(Entries(Root, seen), owns) == Entries(Root, parts.before) + Entries(Root, parts.after)
    && (!found ==> parts == Parts(seen, []) && !InOwn(owns, Ending(Root, seen)))
    && (found && !InOwn(owns, Ending(Root, seen)) ==> Closes(parts.after, Ending(Root, seen)))
  }

  /** A line of an own section, or a blank or comment kept back, adds nothing. */
  lemma DropLine(owns: set<string>, seen: Doc, parts: Parts, found: bool, line: string)
    requires Sorted(owns, seen, parts, found)
    requires InOwn(owns, Enter(Ending(Root, seen), line))
    ensures Sorted(owns, seen + [line], parts, true)
  {
    OneMore(Root, seen, line);
    if !Silent(line) {
      ForeignOneMore(Entries(Root, seen), Entry(Enter(Ending(Root, seen), line), Trim(line)), owns);
    }
  }

  /** Before the first own section every line is kept as it is. */
  lemma KeepBefore(owns: set<string>, seen: Doc, parts: Parts, line: string)
    requires Sorted(owns, seen, parts, false) && !InOwn(owns, Enter(Ending(Root, seen), line))
    ensures Sorted(owns, seen + [line], parts.(before := parts.before + [line]), false)
  {
    OneMore(Root, seen, line);
    assert Entries(Root, seen) + Entries(Root, []) == Entries(Root, seen);
    if !Silent(line) {
      var e := Entry(Enter(Ending(Root, seen), line), Trim(line));
      ForeignOneMore(Entries(Root, seen), e, owns);
      assert Entries(Root, seen + [line]) + Entries(Root, []) == Entries(Root, seen) + [e];
    }
  }

  /** After silent lines, a line whose section does not depend on what came before keeps the tail standalone. */
  lemma TailGrows(tail: Doc, pending: Doc, line: string, sec: Section)
    requires Standalone(tail) && forall l :: l in pending ==> Silent(l)
    requires forall s :: Enter(Ending(s, tail), line) == sec
    ensures Standalone(tail + pending + [line]) && Closes(tail + pending + [line], sec)
    ensures Entries(Root, tail + pending + [line]) ==
            if Silent(line) then Entries(Root, tail) else Entries(Root, tail) + [Entry(sec, Trim(line))]
  {
    forall s
      ensures Ending(s, tail + pending + [line]) == sec
      ensures Entries(s, tail + pending + [line]) ==
              if Silent(line) then Entries(Root, tail) else Entries(Root, tail) + [Entry(sec, Trim(line))]
    {
      EntriesConcat(s, tail, pending);
      SilentLines(Ending(s, tail), pending);
      OneMore(s, tail + pending, line);
    }
  }

  predicate IsHeader(line: string) {
    Classify(line).ArrayHeader? || Classify(line).TableHeader?
  }

  predicate IsOwnHeader(owns: set<string>, line: string) {
    Classify(line).ArrayHeader? && Classify(line).name in owns
  }

  lemma Entering(owns: set<string>, s: Section, line: string)
    ensures InOwn(owns, Enter(s, line)) <==> IsOwnHeader(owns, line) || (InOwn(owns, s) && !IsHeader(line))
  {
  }

  lemma SameEntry(tail: Doc, sec: Section, line: string)
    requires IsHeader(line) || Closes(tail, sec)
    ensures forall s :: Enter(Ending(s, tail), line) == Enter(sec, line)
  {
  }

  /** After the first own section a foreign line goes to the tail, behind the lines kept back. */
  lemma KeepAfter(owns: set<string>, seen: Doc, parts: Parts, line: string, pending: Doc)
    requires Sorted(owns, seen, parts, true) && !InOwn(owns, Enter(Ending(Root, seen), line))
    requires forall l :: l in pending ==> Silent(l)
    requires !InOwn(owns, Ending(Root, seen)) || IsHeader(line)
    ensures Sorted(owns, seen + [line], parts.(after := parts.after + pending + [line]), true)
  {
    var sec := Enter(Ending(Root, seen), line);
    OneMore(Root, seen, line);
    SameEntry(parts.after, Ending(Root, seen), line);
    TailGrows(parts.after, pending, line, sec);
    if !Silent(line) {
      var e := Entry(sec, Trim(line));
      ForeignOneMore(Entries(Root, seen), e, owns);
      BehindBoth(Entries(Root, parts.before), Entries(Root, parts.after), e);
    }
  }

  lemma BehindBoth(b: seq<Entry>, a: seq<Entry>, e: Entry)
    ensures (b + a) + [e] == b + (a + [e])
  {
  }

  /** The loop's variables. */
  datatype Cursor = Cursor(parts: Parts, pending: Doc, found: bool, inOwn: bool)

  ghost predicate Follows(owns: set<string>, seen: Doc, c: Cursor) {
    && c.inOwn == InOwn(owns, Ending(Root, seen))
    && (forall l :: l in c.pending ==> Silent(l)) && (!c.inOwn ==> c.pending == [])
    && Sorted(owns, seen, c.parts, c.found)
  }

  // ---- The lines that stay, blank ones and comments included ----

  /** The first line from `n` on that says something stands outside the writer's sections. */
  ghost predicate NextForeign(owns: set<string>, doc: Doc, n: nat) {
    exists j :: n <= j < |doc| && FirstSaid(doc, n, j) && !InOwn(owns, Ending(Root, doc[..j + 1]))
  }

  predicate FirstSaid(doc: Doc, n: nat, j: nat)
    requires j < |doc|
  {
    !Silent(doc[j]) && forall i :: n <= i < j ==> Silent(doc[i])
  }

  /**
   A line that says something stays if it stands outside the writer's sections. A blank line or comment stays
   there too, and inside one of the sections if the next thing said stands outside.
   */
  ghost predicate Stays(owns: set<string>, doc: Doc, i: nat)
    requires i < |doc|
  {
    !InOwn(owns, Ending(Root, doc[..i + 1])) || (Silent(doc[i]) && NextForeign(owns, doc, i + 1))
  }

  /** The lines among the first `n` that stay, in order. */
  ghost function Staying(owns: set<string>, doc: Doc, n: nat): Doc
    requires n <= |doc|
  {
    if n == 0 then [] else Staying(owns, doc, n - 1) + if Stays(owns, doc, n - 1) then [doc[n - 1]] else []
  }

  /** The loop has set aside the lines that stay, except those whose fate is still open. */
  ghost predicate Retains(owns: set<string>, doc: Doc, n: nat, c: Cursor)
    requires n <= |doc|
  {
    && (!c.found ==> c.parts.after == []) && (!c.inOwn ==> c.pending == []) && (c.inOwn ==> c.found)
    && Staying(owns, doc, n) == c.parts.before + c.parts.after + if c.inOwn && NextForeign(owns, doc, n) then c.pending else []
  }

  /** A blank line or comment leaves open what comes next; any other line decides it. */
  lemma NextDecided(owns: set<string>, doc: Doc, n: nat)
    requires n < |doc|
    ensures Silent(doc[n]) ==> (NextForeign(owns, doc, n) <==> NextForeign(owns, doc, n + 1))
    ensures !Silent(doc[n]) ==> (NextForeign(owns, doc, n) <==> !InOwn(owns, Ending(Root, doc[..n + 1])))
  {
    if Silent(doc[n]) {
      NextShifts(owns, doc, n);
    } else {
      assert FirstSaid(doc, n, n);
    }
  }

  lemma NextShifts(owns: set<string>, doc: Doc, n: nat)
    requires n < |doc| && Silent(doc[n])
    ensures NextForeign(owns, doc, n) <==> NextForeign(owns, doc, n + 1)
  {
    forall j | n < j < |doc|
      ensures FirstSaid(doc, n, j) <==> FirstSaid(doc, n + 1, j)
    {
    }
    if NextForeign(owns, doc, n) {
      var j :| n <= j < |doc| && FirstSaid(doc, n, j) && !InOwn(owns, Ending(Root, doc[..j + 1]));
      assert FirstSaid(doc, n + 1, j);
    }
    if NextForeign(owns, doc, n + 1) {
      var j :| n + 1 <= j < |doc| && FirstSaid(doc, n + 1, j) && !InOwn(owns, Ending(Root, doc[..j + 1]));
      assert FirstSaid(doc, n, j);
    }
  }

  lemma NothingNext(owns: set<string>, doc: Doc)
    ensures !NextForeign(owns, doc, |doc|)
  {
  }

  /** A line of an own section, or an own header: kept back if it is silent, else dropped with what was kept back. */
  lemma RetainsOwn(owns: set<string>, doc: Doc, n: nat, c: Cursor, r: Cursor)
    requires n < |doc| && Retains(owns, doc, n, c) && InOwn(owns, Ending(Root, doc[..n + 1]))
    requires r == Cursor(c.parts, if Silent(doc[n]) then c.pending + [doc[n]] else [], true, true)
    requires Silent(doc[n]) ==> c.inOwn
    ensures Retains(owns, doc, n + 1, r)
  {
    NextDecided(owns, doc, n);
  }

  /** A line outside: set aside behind what was kept back. */
  lemma RetainsForeign(owns: set<string>, doc: Doc, n: nat, c: Cursor, r: Cursor)
    requires n < |doc| && Retains(owns, doc, n, c) && !InOwn(owns, Ending(Root, doc[..n + 1])) && (c.inOwn ==> !Silent(doc[n]))
    requires r.pending == [] && !r.inOwn && r.found == c.found
    requires r.parts == if c.found then c.parts.(after := c.parts.after + c.pending + [doc[n]])
                        else c.parts.(before := c.parts.before + c.pending + [doc[n]])
    ensures Retains(owns, doc, n + 1, r)
  {
    NextDecided(owns, doc, n);
    assert Stays(owns, doc, n) && (c.inOwn ==> NextForeign(owns, doc, n));
    assert Staying(owns, doc, n) == c.parts.before + c.parts.after + c.pending by {
      assert !c.inOwn ==> c.pending == [];
    }
    BehindPending(c.parts, c.pending, doc[n], c.found);
  }

  lemma BehindPending(parts: Parts, pending: Doc, line: string, found: bool)
    requires !found ==> parts.after == []
    ensures var r := if found then parts.(after := parts.after + pending + [line]) else parts.(before := parts.before + pending + [line]);
            r.before + r.after == parts.before + parts.after + pending + [line]
  {
  }

  /** One line: an own header or section line is dropped, blanks and comments there wait for what follows. */
  function SortLine(owns: set<string>, c: Cursor, line: string): Cursor {
    if IsOwnHeader(owns, line) then Cursor(c.parts, [], true, true)
    else if c.inOwn && !IsHeader(line) then c.(pending := if Silent(line) then c.pending + [line] else [])
    else if c.found then Cursor(c.parts.(after := c.parts.after + c.pending + [line]), [], true, false)
    else Cursor(c.parts.(before := c.parts.before + c.pending + [line]), [], false, false)
  }

  lemma SortFollows(owns: set<string>, c: Cursor, line: string, seen: Doc)
    requires Follows(owns, seen, c)
    ensures Follows(owns, seen + [line], SortLine(owns, c, line))
  {
    OneMore(Root, seen, line);
    Entering(owns, Ending(Root, seen), line);
    if IsOwnHeader(owns, line) || (c.inOwn && !IsHeader(line)) {
      DropLine(owns, seen, c.parts, c.found, line);
    } else if c.found {
      KeepAfter(owns, seen, c.parts, line, c.pending);
    } else {
      KeepBefore(owns, seen, c.parts, line);
      assert c.parts.before + c.pending == c.parts.before;
    }
  }

  lemma SortRetains(owns: set<string>, c: Cursor, doc: Doc, n: nat)
    requires n < |doc| && c.inOwn == InOwn(owns, Ending(Root, doc[..n])) && Retains(owns, doc, n, c)
    ensures Retains(owns, doc, n + 1, SortLine(owns, c, doc[n]))
  {
    assert doc[..n + 1][..n] == doc[..n];
    Entering(owns, Ending(Root, doc[..n]), doc[n]);
    if IsOwnHeader(owns, doc[n]) || (c.inOwn && !IsHeader(doc[n])) {
      RetainsOwn(owns, doc, n, c, SortLine(owns, c, doc[n]));
    } else {
      RetainsForeign(owns, doc, n, c, SortLine(owns, c, doc[n]));
    }
  }

  /** The loop over the lines: own sections are dropped, everything else is kept in order. */
  method SortLines(original: Doc, owns: set<string>) returns (parts: Parts)
    ensures Standalone(parts.after)
    ensures Foreign(Entries(Root, original), owns) == Entries(Root, parts.before) + Entries(Root, parts.after)
    ensures parts.before + parts.after == Staying(owns, original, |original|)
  {
    var c := Cursor(Parts([], []), [], false, false);
    for i := 0 to |original|
      invariant Follows(owns, original[..i], c) && Retains(owns, original, i, c)
    {
      SortStep(owns, c, original, i);
      c := SortLine(owns, c, original[i]);
    }
    SortEnds(owns, c, original);
    parts := c.parts;
  }

  lemma SortStep(owns: set<string>, c: Cursor, doc: Doc, n: nat)
    requires n < |doc| && Follows(owns, doc[..n], c) && Retains(owns, doc, n, c)
    ensures Follows(owns, doc[..n + 1], SortLine(owns, c, doc[n])) && Retains(owns, doc, n + 1, SortLine(owns, c, doc[n]))
  {
    assert doc[..n + 1] == doc[..n] + [doc[n]];
    SortFollows(owns, c, doc[n], doc[..n]);
    SortRetains(owns, c, doc, n);
  }

  lemma SortEnds(owns: set<string>, c: Cursor, doc: Doc)
    requires Follows(owns, doc[..|doc|], c) && Retains(owns, doc, |doc|, c)
    ensures Sorted(owns, doc, c.parts, c.found) && c.parts.before + c.parts.after == Staying(owns, doc, |doc|)
  {
    assert doc[..|doc|] == doc;
    NothingNext(owns, doc);
    assert c.parts.before + c.parts.after + [] == c.parts.before + c.parts.after;
  }

  // ---- Comments ----

  /** The comments of a document, trimmed, in order. */
  function Remarks(doc: Doc): seq<string> {
    if doc == [] then []
    else Remarks(doc[..|doc| - 1]) + if Classify(doc[|doc| - 1]).Comment? then [Trim(doc[|doc| - 1])] else []
  }

  lemma {:induction false} RemarksConcat(a: Doc, b: Doc)
    ensures Remarks(a + b) == Remarks(a) + Remarks(b)
  {
    if b == [] {
      assert a + b == a;
    } else {
      RemarksConcat(a, b[..|b| - 1]);
      assert (a + b)[..|a + b| - 1] == a + b[..|b| - 1];
    }
  }

  lemma OneRemark(line: string)
    ensures Remarks([line]) == if Classify(line).Comment? then [Trim(line)] else []
  {
    assert [line][..0] == [];
  }

  function TrimEndDoc(doc: Doc): Doc {
    if doc == [] then []
    else if Trim(doc[|doc| - 1]) == "" then TrimEndDoc(doc[..|doc| - 1])
    else doc[..|doc| - 1] + [TrimEnd(doc[|doc| - 1])]
  }

  function TrimStartDoc(doc: Doc): Doc {
    if doc == [] then []
    else if Trim(doc[0]) == "" then TrimStartDoc(doc[1..])
    else [TrimStart(doc[0])] + doc[1..]
  }

  /** A line that ends the text with a newline of its own is not counted again. */
  function DropLastEmpty(doc: Doc): Doc {
    if doc != [] && doc[|doc| - 1] == "" then doc[..|doc| - 1] else doc
  }

  /** The head, with a blank line behind it if something is to follow. */
  function WithGap(head: Doc, gap: bool): Doc {
    if gap then head + [""] else head
  }

  function Spaced(head: Doc, gap: bool, tail: Doc): Doc {
    WithGap(head, gap) + tail
  }

  /** The new text: kept head, fresh sections, kept tail, set apart by blank lines. */
  function Assemble(parts: Parts, update: Doc): Doc {
    var b, f, a := TrimEndDoc(parts.before), TrimEndDoc(update), DropLastEmpty(TrimStartDoc(parts.after));
    var head := Spaced(b, f != [], f);
    Spaced(head, if a == [] then head == [] else f != [] || b == [], a)
  }

  lemma SameTrim(a: string, b: string)
    requires Trim(a) == Trim(b)
    ensures Classify(a) == Classify(b) && Silent(a) == Silent(b) && forall s :: Enter(s, a) == Enter(s, b)
  {
  }

  lemma {:induction false} TrimEndDocSame(s: Section, doc: Doc)
    ensures Entries(s, TrimEndDoc(doc)) == Entries(s, doc) && Ending(s, TrimEndDoc(doc)) == Ending(s, doc)
  {
    if doc != [] {
      var init, last := doc[..|doc| - 1], doc[|doc| - 1];
      if Trim(last) == "" {
        TrimEndDocSame(s, init);
      } else {
        assert doc == init + [last];
        TrimEndAgain(last);
        SameTrim(last, TrimEnd(last));
        OneMore(s, init, last);
        OneMore(s, init, TrimEnd(last));
      }
    }
  }

  lemma {:induction false} TrimStartDocSame(s: Section, doc: Doc)
    ensures Entries(s, TrimStartDoc(doc)) == Entries(s, doc) && Ending(s, TrimStartDoc(doc)) == Ending(s, doc)
  {
    if doc != [] {
      var first, rest := doc[0], doc[1..];
      assert doc == [first] + rest;
      EntriesConcat(s, [first], rest);
      OneLine(s, first);
      if Trim(first) == "" {
        TrimStartDocSame(s, rest);
      } else {
        TrimStartFirst(first);
        SameTrim(first, TrimStart(first));
        EntriesConcat(s, [TrimStart(first)], rest);
        OneLine(s, TrimStart(first));
      }
    }
  }

  lemma {:induction false} TrimEndDocRemarks(doc: Doc)
    ensures Remarks(TrimEndDoc(doc)) == Remarks(doc)
  {
    if doc != [] {
      var init, last := doc[..|doc| - 1], doc[|doc| - 1];
      if Trim(last) == "" {
        TrimEndDocRemarks(init);
      } else {
        assert doc == init + [last];
        TrimEndAgain(last);
        SameTrim(last, TrimEnd(last));
        RemarksConcat(init, [last]);
        RemarksConcat(init, [TrimEnd(last)]);
        OneRemark(last);
        OneRemark(TrimEnd(last));
      }
    }
  }

  lemma {:induction false} TrimStartDocRemarks(doc: Doc)
    ensures Remarks(TrimStartDoc(doc)) == Remarks(doc)
  {
    if doc != [] {
      var first, rest := doc[0], doc[1..];
      assert doc == [first] + rest;
      RemarksConcat([first], rest);
      OneRemark(first);
      if Trim(first) == "" {
        TrimStartDocRemarks(rest);
      } else {
        TrimStartFirst(first);
        SameTrim(first, TrimStart(first));
        RemarksConcat([TrimStart(first)], rest);
        OneRemark(TrimStart(first));
      }
    }
  }

  /** Assembling keeps every comment, those of the new text in between. */
  lemma AssembleRemarks(parts: Parts, update: Doc)
    ensures Remarks(Assemble(parts, update)) == Remarks(parts.before) + Remarks(update) + Remarks(parts.after)
  {
    var b, f, a := TrimEndDoc(parts.before), TrimEndDoc(update), DropLastEmpty(TrimStartDoc(parts.after));
    TrimEndDocRemarks(parts.before);
    TrimEndDocRemarks(update);
    TrimStartDocRemarks(parts.after);
    assert Remarks(a) == Remarks(parts.after);
    var head := Spaced(b, f != [], f);
    SpacedRemarks(b, f != [], f);
    SpacedRemarks(head, if a == [] then head == [] else f != [] || b == [], a);
  }

  lemma SpacedRemarks(head: Doc, gap: bool, tail: Doc)
    ensures Remarks(Spaced(head, gap, tail)) == Remarks(head) + Remarks(tail)
  {
    RemarksConcat(WithGap(head, gap), tail);
    if gap {
      RemarksConcat(head, [""]);
      OneRemark("");
      assert Remarks(head) + [] == Remarks(head);
    }
  }

  lemma DropLastEmptySame(s: Section, doc: Doc)
    ensures Entries(s, DropLastEmpty(doc)) == Entries(s, doc)
  {
  }

  lemma SpacedSays(head: Doc, gap: bool, tail: Doc)
    requires Standalone(tail)
    ensures Entries(Root, Spaced(head, gap, tail)) == Entries(Root, head) + Entries(Root, tail)
  {
    GapSays(head, gap);
    EntriesConcat(Root, WithGap(head, gap), tail);
  }

  lemma GapSays(head: Doc, gap: bool)
    ensures Entries(Root, WithGap(head, gap)) == Entries(Root, head)
  {
    if gap {
      OneMore(Root, head, "");
    }
  }

  lemma TrimmedStandalone(doc: Doc)
    requires Standalone(doc)
    ensures Standalone(TrimEndDoc(doc)) && Entries(Root, TrimEndDoc(doc)) == Entries(Root, doc)
    ensures Standalone(DropLastEmpty(TrimStartDoc(doc))) && Entries(Root, DropLastEmpty(TrimStartDoc(doc))) == Entries(Root, doc)
  {
    forall s
      ensures Entries(s, TrimEndDoc(doc)) == Entries(Root, doc)
      ensures Entries(s, DropLastEmpty(TrimStartDoc(doc))) == Entries(Root, doc)
    {
      TrimEndDocSame(s, doc);
      TrimStartDocSame(s, doc);
      DropLastEmptySame(s, TrimStartDoc(doc));
    }
  }

  lemma AssembleSays(parts: Parts, update: Doc)
    requires Standalone(parts.after) && Standalone(update)
    ensures Entries(Root, Assemble(parts, update)) ==
            Entries(Root, parts.before) + Entries(Root, update) + Entries(Root, parts.after)
  {
    var b, f, a := TrimEndDoc(parts.before), TrimEndDoc(update), DropLastEmpty(TrimStartDoc(parts.after));
    TrimEndDocSame(Root, parts.before);
    TrimmedStandalone(update);
    TrimmedStandalone(parts.after);
    var head := Spaced(b, f != [], f);
    SpacedSays(b, f != [], f);
    SpacedSays(head, if a == [] then head == [] else f != [] || b == [], a);
  }

  /** Text made of a writer's own sections only. */
  ghost predicate OwnText(owns: set<string>, update: Doc) {
    Standalone(update) && forall e :: e in Entries(Root, update) ==> Mine(owns, e)
  }

  /** The writer's sections now say what `update` says, and everything else is as before. */
  ghost predicate Replaced(owns: set<string>, update: Doc, before: Doc, after: Doc) {
    && Own(Entries(Root, after), owns) == Entries(Root, update)
    && Foreign(Entries(Root, after), owns) == Foreign(Entries(Root, before), owns)
  }

  const AUTH_NAMES := {"users", "groups", "api_keys"}
  const KNOWN_CLIENTS_NAMES := {"filesync_known_clients"}

  /** The new text stands between two parts of what was foreign; the second part begins with a header. */
  ghost predicate Woven(owns: set<string>, update: Doc, before: Doc, after: Doc, b: seq<Entry>, a: seq<Entry>) {
    && Foreign(Entries(Root, before), owns) == b + a
    && Entries(Root, after) == b + Entries(Root, update) + a
    && (a != [] ==> IsHeader(a[0].text))
  }

  ghost predicate Spliced(owns: set<string>, update: Doc, before: Doc, after: Doc) {
    exists b, a :: Woven(owns, update, before, after, b, a)
  }

  /** One writer's read-modify-write of the file. */
  method Splice(original: Doc, owns: set<string>, update: Doc) returns (out: Doc)
    requires OwnText(owns, update)
    ensures Spliced(owns, update, original, out) && Replaced(owns, update, original, out)
    ensures exists b, a :: KeepsRemarks(owns, update, original, out, b, a)
  {
    var parts := SortLines(original, owns);
    out := Assemble(parts, update);
    AssembleSays(parts, update);
    StandaloneBegins(parts.after);
    assert Woven(owns, update, original, out, Entries(Root, parts.before), Entries(Root, parts.after));
    SplicedReplaces(owns, update, original, out);
    AssembleRemarks(parts, update);
    assert KeepsRemarks(owns, update, original, out, parts.before, parts.after);
  }

  /** The comments of the lines that stay are all there, in order, those of the new text in between. */
  ghost predicate KeepsRemarks(owns: set<string>, update: Doc, before: Doc, after: Doc, b: Doc, a: Doc) {
    && b + a == Staying(owns, before, |before|)
    && Remarks(after) == Remarks(b) + Remarks(update) + Remarks(a)
  }

  lemma TrimAgain(s: string)
    ensures Trim(Trim(s)) == Trim(s)
  {
    TrimStartFirst(TrimEnd(s));
    TrimEndAgain(s);
  }

  /** The first line that says anything stands where the document stands, unless it is a header. */
  lemma {:induction false} FirstEntry(s: Section, doc: Doc)
    ensures Entries(s, doc) == [] ==> Ending(s, doc) == s
    ensures Entries(s, doc) != [] ==> Entries(s, doc)[0].section == Enter(s, Entries(s, doc)[0].text)
  {
    if doc != [] {
      var last := doc[|doc| - 1];
      FirstEntry(s, doc[..|doc| - 1]);
      TrimAgain(last);
      SameTrim(last, Trim(last));
    }
  }

  /** A text that says the same wherever it stands begins with a header. */
  lemma StandaloneBegins(doc: Doc)
    requires Standalone(doc)
    ensures Entries(Root, doc) != [] ==> IsHeader(Entries(Root, doc)[0].text)
  {
    FirstEntry(Root, doc);
    FirstEntry(Table(""), doc);
    assert Entries(Table(""), doc) == Entries(Root, doc);
  }

  lemma SplicedReplaces(owns: set<string>, update: Doc, before: Doc, after: Doc)
    requires OwnText(owns, update) && Spliced(owns, update, before, after)
    ensures Replaced(owns, update, before, after)
  {
    var b, a :| Woven(owns, update, before, after, b, a);
    SplitMembers(Entries(Root, before), owns);
    forall e | e in b || e in a
      ensures !Mine(owns, e)
    {
      assert e in b + a;
    }
    Sandwich(b, Entries(Root, update), a, owns);
  }

  lemma Sandwich(b: seq<Entry>, f: seq<Entry>, a: seq<Entry>, owns: set<string>)
    requires forall e :: e in b || e in a ==> !Mine(owns, e)
    requires forall e :: e in f ==> Mine(owns, e)
    ensures Own(b + f + a, owns) == f && Foreign(b + f + a, owns) == b + a
  {
    AllForeign(b, owns);
    AllOwn(f, owns);
    AllForeign(a, owns);
    SplitConcat(b, f, owns);
    assert Own(b + f, owns) == f && Foreign(b + f, owns) == b;
    SplitConcat(b + f, a, owns);
  }

  // ---- Two writers, any interleaving under the lock ----

  lemma {:induction false} OwnAmongForeign(es: seq<Entry>, a: set<string>, b: set<string>)
    requires a !! b
    ensures Own(es, b) == Own(Foreign(es, a), b)
    ensures Foreign(es, a + b) == Foreign(Foreign(es, a), b)
  {
    if es != [] {
      var init, last := es[..|es| - 1], es[|es| - 1];
      OwnAmongForeign(init, a, b);
      if Mine(a, last) {
        assert Foreign(es, a) == Foreign(init, a);
        assert Own(es, b) == Own(init, b);
      } else {
        assert (Foreign(init, a) + [last])[..|Foreign(init, a)|] == Foreign(init, a);
      }
    }
  }

  datatype Write = Write(byAuth: bool, update: Doc)

  function OwnsOf(byAuth: bool): set<string> {
    if byAuth then AUTH_NAMES else KNOWN_CLIENTS_NAMES
  }

  /** One write, by the lock-holding writer, from one content of the file to the next. */
  ghost predicate Writes(w: Write, before: Doc, after: Doc) {
    OwnText(OwnsOf(w.byAuth), w.update) && Spliced(OwnsOf(w.byAuth), w.update, before, after)
  }

  /** `docs` are the contents of the file before, between and after the writes. */
  ghost predicate Interleaving(writes: seq<Write>, docs: seq<Doc>) {
    |docs| == |writes| + 1 && forall i, j :: 0 <= i < |writes| && j == i + 1 ==> Writes(writes[i], docs[i], docs[j])
  }

  /** What a writer last wrote, or what its sections said at the start. */
  function LastSaid(writes: seq<Write>, start: Doc, byAuth: bool): seq<Entry> {
    if writes == [] then Own(Entries(Root, start), OwnsOf(byAuth))
    else
      var last := writes[|writes| - 1];
      if last.byAuth == byAuth then Entries(Root, last.update) else LastSaid(writes[..|writes| - 1], start, byAuth)
  }

  /** However the writes interleave, each writer's sections hold its last text and nothing else changes. */
  lemma {:induction false} WritersIndependent(writes: seq<Write>, docs: seq<Doc>, byAuth: bool)
    requires Interleaving(writes, docs)
    ensures Own(Entries(Root, docs[|writes|]), OwnsOf(byAuth)) == LastSaid(writes, docs[0], byAuth)
    ensures Foreign(Entries(Root, docs[|writes|]), AUTH_NAMES + KNOWN_CLIENTS_NAMES) ==
            Foreign(Entries(Root, docs[0]), AUTH_NAMES + KNOWN_CLIENTS_NAMES)
  {
    if writes != [] {
      var n := |writes| - 1;
      WritersIndependent(writes[..n], docs[..n + 1], byAuth);
      assert Writes(writes[n], docs[n], docs[n + 1]);
      OneWrite(writes[n], docs[n], docs[n + 1]);
    }
  }

  /** A write sets its own sections and leaves the other writer's, and those of neither. */
  lemma OneWrite(w: Write, before: Doc, after: Doc)
    requires Writes(w, before, after)
    ensures Own(Entries(Root, after), OwnsOf(w.byAuth)) == Entries(Root, w.update)
    ensures Own(Entries(Root, after), OwnsOf(!w.byAuth)) == Own(Entries(Root, before), OwnsOf(!w.byAuth))
    ensures Foreign(Entries(Root, after), AUTH_NAMES + KNOWN_CLIENTS_NAMES) ==
            Foreign(Entries(Root, before), AUTH_NAMES + KNOWN_CLIENTS_NAMES)
  {
    var mine, other := OwnsOf(w.byAuth), OwnsOf(!w.byAuth);
    SplicedReplaces(mine, w.update, before, after);
    NamesApart();
    OthersKept(Entries(Root, before), Entries(Root, after), mine, other);
    assert mine + other == AUTH_NAMES + KNOWN_CLIENTS_NAMES;
  }

  lemma OthersKept(before: seq<Entry>, after: seq<Entry>, mine: set<string>, other: set<string>)
    requires mine !! other && Foreign(after, mine) == Foreign(before, mine)
    ensures Own(after, other) == Own(before, other) && Foreign(after, mine + other) == Foreign(before, mine + other)
  {
    OwnAmongForeign(before, mine, other);
    OwnAmongForeign(after, mine, other);
  }

  lemma NamesApart()
    ensures AUTH_NAMES !! KNOWN_CLIENTS_NAMES
  {
    assert |"users"| == 5 && |"groups"| == 6 && |"api_keys"| == 8 && |"filesync_known_clients"| == 22;
  }
}
