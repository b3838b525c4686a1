/** The same file read as TOML v1.0.0 reads it: where its headers and those the writers see agree, and what follows. */
module ConfigToml {
  import opened ConfigSplice

  // ---- Headers by the rules of TOML: a key in brackets, then nothing or a comment ----

  datatype TomlLine = Empty | Remark | ArrayOf(key: string) | TableOf(key: string) | Pair | Malformed

  /** Position of the first closing bracket, or the length of the text. */
  function Until(s: string): (n: nat)
    ensures n <= |s| && (forall i :: 0 <= i < n ==> s[i] != ']') && (n < |s| ==> s[n] == ']')
  {
    if s == "" || s[0] == ']' then 0 else 1 + Until(s[1..])
  }

  /** Bare and dotted keys. */
  predicate KeyChar(c: char) {
    'a' <= c <= 'z' || 'A' <= c <= 'Z' || '0' <= c <= '9' || c == '_' || c == '-' || c == '.'
  }

  predicate IsKey(s: string) {
    s != "" && forall i :: 0 <= i < |s| ==> KeyChar(s[i])
  }

  /** A key in quotes, without escapes. */
  predicate IsQuoted(s: string) {
    && |s| >= 2 && (s[0] == '"' || s[0] == '\'') && s[|s| - 1] == s[0]
    && forall i :: 0 < i < |s| - 1 ==> s[i] != s[0] && s[i] != '\\'
  }

  function KeyOf(s: string): string {
    if IsQuoted(s) then s[1..|s| - 1] else s
  }

  /** What may follow a header on its line. */
  predicate MayFollow(s: string) {
    var rest := TrimStart(s);
    rest == "" || rest[0] == '#'
  }

  /** What stands between double brackets, and what follows them. */
  function Inside(t: string): string
    requires StartsArray(t)
  {
    t[2..2 + Until(t[2..])]
  }

  function Behind(t: string): string
    requires StartsArray(t) && 4 + Until(t[2..]) <= |t|
  {
    t[4 + Until(t[2..])..]
  }

  /** A line, trimmed, standing on its own. */
  function TomlKind(t: string): TomlLine {
    if t == "" then Empty
    else if t[0] == '#' then Remark
    else if StartsArray(t) then
      var n := Until(t[2..]);
      var raw := Trim(Inside(t));
      if 4 + n <= |t| && t[3 + n] == ']' && (IsKey(raw) || IsQuoted(raw)) && MayFollow(Behind(t)) then ArrayOf(KeyOf(raw))
      else Malformed
    else if t[0] == '[' then
      var n := Until(t[1..]);
      var raw := Trim(t[1..1 + n]);
      if 2 + n <= |t| && (IsKey(raw) || IsQuoted(raw)) && MayFollow(t[2 + n..]) then TableOf(KeyOf(raw)) else Malformed
    else Pair
  }

  /** An array header with a comment behind its brackets. */
  predicate Commented(t: string) {
    TomlKind(t).ArrayOf? && Behind(t) != ""
  }

  /** An array header with its key in quotes. */
  predicate Quoted(t: string) {
    TomlKind(t).ArrayOf? && IsQuoted(Trim(Inside(t)))
  }

  // ---- When the writers see what TOML sees ----

  lemma {:induction false} TrimStartKeeps(s: string, i: nat)
    requires i < |s| && !IsSpace(s[i])
    ensures s[i] in TrimStart(s)
  {
    if IsSpace(s[0]) {
      TrimStartKeeps(s[1..], i - 1);
    }
  }

  lemma {:induction false} TrimEndKeeps(s: string, i: nat)
    requires i < |s| && !IsSpace(s[i])
    ensures s[i] in TrimEnd(s)
  {
    if IsSpace(s[|s| - 1]) {
      TrimEndKeeps(s[..|s| - 1], i);
    }
  }

  lemma {:induction false} LowerKeeps(s: string, c: char)
    requires c in s && !('A' <= c <= 'Z')
    ensures c in Lower(s)
  {
    if s[0] != c {
      LowerKeeps(s[1..], c);
    }
  }

  lemma {:induction false} LowerKey(s: string)
    requires ']' !in s
    ensures ']' !in Lower(s)
  {
    if s != "" {
      LowerKey(s[1..]);
    }
  }

  /** A closing bracket inside stays in the name. */
  lemma BracketStays(s: string, i: nat)
    requires i < |s| && s[i] == ']'
    ensures ']' in Lower(Trim(s))
  {
    TrimEndKeeps(s, i);
    var t := TrimEnd(s);
    var j :| 0 <= j < |t| && t[j] == ']';
    TrimStartKeeps(t, j);
    LowerKeeps(Trim(s), ']');
  }

  lemma {:induction false} TrimEndStops(s: string)
    ensures TrimEnd(s) == "" || !IsSpace(TrimEnd(s)[|TrimEnd(s)| - 1])
  {
    if s != "" && IsSpace(s[|s| - 1]) {
      TrimEndStops(s[..|s| - 1]);
    }
  }

  lemma {:induction false} TrimStartEnds(s: string)
    ensures TrimStart(s) == "" || (s != "" && TrimStart(s)[|TrimStart(s)| - 1] == s[|s| - 1])
    ensures TrimStart(s) == "" || !IsSpace(TrimStart(s)[0])
  {
    if s != "" && IsSpace(s[0]) {
      TrimStartEnds(s[1..]);
    }
  }

  /** A text of spaces only trims to nothing. */
  lemma {:induction false} LastShows(s: string)
    requires s != "" && !IsSpace(s[|s| - 1])
    ensures TrimStart(s) != ""
  {
    if IsSpace(s[0]) {
      LastShows(s[1..]);
    }
  }

  /** What follows the brackets of a trimmed line is nothing, or a comment after some space. */
  lemma TrailsComment(line: string)
    requires Commented(Trim(line))
    ensures '#' in Behind(Trim(line))
  {
    var t := Trim(line);
    var rest := Behind(t);
    TrimEndStops(line);
    TrimStartEnds(TrimEnd(line));
    assert rest[|rest| - 1] == t[|t| - 1];
    LastShows(rest);
    TrimStartPart(rest);
  }

  lemma {:induction false} TrimStartPart(s: string)
    ensures forall c :: c in TrimStart(s) ==> c in s
  {
    if s != "" && IsSpace(s[0]) {
      TrimStartPart(s[1..]);
    }
  }

  lemma {:induction false} LowerShape(s: string)
    ensures |Lower(s)| == |s| && (s != "" && !('A' <= s[0] <= 'Z') ==> Lower(s)[0] == s[0])
  {
    if s != "" {
      LowerShape(s[1..]);
    }
  }

  /** Lower-case keys, as both writers have them. */
  predicate SmallName(n: string) {
    forall i :: 0 <= i < |n| ==> n[i] == '_' || 'a' <= n[i] <= 'z'
  }

  /**
   For every well-formed line the writers see blank lines, comments, tables and pairs as TOML does.
   An array header they see under its lower-case name exactly when its key is not quoted and nothing
   stands behind its brackets. With a quoted key it counts as the header of some other name; with a
   comment behind as text, or, if the comment ends like a header, as a header of some name that is no key.
   */
  lemma HeadersAgree(line: string)
    requires !TomlKind(Trim(line)).Malformed?
    ensures match TomlKind(Trim(line))
            case Empty => Classify(line).Blank?
            case Remark => Classify(line).Comment?
            case TableOf(_) => Classify(line).TableHeader?
            case Pair => Classify(line).Text?
            case ArrayOf(key) =>
              && (Classify(line) == ArrayHeader(Lower(key)) <==> !Commented(Trim(line)) && !Quoted(Trim(line)))
              && (Commented(Trim(line)) && !EndsArray(Trim(line)) ==> Classify(line).Text?)
              && ((if Commented(Trim(line)) then EndsArray(Trim(line)) else Quoted(Trim(line))) ==>
                    Classify(line).ArrayHeader? && !SmallName(Classify(line).name))
  {
    if TomlKind(Trim(line)).ArrayOf? {
      if Commented(Trim(line)) {
        CommentedArrays(line);
      } else {
        PlainArrays(line);
      }
    }
  }

  /** A header with nothing behind its brackets. */
  lemma PlainArrays(line: string)
    requires TomlKind(Trim(line)).ArrayOf? && !Commented(Trim(line))
    ensures Classify(line).ArrayHeader?
    ensures !Quoted(Trim(line)) ==> Classify(line).name == Lower(TomlKind(Trim(line)).key)
    ensures Quoted(Trim(line)) ==> Classify(line).name != Lower(TomlKind(Trim(line)).key) && !SmallName(Classify(line).name)
  {
    var t := Trim(line);
    assert t[2..|t| - 2] == Inside(t);
    LowerShape(Trim(Inside(t)));
    LowerShape(TomlKind(t).key);
  }

  /** A header with a comment. */
  lemma CommentedArrays(line: string)
    requires Commented(Trim(line))
    ensures !EndsArray(Trim(line)) ==> Classify(line).Text?
    ensures EndsArray(Trim(line)) ==>
              && Classify(line).ArrayHeader? && !SmallName(Classify(line).name)
              && Classify(line).name != Lower(TomlKind(Trim(line)).key)
  {
    var t := Trim(line);
    if EndsArray(t) {
      TrailsComment(line);
      CommentedName(t);
      KeyHasNoBracket(t);
      LowerKey(TomlKind(t).key);
    }
  }

  lemma KeyHasNoBracket(t: string)
    requires TomlKind(t).ArrayOf?
    ensures ']' !in TomlKind(t).key
  {
    var raw := Inside(t);
    assert ']' !in raw;
    TrimStartPart(TrimEnd(raw));
    TrimEndPart(raw);
    assert ']' !in Trim(raw);
  }

  lemma {:induction false} TrimEndPart(s: string)
    ensures forall c :: c in TrimEnd(s) ==> c in s
  {
    if s != "" && IsSpace(s[|s| - 1]) {
      TrimEndPart(s[..|s| - 1]);
    }
  }

  /** A comment that ends like a header leaves the closing brackets inside the name. */
  lemma CommentedName(t: string)
    requires Commented(t) && '#' in Behind(t) && EndsArray(t)
    ensures |t| >= 4 && ']' in Lower(Trim(t[2..|t| - 2]))
  {
    var n := Until(t[2..]);
    assert t[2 + n] == ']';
    assert 2 + n < |t| - 2;
    assert t[2..|t| - 2][n] == ']';
    BracketStays(t[2..|t| - 2], n);
  }

  // ---- The document as TOML reads it ----

  function TomlEnter(s: Section, text: string): Section {
    match TomlKind(text)
    case ArrayOf(key) => Array(key)
    case TableOf(_) => Table(text)
    case _ => s
  }

  function ReadEnd(s: Section, doc: Doc): Section {
    if doc == [] then s else TomlEnter(ReadEnd(s, doc[..|doc| - 1]), Trim(doc[|doc| - 1]))
  }

  /** The trimmed lines other than blank ones and comments, each in the section TOML puts it. */
  function Reading(s: Section, doc: Doc): seq<Entry> {
    if doc == [] then []
    else
      var init, text := doc[..|doc| - 1], Trim(doc[|doc| - 1]);
      Reading(s, init) +
      if TomlKind(text).Empty? || TomlKind(text).Remark? then [] else [Entry(TomlEnter(ReadEnd(s, init), text), text)]
  }

  // ---- Both labels on one list of entries ----

  /** The section TOML is in after the texts of `es`. */
  function After(s: Section, es: seq<Entry>): Section {
    if es == [] then s else TomlEnter(After(s, es[..|es| - 1]), es[|es| - 1].text)
  }

  /** The entry with the section TOML gives it behind `es`. */
  function Relabelled(s: Section, es: seq<Entry>, e: Entry): Entry {
    Entry(TomlEnter(After(s, es), e.text), e.text)
  }

  function Relabel(s: Section, es: seq<Entry>): seq<Entry> {
    if es == [] then []
    else Relabel(s, es[..|es| - 1]) + [Relabelled(s, es[..|es| - 1], es[|es| - 1])]
  }

  lemma RelabelSnoc(s: Section, es: seq<Entry>, e: Entry)
    ensures After(s, es + [e]) == TomlEnter(After(s, es), e.text)
    ensures Relabel(s, es + [e]) == Relabel(s, es) + [Relabelled(s, es, e)]
  {
    assert (es + [e])[..|es|] == es;
  }

  lemma {:induction false} AfterConcat(s: Section, a: seq<Entry>, b: seq<Entry>)
    ensures After(s, a + b) == After(After(s, a), b)
  {
    if b == [] {
      assert a + b == a;
    } else {
      AfterConcat(s, a, b[..|b| - 1]);
      assert (a + b)[..|a + b| - 1] == a + b[..|b| - 1];
    }
  }

  lemma {:induction false} RelabelConcat(s: Section, a: seq<Entry>, b: seq<Entry>)
    ensures Relabel(s, a + b) == Relabel(s, a) + Relabel(After(s, a), b)
  {
    if b == [] {
      assert a + b == a;
    } else {
      RelabelConcat(s, a, b[..|b| - 1]);
      AfterConcat(s, a, b[..|b| - 1]);
      assert (a + b)[..|a + b| - 1] == a + b[..|b| - 1];
    }
  }

  /** Behind a header of TOML, what came before does not matter. */
  lemma {:induction false} HeaderFirst(s: Section, s': Section, es: seq<Entry>)
    requires es != [] && TomlHeader(es[0].text)
    ensures After(s, es) == After(s', es) && Relabel(s, es) == Relabel(s', es)
  {
    if |es| > 1 {
      HeaderFirst(s, s', es[..|es| - 1]);
    } else {
      assert es[..0] == [];
    }
  }

  predicate TomlHeader(text: string) {
    TomlKind(text).ArrayOf? || TomlKind(text).TableOf?
  }

  lemma ReadOneMore(s: Section, doc: Doc, line: string)
    ensures ReadEnd(s, doc + [line]) == TomlEnter(ReadEnd(s, doc), Trim(line))
    ensures Reading(s, doc + [line]) ==
            if Silent(line) then Reading(s, doc) else Reading(s, doc) + [Entry(TomlEnter(ReadEnd(s, doc), Trim(line)), Trim(line))]
    ensures Silent(line) ==> TomlEnter(ReadEnd(s, doc), Trim(line)) == ReadEnd(s, doc)
  {
    assert (doc + [line])[..|doc|] == doc;
  }

  /** TOML's reading only depends on the lines that say something. */
  lemma {:induction false} ReadingRelabels(s: Section, c: Section, doc: Doc)
    ensures ReadEnd(s, doc) == After(s, Entries(c, doc)) && Reading(s, doc) == Relabel(s, Entries(c, doc))
  {
    if doc != [] {
      var init, last := doc[..|doc| - 1], doc[|doc| - 1];
      ReadingRelabels(s, c, init);
      assert doc == init + [last];
      ReadOneMore(s, init, last);
      OneMore(c, init, last);
      RelabelSnoc(s, Entries(c, init), Entry(Enter(Ending(c, init), last), Trim(last)));
    }
  }

  /** Each entry carries the section its text leads to from that of the entry before it. */
  ghost predicate Labelled(es: seq<Entry>) {
    && (es != [] ==> es[0].section == Enter(Root, es[0].text))
    && forall i, j :: 0 <= i < j < |es| && j == i + 1 ==> es[j].section == Enter(es[i].section, es[j].text)
  }

  function Latest(es: seq<Entry>): Section {
    if es == [] then Root else es[|es| - 1].section
  }

  lemma LabelledSnoc(es: seq<Entry>, e: Entry)
    requires Labelled(es) && e.section == Enter(Latest(es), e.text)
    ensures Labelled(es + [e]) && Latest(es + [e]) == e.section
  {
  }

  lemma {:induction false} EntriesLabelled(doc: Doc)
    ensures Labelled(Entries(Root, doc)) && Ending(Root, doc) == Latest(Entries(Root, doc))
  {
    if doc != [] {
      var init, last := doc[..|doc| - 1], doc[|doc| - 1];
      EntriesLabelled(init);
      if Silent(last) {
        assert Entries(Root, doc) == Entries(Root, init);
      } else {
        var e := Entry(Enter(Ending(Root, init), last), Trim(last));
        assert Entries(Root, doc) == Entries(Root, init) + [e];
        TrimAgain(last);
        SameTrim(last, Trim(last));
        LabelledSnoc(Entries(Root, init), e);
      }
    }
  }

  /** Every line is well-formed on its own. */
  ghost predicate WellFormed(doc: Doc) {
    forall line :: line in doc ==> !TomlKind(Trim(line)).Malformed?
  }

  lemma {:induction false} EntriesLegal(s: Section, doc: Doc)
    requires WellFormed(doc)
    ensures Legal(Entries(s, doc))
  {
    if doc != [] {
      assert doc[|doc| - 1] in doc;
      TrimAgain(doc[|doc| - 1]);
      EntriesLegal(s, doc[..|doc| - 1]);
    }
  }

  // ---- What a writer overlooks ----

  /** Trimmed lines, each well-formed. */
  ghost predicate Legal(es: seq<Entry>) {
    forall e :: e in es ==> !TomlKind(e.text).Malformed? && Trim(e.text) == e.text
  }

  /** A header of somebody else's array that the writer takes for part of its own sections. */
  predicate Overlooked(owns: set<string>, e: Entry) {
    TomlKind(e.text).ArrayOf? && TomlKind(e.text).key !in owns && Mine(owns, e)
  }

  /** A header of the writer's own array that it takes for part of somebody else's section. */
  predicate Unseen(owns: set<string>, e: Entry) {
    TomlKind(e.text).ArrayOf? && TomlKind(e.text).key in owns && !Mine(owns, e)
  }

  ghost predicate Names(owns: set<string>) {
    forall n :: n in owns ==> SmallName(n)
  }

  lemma WritersHaveNames(byAuth: bool)
    ensures Names(OwnsOf(byAuth))
  {
    assert SmallName("users") && SmallName("groups") && SmallName("api_keys") && SmallName("filesync_known_clients");
  }

  lemma {:induction false} LowerStays(s: string)
    requires forall i :: 0 <= i < |s| ==> !('A' <= s[i] <= 'Z')
    ensures Lower(s) == s
  {
    if s != "" {
      LowerStays(s[1..]);
      assert s == [s[0]] + s[1..];
    }
  }

  /**
   A foreign header is overlooked if it is an own name in other letters, or if a comment hides it inside
   an own section.
   */
  predicate OverlooksLine(owns: set<string>, before: Section, text: string) {
    && TomlKind(text).ArrayOf? && TomlKind(text).key !in owns
    && if Commented(text) then !EndsArray(text) && InOwn(owns, before) else !Quoted(text) && Lower(TomlKind(text).key) in owns
  }

  /** An own header goes unseen if its key is quoted, if a comment hides it outside an own section, or ends like a header itself. */
  predicate MissesLine(owns: set<string>, before: Section, text: string) {
    && TomlKind(text).ArrayOf? && TomlKind(text).key in owns
    && if Commented(text) then EndsArray(text) || !InOwn(owns, before) else Quoted(text)
  }

  /** Both as conditions on the line and the section it stands in. */
  lemma OverlookedExact(owns: set<string>, before: Section, text: string)
    requires Names(owns) && !TomlKind(text).Malformed? && Trim(text) == text
    ensures Overlooked(owns, Entry(Enter(before, text), text)) <==> OverlooksLine(owns, before, text)
    ensures Unseen(owns, Entry(Enter(before, text), text)) <==> MissesLine(owns, before, text)
  {
    HeadersAgree(text);
    if TomlKind(text).ArrayOf? && TomlKind(text).key in owns {
      LowerStays(TomlKind(text).key);
    }
  }

  /** The entries a writer keeps, with TOML's labels. */
  function Surviving(es: seq<Entry>, owns: set<string>): seq<Entry> {
    if es == [] then []
    else
      var init, last := es[..|es| - 1], es[|es| - 1];
      Surviving(init, owns) + if Mine(owns, last) then [] else [Relabelled(Root, init, last)]
  }

  /** A line that is no header for TOML is none for the writer. */
  lemma PlainLine(s: Section, text: string)
    requires !TomlKind(text).Malformed? && Trim(text) == text && !TomlHeader(text)
    ensures Enter(s, text) == s && TomlEnter(s, text) == s
  {
    HeadersAgree(text);
  }

  /** One more kept entry: a header of TOML, or a line of the section the one before it stands in. */
  lemma KeptOneMore(init: seq<Entry>, kept: seq<Entry>, last: Entry, owns: set<string>)
    requires !TomlKind(last.text).Malformed? && Trim(last.text) == last.text
    requires last.section == Enter(Latest(init), last.text) && !Mine(owns, last)
    requires !InOwn(owns, Latest(init)) ==> After(Root, kept) == After(Root, init)
    ensures Relabelled(Root, kept, last) == Relabelled(Root, init, last)
  {
    if !TomlHeader(last.text) {
      PlainLine(Latest(init), last.text);
    }
  }

  /** Dropping the writer's lines does not move the others to another section of TOML. */
  lemma {:induction false} KeptLabels(es: seq<Entry>, owns: set<string>)
    requires Labelled(es) && Legal(es)
    ensures Relabel(Root, Foreign(es, owns)) == Surviving(es, owns)
    ensures !InOwn(owns, Latest(es)) ==> After(Root, Foreign(es, owns)) == After(Root, es)
  {
    if es != [] {
      var init, last := es[..|es| - 1], es[|es| - 1];
      LabelledInit(es);
      KeptLabels(init, owns);
      assert Surviving(es, owns) == Surviving(init, owns) + if Mine(owns, last) then [] else [Relabelled(Root, init, last)];
      if Mine(owns, last) {
        assert Foreign(es, owns) == Foreign(init, owns);
      } else {
        KeptOneMore(init, Foreign(init, owns), last, owns);
        RelabelSnoc(Root, Foreign(init, owns), last);
        assert Foreign(es, owns) == Foreign(init, owns) + [last];
      }
    }
  }

  lemma LabelledInit(es: seq<Entry>)
    requires es != [] && Labelled(es) && Legal(es)
    ensures var init, last := es[..|es| - 1], es[|es| - 1];
            && Labelled(init) && Legal(init) && last.section == Enter(Latest(init), last.text)
            && !TomlKind(last.text).Malformed? && Trim(last.text) == last.text
  {
    assert es[|es| - 1] in es;
  }

  /** The writer drops entry `i`, which to TOML is not its own. */
  predicate LostAt(es: seq<Entry>, owns: set<string>, i: nat)
    requires i < |es|
  {
    Mine(owns, es[i]) && !Mine(owns, Relabelled(Root, es[..i], es[i]))
  }

  /** The writer keeps entry `i`, which to TOML is its own. */
  predicate StrayAt(es: seq<Entry>, owns: set<string>, i: nat)
    requires i < |es|
  {
    !Mine(owns, es[i]) && Mine(owns, Relabelled(Root, es[..i], es[i]))
  }

  ghost predicate NoneLost(es: seq<Entry>, owns: set<string>) {
    forall i :: 0 <= i < |es| ==> !LostAt(es, owns, i)
  }

  ghost predicate NoStray(es: seq<Entry>, owns: set<string>) {
    forall i :: 0 <= i < |es| ==> !StrayAt(es, owns, i)
  }

  lemma OneMoreMark(es: seq<Entry>, owns: set<string>)
    requires es != []
    ensures NoneLost(es, owns) <==> NoneLost(es[..|es| - 1], owns) && !LostAt(es, owns, |es| - 1)
    ensures NoStray(es, owns) <==> NoStray(es[..|es| - 1], owns) && !StrayAt(es, owns, |es| - 1)
  {
    var init := es[..|es| - 1];
    forall i | 0 <= i < |init|
      ensures LostAt(es, owns, i) <==> LostAt(init, owns, i)
      ensures StrayAt(es, owns, i) <==> StrayAt(init, owns, i)
    {
      assert es[..i] == init[..i] && es[i] == init[i];
    }
  }

  lemma OwnOneMore(es: seq<Entry>, e: Entry, owns: set<string>)
    ensures Own(es + [e], owns) == if Mine(owns, e) then Own(es, owns) + [e] else Own(es, owns)
  {
    assert (es + [e])[..|es|] == es;
  }

  /** The survivors hold all of TOML's foreign entries exactly when none is lost. */
  lemma {:induction false} ForeignSurvivors(es: seq<Entry>, owns: set<string>)
    ensures var kept, all := Foreign(Surviving(es, owns), owns), Foreign(Relabel(Root, es), owns);
            |kept| <= |all| && (NoneLost(es, owns) <==> |kept| == |all|) && (NoneLost(es, owns) ==> kept == all)
  {
    if es != [] {
      var init, last := es[..|es| - 1], es[|es| - 1];
      var toml := Relabelled(Root, init, last);
      ForeignSurvivors(init, owns);
      OneMoreMark(es, owns);
      ForeignOneMore(Relabel(Root, init), toml, owns);
      if Mine(owns, last) {
        assert Surviving(es, owns) == Surviving(init, owns);
      } else {
        ForeignOneMore(Surviving(init, owns), toml, owns);
      }
    }
  }

  /** The survivors hold none of TOML's own entries exactly when none strays. */
  lemma {:induction false} OwnSurvivors(es: seq<Entry>, owns: set<string>)
    ensures Own(Surviving(es, owns), owns) == [] <==> NoStray(es, owns)
  {
    if es != [] {
      var init, last := es[..|es| - 1], es[|es| - 1];
      OwnSurvivors(init, owns);
      OneMoreMark(es, owns);
      if Mine(owns, last) {
        assert Surviving(es, owns) == Surviving(init, owns);
      } else {
        OwnOneMore(Surviving(init, owns), Relabelled(Root, init, last), owns);
      }
    }
  }

  /** A line that is no header goes astray with the line before it. */
  lemma AstrayTogether(es: seq<Entry>, owns: set<string>, i: nat)
    requires Labelled(es) && Legal(es) && 0 < i < |es| && !TomlHeader(es[i].text)
    ensures LostAt(es, owns, i) <==> LostAt(es, owns, i - 1)
    ensures StrayAt(es, owns, i) <==> StrayAt(es, owns, i - 1)
  {
    var before := es[..i];
    assert es[i] in es && before[..i - 1] == es[..i - 1] && before[i - 1] == es[i - 1];
    PlainLine(es[i - 1].section, es[i].text);
    PlainLine(After(Root, before), es[i].text);
  }

  /** An entry goes astray at a header only if the header itself is overlooked or unseen. */
  lemma HeaderAstray(es: seq<Entry>, owns: set<string>, i: nat)
    requires Labelled(es) && Legal(es) && i < |es| && (i == 0 || TomlHeader(es[i].text))
    ensures Explains(es, owns, i, i)
  {
    assert es[i] in es;
    HeadersAgree(es[i].text);
  }

  /** Behind a line that goes astray stands the header that caused it. */
  lemma {:induction false} CausedByHeader(es: seq<Entry>, owns: set<string>, i: nat) returns (h: nat)
    requires Labelled(es) && Legal(es) && i < |es|
    ensures h < |es| && Explains(es, owns, i, h)
  {
    if i == 0 || TomlHeader(es[i].text) {
      HeaderAstray(es, owns, i);
      h := i;
    } else {
      h := CausedByHeader(es, owns, i - 1);
      ExplainsNext(es, owns, i, h);
    }
  }

  lemma ExplainsNext(es: seq<Entry>, owns: set<string>, i: nat, h: nat)
    requires Labelled(es) && Legal(es) && 0 < i < |es| && !TomlHeader(es[i].text)
    requires h < |es| && Explains(es, owns, i - 1, h)
    ensures Explains(es, owns, i, h)
  {
    AstrayTogether(es, owns, i);
  }

  predicate Explains(es: seq<Entry>, owns: set<string>, i: nat, h: nat)
    requires i < |es| && h < |es|
  {
    (LostAt(es, owns, i) ==> Overlooked(owns, es[h])) && (StrayAt(es, owns, i) ==> Unseen(owns, es[h]))
  }

  lemma HeaderGoesAstray(es: seq<Entry>, owns: set<string>, e: Entry)
    requires e in es
    ensures Overlooked(owns, e) ==> !NoneLost(es, owns)
    ensures Unseen(owns, e) ==> !NoStray(es, owns)
  {
    var i :| 0 <= i < |es| && es[i] == e;
    assert Overlooked(owns, e) ==> LostAt(es, owns, i);
    assert Unseen(owns, e) ==> StrayAt(es, owns, i);
  }

  /** New text as the writers produce it: headers of own arrays without comments, and pairs. */
  ghost predicate Written(owns: set<string>, update: Doc) {
    && OwnText(owns, update)
    && forall e :: e in Entries(Root, update) ==>
         TomlKind(e.text).Pair? || (TomlKind(e.text).ArrayOf? && TomlKind(e.text).key in owns && !Commented(e.text))
  }

  lemma {:induction false} WrittenIsOwn(owns: set<string>, s: Section, es: seq<Entry>)
    requires es != [] ==> TomlHeader(es[0].text)
    requires forall e :: e in es ==> TomlKind(e.text).Pair? || (TomlKind(e.text).ArrayOf? && TomlKind(e.text).key in owns)
    ensures es != [] ==> InOwn(owns, After(s, es))
    ensures forall e :: e in Relabel(s, es) ==> Mine(owns, e)
  {
    if es != [] {
      assert es[|es| - 1] in es;
      if |es| == 1 {
        assert es[..0] == [];
      }
      WrittenIsOwn(owns, s, es[..|es| - 1]);
    }
  }

  /** The three parts of the new file keep the labels they have on their own. */
  lemma WovenLabels(b: seq<Entry>, u: seq<Entry>, a: seq<Entry>)
    requires u != [] ==> TomlHeader(u[0].text)
    requires a != [] ==> TomlHeader(a[0].text)
    ensures Relabel(Root, b + u + a) == Relabel(Root, b) + Relabel(Root, u) + Relabel(Root, a)
    ensures Relabel(Root, b + a) == Relabel(Root, b) + Relabel(Root, a)
  {
    RelabelConcat(Root, b + u, a);
    RelabelConcat(Root, b, u);
    RelabelConcat(Root, b, a);
    if u != [] {
      HeaderFirst(After(Root, b), Root, u);
    }
    if a != [] {
      HeaderFirst(After(Root, b + u), Root, a);
      HeaderFirst(After(Root, b), Root, a);
    }
  }

  /** A header to the writer is one to TOML. */
  lemma SeenIsHeader(text: string)
    requires !TomlKind(text).Malformed? && Trim(text) == text && IsHeader(text)
    ensures TomlHeader(text)
  {
    HeadersAgree(text);
  }

  /**
   A splice read by the rules of TOML. Every foreign line keeps its place and section exactly when the
   writer overlooks no foreign header, and the writer's arrays say just what it wrote exactly when none
   of its own headers goes unseen.
   */
  lemma TomlSplice(owns: set<string>, update: Doc, original: Doc, out: Doc)
    requires WellFormed(original) && Written(owns, update)
    requires Spliced(owns, update, original, out)
    ensures Foreign(Reading(Root, out), owns) == Foreign(Reading(Root, original), owns) <==>
            forall e :: e in Entries(Root, original) ==> !Overlooked(owns, e)
    ensures Own(Reading(Root, out), owns) == Reading(Root, update) <==>
            forall e :: e in Entries(Root, original) ==> !Unseen(owns, e)
  {
    EntriesLegal(Root, original);
    LegalSplice(owns, update, original, out);
  }

  /** The entry a line makes. */
  function LineEntry(doc: Doc, i: nat): Entry
    requires i < |doc|
  {
    Entry(Enter(Ending(Root, doc[..i]), doc[i]), Trim(doc[i]))
  }

  lemma {:induction false} LineMakesEntry(doc: Doc, i: nat)
    requires i < |doc| && !Silent(doc[i])
    ensures LineEntry(doc, i) in Entries(Root, doc)
  {
    var init, last := doc[..|doc| - 1], doc[|doc| - 1];
    assert doc == init + [last];
    OneMore(Root, init, last);
    if i < |init| {
      LineMakesEntry(init, i);
      assert init[..i] == doc[..i] && init[i] == doc[i];
    }
  }

  lemma {:induction false} EntryHasLine(doc: Doc, e: Entry) returns (i: nat)
    requires e in Entries(Root, doc)
    ensures i < |doc| && !Silent(doc[i]) && e == LineEntry(doc, i)
  {
    var n := |doc| - 1;
    if e in Entries(Root, doc[..n]) {
      i := EntryHasLine(doc[..n], e);
      assert doc[..n][..i] == doc[..i];
    } else {
      i := n;
    }
  }

  /** The line condition at one line. */
  lemma LineCondition(owns: set<string>, doc: Doc, i: nat)
    requires Names(owns) && WellFormed(doc) && i < |doc|
    ensures Overlooked(owns, LineEntry(doc, i)) <==> OverlooksLine(owns, Ending(Root, doc[..i]), Trim(doc[i]))
    ensures Unseen(owns, LineEntry(doc, i)) <==> MissesLine(owns, Ending(Root, doc[..i]), Trim(doc[i]))
  {
    assert doc[i] in doc;
    TrimAgain(doc[i]);
    SameTrim(doc[i], Trim(doc[i]));
    OverlookedExact(owns, Ending(Root, doc[..i]), Trim(doc[i]));
  }

  ghost predicate OverlooksNone(owns: set<string>, doc: Doc) {
    forall i :: 0 <= i < |doc| ==> !OverlooksLine(owns, Ending(Root, doc[..i]), Trim(doc[i]))
  }

  ghost predicate MissesNone(owns: set<string>, doc: Doc) {
    forall i :: 0 <= i < |doc| ==> !MissesLine(owns, Ending(Root, doc[..i]), Trim(doc[i]))
  }

  lemma ByLines(owns: set<string>, doc: Doc)
    requires Names(owns) && WellFormed(doc)
    ensures OverlooksNone(owns, doc) <==> forall e :: e in Entries(Root, doc) ==> !Overlooked(owns, e)
    ensures MissesNone(owns, doc) <==> forall e :: e in Entries(Root, doc) ==> !Unseen(owns, e)
  {
    forall e | e in Entries(Root, doc)
      ensures OverlooksNone(owns, doc) ==> !Overlooked(owns, e)
      ensures MissesNone(owns, doc) ==> !Unseen(owns, e)
    {
      var i := EntryHasLine(doc, e);
      LineCondition(owns, doc, i);
    }
    forall i | 0 <= i < |doc| && TomlKind(Trim(doc[i])).ArrayOf?
      ensures LineEntry(doc, i) in Entries(Root, doc)
      ensures Overlooked(owns, LineEntry(doc, i)) <==> OverlooksLine(owns, Ending(Root, doc[..i]), Trim(doc[i]))
      ensures Unseen(owns, LineEntry(doc, i)) <==> MissesLine(owns, Ending(Root, doc[..i]), Trim(doc[i]))
    {
      LineCondition(owns, doc, i);
      HeadersAgree(doc[i]);
      LineMakesEntry(doc, i);
    }
  }

  /**
   For each of the two writers, by the lines of the file: a write keeps what TOML reads outside its arrays
   exactly when it overlooks no line, and its arrays say just what it wrote exactly when it misses none.
   */
  lemma WriterSplice(byAuth: bool, update: Doc, original: Doc, out: Doc)
    requires WellFormed(original) && Written(OwnsOf(byAuth), update) && Spliced(OwnsOf(byAuth), update, original, out)
    ensures Foreign(Reading(Root, out), OwnsOf(byAuth)) == Foreign(Reading(Root, original), OwnsOf(byAuth)) <==>
            OverlooksNone(OwnsOf(byAuth), original)
    ensures Own(Reading(Root, out), OwnsOf(byAuth)) == Reading(Root, update) <==> MissesNone(OwnsOf(byAuth), original)
  {
    WritersHaveNames(byAuth);
    ByLines(OwnsOf(byAuth), original);
    TomlSplice(OwnsOf(byAuth), update, original, out);
  }

  lemma LegalSplice(owns: set<string>, update: Doc, original: Doc, out: Doc)
    requires Legal(Entries(Root, original)) && Written(owns, update) && Spliced(owns, update, original, out)
    ensures Foreign(Reading(Root, out), owns) == Foreign(Reading(Root, original), owns) <==>
            forall e :: e in Entries(Root, original) ==> !Overlooked(owns, e)
    ensures Own(Reading(Root, out), owns) == Reading(Root, update) <==>
            forall e :: e in Entries(Root, original) ==> !Unseen(owns, e)
  {
    var es := Entries(Root, original);
    var b, a :| Woven(owns, update, original, out, b, a);
    EntriesLabelled(original);
    WovenReading(owns, update, original, out, b, a);
    ForeignSurvivors(es, owns);
    OwnSurvivors(es, owns);
    AstrayExact(es, owns);
    ReadingRelabels(Root, Root, original);
  }

  /** Lines go astray exactly when headers do. */
  lemma AstrayExact(es: seq<Entry>, owns: set<string>)
    requires Labelled(es) && Legal(es)
    ensures NoneLost(es, owns) <==> forall e :: e in es ==> !Overlooked(owns, e)
    ensures NoStray(es, owns) <==> forall e :: e in es ==> !Unseen(owns, e)
  {
    forall e | e in es
      ensures Overlooked(owns, e) ==> !NoneLost(es, owns)
      ensures Unseen(owns, e) ==> !NoStray(es, owns)
    {
      HeaderGoesAstray(es, owns, e);
    }
    forall i | 0 <= i < |es|
      ensures LostAt(es, owns, i) ==> exists e :: e in es && Overlooked(owns, e)
      ensures StrayAt(es, owns, i) ==> exists e :: e in es && Unseen(owns, e)
    {
      var h := CausedByHeader(es, owns, i);
      assert es[h] in es;
    }
  }

  /** TOML's reading of the new file: what survives, and the new text in between. */
  lemma WovenReading(owns: set<string>, update: Doc, original: Doc, out: Doc, b: seq<Entry>, a: seq<Entry>)
    requires Labelled(Entries(Root, original)) && Legal(Entries(Root, original)) && Written(owns, update)
    requires Woven(owns, update, original, out, b, a)
    ensures Foreign(Reading(Root, out), owns) == Foreign(Surviving(Entries(Root, original), owns), owns)
    ensures Own(Reading(Root, out), owns) == Reading(Root, update) <==> Own(Surviving(Entries(Root, original), owns), owns) == []
  {
    var es, u := Entries(Root, original), Entries(Root, update);
    KeptLabels(es, owns);
    ForeignMembers(es, owns);
    if a != [] {
      assert a[0] in b + a;
      SeenIsHeader(a[0].text);
    }
    WrittenBegins(owns, update);
    WrittenIsOwn(owns, Root, u);
    WovenLabels(b, u, a);
    ReadingRelabels(Root, Root, out);
    ReadingRelabels(Root, Root, update);
    Between(Relabel(Root, b), Relabel(Root, u), Relabel(Root, a), owns);
  }

  lemma WrittenBegins(owns: set<string>, update: Doc)
    requires Written(owns, update)
    ensures var u := Entries(Root, update); u != [] ==> TomlHeader(u[0].text)
  {
    var u := Entries(Root, update);
    if u != [] {
      StandaloneBegins(update);
      EntriesTrimmed(update, u[0]);
      assert u[0] in u;
      SeenIsHeader(u[0].text);
    }
  }

  lemma {:induction false} EntriesTrimmed(doc: Doc, e: Entry)
    requires e in Entries(Root, doc)
    ensures Trim(e.text) == e.text
  {
    var init, last := doc[..|doc| - 1], doc[|doc| - 1];
    TrimAgain(last);
    if e in Entries(Root, init) {
      EntriesTrimmed(init, e);
    }
  }

  lemma {:induction false} ForeignMembers(es: seq<Entry>, owns: set<string>)
    ensures forall e :: e in Foreign(es, owns) ==> e in es
  {
    if es != [] {
      ForeignMembers(es[..|es| - 1], owns);
    }
  }

  /** Own entries between two parts: the foreign ones are those of the parts, the own ones just these if the parts hold none. */
  lemma Between(b: seq<Entry>, u: seq<Entry>, a: seq<Entry>, owns: set<string>)
    requires forall e :: e in u ==> Mine(owns, e)
    ensures Foreign(b + u + a, owns) == Foreign(b + a, owns)
    ensures Own(b + u + a, owns) == u <==> Own(b + a, owns) == []
  {
    AllOwn(u, owns);
    SplitConcat(b, u, owns);
    SplitConcat(b + u, a, owns);
    SplitConcat(b, a, owns);
    OnlyMiddle(Own(b, owns), u, Own(a, owns));
  }

  lemma OnlyMiddle(b: seq<Entry>, u: seq<Entry>, a: seq<Entry>)
    ensures b + u + a == u <==> b + a == []
  {
    assert |b + u + a| == |b| + |u| + |a|;
    if b == [] && a == [] {
      assert b + u + a == u;
    }
  }

  // ---- A loss ----

  lemma Untouched(s: string)
    requires s != "" && !IsSpace(s[0]) && !IsSpace(s[|s| - 1])
    ensures Trim(s) == s
  {
  }

  /** The header of the array `key`, with a comment or without. */
  function Header(key: string, tail: string): string {
    "[[" + key + "]]" + tail
  }

  lemma HeaderKind(key: string, tail: string)
    requires IsKey(key) && MayFollow(tail) && (tail != "" ==> !IsSpace(tail[|tail| - 1]))
    ensures var t := Header(key, tail); Trim(t) == t && TomlKind(t) == ArrayOf(key) && Behind(t) == tail
  {
    var t := Header(key, tail);
    HeaderParts(key, tail);
    Untouched(key);
    Untouched(t);
    assert KeyChar(key[0]) && !IsQuoted(key);
  }

  lemma HeaderParts(key: string, tail: string)
    requires IsKey(key)
    ensures var t := Header(key, tail);
            StartsArray(t) && Until(t[2..]) == |key| && Inside(t) == key && Behind(t) == tail && t[3 + |key|] == ']'
  {
    var t := Header(key, tail);
    var rest := t[2..];
    assert rest == key + "]]" + tail && rest[|key|] == ']';
    assert forall i :: 0 <= i < |key| ==> rest[i] == key[i] && KeyChar(key[i]);
    assert Until(rest) == |key|;
    assert rest[..|key|] == key;
    assert t[4 + |key|..] == tail;
  }

  /** Lines without a header the writer can see all belong to the section they stand in. */
  lemma {:induction false} NoHeaderSeen(s: Section, doc: Doc)
    requires forall line :: line in doc ==> !IsHeader(line)
    ensures Ending(s, doc) == s && forall e :: e in Entries(s, doc) ==> e.section == s
  {
    if doc != [] {
      assert doc[|doc| - 1] in doc;
      NoHeaderSeen(s, doc[..|doc| - 1]);
    }
  }

  /** TOML finds every array header. */
  lemma {:induction false} HeaderRead(doc: Doc, i: nat)
    requires i < |doc| && TomlKind(Trim(doc[i])).ArrayOf?
    ensures Entry(Array(TomlKind(Trim(doc[i])).key), Trim(doc[i])) in Reading(Root, doc)
  {
    if i < |doc| - 1 {
      HeaderRead(doc[..|doc| - 1], i);
    }
  }

  lemma {:induction false} ForeignFinds(es: seq<Entry>, owns: set<string>, e: Entry)
    requires e in es && !Mine(owns, e)
    ensures e in Foreign(es, owns)
  {
    if es[|es| - 1] != e {
      ForeignFinds(es[..|es| - 1], owns, e);
    }
  }

  /** A bare key in brackets and nothing else is seen. */
  lemma PlainHeader(key: string)
    requires IsKey(key)
    ensures var h := Header(key, ""); Trim(h) == h && Classify(h) == ArrayHeader(Lower(key))
  {
    HeaderKind(key, "");
    HeaderParts(key, "");
    Untouched(key);
    assert KeyChar(key[0]) && !IsQuoted(Trim(Inside(Header(key, ""))));
    HeadersAgree(Header(key, ""));
  }

  /** Everything behind an own header goes when the writer has nothing to write, up to the next header it can see. */
  lemma BehindOwnHeader(owns: set<string>, own: string, lines: Doc, out: Doc)
    requires own in owns && Lower(own) == own && IsKey(own) && (forall line :: line in lines ==> !IsHeader(line))
    requires Spliced(owns, [], [Header(own, "")] + lines, out)
    ensures Entries(Root, out) == []
  {
    var h := Header(own, "");
    var doc := [h] + lines;
    PlainHeader(own);
    EntriesConcat(Root, [h], lines);
    OneLine(Root, h);
    NoHeaderSeen(Array(own), lines);
    AllOwn(Entries(Root, doc), owns);
  }

  /** The comment behind a header, from its space to its last character, which is neither a space nor a bracket. */
  predicate IsTail(tail: string) {
    |tail| >= 2 && tail[0] == ' ' && tail[1] == '#' && !IsSpace(tail[|tail| - 1]) && tail[|tail| - 1] != ']'
  }

  lemma CommentHides(key: string, tail: string)
    requires IsKey(key) && IsTail(tail)
    ensures var g := Header(key, tail); Trim(g) == g && TomlKind(g) == ArrayOf(key) && !IsHeader(g)
  {
    var g := Header(key, tail);
    assert TrimStart(tail) == tail[1..];
    HeaderKind(key, tail);
    HeadersAgree(g);
    assert g[|g| - 1] == tail[|tail| - 1];
  }

  /**
   An array whose header carries a comment, standing behind an own one, goes with it when the writer has
   nothing to write: nothing is left in the file, though TOML reads a foreign array there.
   */
  lemma CommentedArrayLost(owns: set<string>, own: string, key: string, tail: string, lines: Doc, more: Doc, out: Doc)
    requires own in owns && Lower(own) == own && IsKey(own) && key !in owns && IsKey(key) && IsTail(tail)
    requires forall line :: line in lines + more ==> !IsHeader(line)
    requires Spliced(owns, [], [Header(own, "")] + (lines + [Header(key, tail)] + more), out)
    ensures Entries(Root, out) == []
    ensures Entry(Array(key), Header(key, tail)) in
            Foreign(Reading(Root, [Header(own, "")] + (lines + [Header(key, tail)] + more)), owns)
  {
    var g := Header(key, tail);
    var behind := lines + [g] + more;
    var doc := [Header(own, "")] + behind;
    CommentHides(key, tail);
    forall line | line in behind
      ensures !IsHeader(line)
    {
      assert line == g || line in lines + more;
    }
    BehindOwnHeader(owns, own, behind, out);
    assert doc[1 + |lines|] == g;
    HeaderRead(doc, 1 + |lines|);
    ForeignFinds(Reading(Root, doc), owns, Entry(Array(key), g));
  }

  lemma TextLine(line: string)
    requires line != "" && 'a' <= line[0] <= 'z'
    ensures !IsHeader(line)
  {
    TrimEndKeeps(line, 0);
    FirstStays(line);
  }

  lemma {:induction false} FirstStays(line: string)
    requires line != "" && !IsSpace(line[0])
    ensures Trim(line) != "" && Trim(line)[0] == line[0]
  {
    if IsSpace(line[|line| - 1]) {
      FirstStays(line[..|line| - 1]);
    }
  }

  /** Two arrays of one line each, the second under a comment. */
  function TwoArrays(own: string, x: string, key: string, tail: string, y: string): Doc {
    [Header(own, "")] + ([x] + [Header(key, tail)] + [y])
  }

  lemma TwoTexts(x: string, y: string)
    requires x != "" && 'a' <= x[0] <= 'z' && y != "" && 'a' <= y[0] <= 'z'
    ensures forall line :: line in [x] + [y] ==> !IsHeader(line)
  {
    TextLine(x);
    TextLine(y);
  }

  /** Writing the auth sections deletes a share with a comment that stands behind the users. */
  lemma CommentedShareLost(out: Doc)
    requires Spliced(AUTH_NAMES, [], TwoArrays("users", "name = 1", "shares", " # media", "path = 2"), out)
    ensures Entries(Root, out) == []
    ensures Entry(Array("shares"), Header("shares", " # media")) in
            Foreign(Reading(Root, TwoArrays("users", "name = 1", "shares", " # media", "path = 2")), AUTH_NAMES)
  {
    LiteralNames();
    TwoTexts("name = 1", "path = 2");
    CommentedArrayLost(AUTH_NAMES, "users", "shares", " # media", ["name = 1"], ["path = 2"], out);
  }

  lemma LiteralNames()
    ensures IsKey("users") && Lower("users") == "users" && IsKey("shares") && "shares" !in AUTH_NAMES && "users" in AUTH_NAMES
    ensures IsTail(" # media")
  {
  }

  // ---- Both writers, as TOML reads the file ----

  /** No header of the file is overlooked by one of the writers, and none of theirs goes unseen. */
  ghost predicate Clear(es: seq<Entry>) {
    forall e, byAuth :: e in es ==> !Overlooked(OwnsOf(byAuth), e) && !Unseen(OwnsOf(byAuth), e)
  }

  /** New text has only headers its writer sees. */
  lemma WrittenClear(w: Write, e: Entry)
    requires Written(OwnsOf(w.byAuth), w.update) && e in Entries(Root, w.update)
    ensures forall byAuth :: !Overlooked(OwnsOf(byAuth), e) && !Unseen(OwnsOf(byAuth), e)
  {
    NamesApart();
    assert Mine(OwnsOf(w.byAuth), e);
    assert OwnsOf(w.byAuth) !! OwnsOf(!w.byAuth);
  }

  /** A write leaves a clear, well-formed file clear and well-formed. */
  lemma StaysClear(w: Write, before: Doc, after: Doc)
    requires Writes(w, before, after) && Written(OwnsOf(w.byAuth), w.update)
    requires Clear(Entries(Root, before)) && Legal(Entries(Root, before))
    ensures Clear(Entries(Root, after)) && Legal(Entries(Root, after))
  {
    var owns := OwnsOf(w.byAuth);
    var b, a :| Woven(owns, w.update, before, after, b, a);
    ForeignMembers(Entries(Root, before), owns);
    forall e | e in Entries(Root, after)
      ensures !TomlKind(e.text).Malformed? && Trim(e.text) == e.text
      ensures forall byAuth :: !Overlooked(OwnsOf(byAuth), e) && !Unseen(OwnsOf(byAuth), e)
    {
      if e in Entries(Root, w.update) {
        EntriesTrimmed(w.update, e);
        WrittenClear(w, e);
      } else {
        assert e in b + a;
      }
    }
  }

  /** What a writer last wrote, or what its arrays held at the start, as TOML reads it. */
  function LastRead(writes: seq<Write>, start: Doc, byAuth: bool): seq<Entry> {
    if writes == [] then Own(Reading(Root, start), OwnsOf(byAuth))
    else
      var last := writes[|writes| - 1];
      if last.byAuth == byAuth then Reading(Root, last.update) else LastRead(writes[..|writes| - 1], start, byAuth)
  }

  lemma OneTomlWrite(w: Write, before: Doc, after: Doc)
    requires Writes(w, before, after) && Written(OwnsOf(w.byAuth), w.update)
    requires Clear(Entries(Root, before)) && Legal(Entries(Root, before))
    ensures Own(Reading(Root, after), OwnsOf(w.byAuth)) == Reading(Root, w.update)
    ensures Own(Reading(Root, after), OwnsOf(!w.byAuth)) == Own(Reading(Root, before), OwnsOf(!w.byAuth))
    ensures Foreign(Reading(Root, after), AUTH_NAMES + KNOWN_CLIENTS_NAMES) ==
            Foreign(Reading(Root, before), AUTH_NAMES + KNOWN_CLIENTS_NAMES)
  {
    var mine, other := OwnsOf(w.byAuth), OwnsOf(!w.byAuth);
    LegalSplice(mine, w.update, before, after);
    NamesApart();
    OthersKept(Reading(Root, before), Reading(Root, after), mine, other);
    assert mine + other == AUTH_NAMES + KNOWN_CLIENTS_NAMES;
  }

  /**
   Over every interleaving that starts from a well-formed file with clear headers, TOML reads in each
   writer's arrays just its last text, and everything else unchanged.
   */
  lemma {:induction false} TomlWritersIndependent(writes: seq<Write>, docs: seq<Doc>, byAuth: bool)
    requires Interleaving(writes, docs) && WellFormed(docs[0]) && Clear(Entries(Root, docs[0]))
    requires forall i :: 0 <= i < |writes| ==> Written(OwnsOf(writes[i].byAuth), writes[i].update)
    ensures Clear(Entries(Root, docs[|writes|])) && Legal(Entries(Root, docs[|writes|]))
    ensures Own(Reading(Root, docs[|writes|]), OwnsOf(byAuth)) == LastRead(writes, docs[0], byAuth)
    ensures Foreign(Reading(Root, docs[|writes|]), AUTH_NAMES + KNOWN_CLIENTS_NAMES) ==
            Foreign(Reading(Root, docs[0]), AUTH_NAMES + KNOWN_CLIENTS_NAMES)
  {
    if writes == [] {
      EntriesLegal(Root, docs[0]);
    } else {
      var n := |writes| - 1;
      TomlWritersIndependent(writes[..n], docs[..n + 1], byAuth);
      assert Writes(writes[n], docs[n], docs[n + 1]);
      StaysClear(writes[n], docs[n], docs[n + 1]);
      OneTomlWrite(writes[n], docs[n], docs[n + 1]);
    }
  }

  // ---- A header that goes unseen ----

  /** The header of an own array with its key in quotes is one of the writer's for TOML, and not for the writer. */
  lemma QuotedHeaderMissed(owns: set<string>, before: Section, key: string)
    requires key in owns && SmallName(key)
    ensures MissesLine(owns, before, Header("\"" + key + "\"", ""))
  {
    var raw := "\"" + key + "\"";
    var t := Header(raw, "");
    var rest := t[2..];
    assert rest == raw + "]]" && rest[|raw|] == ']';
    assert forall i :: 0 <= i < |raw| ==> rest[i] == raw[i] && raw[i] != ']';
    assert Until(rest) == |raw|;
    assert rest[..|raw|] == raw == Inside(t);
    assert t[4 + |raw|..] == "";
    Untouched(raw);
    assert IsQuoted(raw) && KeyOf(raw) == key;
    assert TrimStart("") == "";
  }
}
