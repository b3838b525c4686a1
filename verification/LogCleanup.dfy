/** Log retention: expired rotated files go first, then the oldest rotated files until under the cap. */
module LogCleanup {
  import opened Wrappers

  datatype Entry = Entry(path: string, size: nat, mtime: nat, rotated: Option<nat>)

  datatype Report = Report(
    deletedExpired: nat, deletedForSize: nat, bytesFreed: nat, overCapWithActive: bool, totalBytesAfter: nat)

  function Total(es: seq<Entry>): nat {
    if es == [] then 0 else Total(es[..|es| - 1]) + es[|es| - 1].size
  }

  lemma {:induction false} TotalConcat(a: seq<Entry>, b: seq<Entry>)
    ensures Total(a + b) == Total(a) + Total(b)
  {
    if b == [] {
      assert a + b == a;
    } else {
      assert (a + b)[..|a + b| - 1] == a + b[..|b| - 1];
      TotalConcat(a, b[..|b| - 1]);
    }
  }

  /** A rotated file from before the retention period. */
  predicate Expired(cutoff: Option<nat>, e: Entry) {
    cutoff.Some? && e.rotated.Some? && e.mtime < cutoff.value
  }

  /** Ways to sort out entries. */
  datatype Test = IsRotated | IsExpired(cutoff: Option<nat>) | Not(test: Test)

  predicate Passes(test: Test, e: Entry) {
    match test
    case IsRotated => e.rotated.Some?
    case IsExpired(cutoff) => Expired(cutoff, e)
    case Not(t) => !Passes(t, e)
  }

  /** The entries that pass, in order. */
  function Where(es: seq<Entry>, test: Test): seq<Entry> {
    if es == [] then []
    else
      var rest := Where(es[..|es| - 1], test);
      if Passes(test, es[|es| - 1]) then rest + [es[|es| - 1]] else rest
  }

  /** A test and its negation share out the entries. */
  lemma WhereSplits(es: seq<Entry>, test: Test)
    ensures multiset(Where(es, test)) + multiset(Where(es, Not(test))) == multiset(es)
    ensures Total(Where(es, test)) + Total(Where(es, Not(test))) == Total(es)
    ensures forall e :: e in Where(es, test) ==> e in es && Passes(test, e)
    ensures forall e :: e in Where(es, Not(test)) ==> e in es && !Passes(test, e)
  {
    WhereShares(es, test);
    WhereTotals(es, test);
    WhereMembers(es, test);
    WhereMembers(es, Not(test));
  }

  lemma {:induction false} WhereShares(es: seq<Entry>, test: Test)
    ensures multiset(Where(es, test)) + multiset(Where(es, Not(test))) == multiset(es)
  {
    if es != [] {
      var init, last := es[..|es| - 1], es[|es| - 1];
      WhereShares(init, test);
      assert es == init + [last];
    }
  }

  lemma {:induction false} WhereTotals(es: seq<Entry>, test: Test)
    ensures Total(Where(es, test)) + Total(Where(es, Not(test))) == Total(es)
  {
    if es != [] {
      var init, last := es[..|es| - 1], es[|es| - 1];
      WhereTotals(init, test);
      Snoc(Where(init, if Passes(test, last) then test else Not(test)), last);
    }
  }

  lemma {:induction false} WhereMembers(es: seq<Entry>, test: Test)
    ensures forall e :: e in Where(es, test) ==> e in es && Passes(test, e)
  {
    if es != [] {
      WhereMembers(es[..|es| - 1], test);
    }
  }

  lemma Snoc(es: seq<Entry>, e: Entry)
    ensures (es + [e])[..|es|] == es && Total(es + [e]) == Total(es) + e.size
  {
    assert (es + [e])[..|es|] == es;
  }

  // ---- Oldest first ----

  /** Older, or as old with at least as high a rotation number. */
  predicate Before(a: Entry, b: Entry) {
    a.mtime < b.mtime || (a.mtime == b.mtime && Rank(b) <= Rank(a))
  }

  function Rank(e: Entry): nat {
    if e.rotated.Some? then e.rotated.value + 1 else 0
  }

  ghost predicate Ordered(es: seq<Entry>) {
    forall i, j :: 0 <= i < j < |es| ==> Before(es[i], es[j])
  }

  function Insert(es: seq<Entry>, e: Entry): seq<Entry> {
    if es == [] || Before(es[|es| - 1], e) then es + [e] else Insert(es[..|es| - 1], e) + [es[|es| - 1]]
  }

  function OldestFirst(es: seq<Entry>): seq<Entry> {
    if es == [] then [] else Insert(OldestFirst(es[..|es| - 1]), es[|es| - 1])
  }

  lemma {:induction false} InsertShares(es: seq<Entry>, e: Entry)
    ensures multiset(Insert(es, e)) == multiset(es) + multiset{e}
    ensures forall x :: x in Insert(es, e) ==> x in es || x == e
  {
    if es != [] && !Before(es[|es| - 1], e) {
      InsertShares(es[..|es| - 1], e);
      assert es == es[..|es| - 1] + [es[|es| - 1]];
    }
  }

  lemma {:induction false} InsertTotals(es: seq<Entry>, e: Entry)
    ensures Total(Insert(es, e)) == Total(es) + e.size
  {
    if es == [] || Before(es[|es| - 1], e) {
      Snoc(es, e);
    } else {
      InsertTotals(es[..|es| - 1], e);
      Snoc(Insert(es[..|es| - 1], e), es[|es| - 1]);
    }
  }

  lemma {:induction false} InsertOrders(es: seq<Entry>, e: Entry)
    requires Ordered(es)
    ensures Ordered(Insert(es, e))
  {
    if es == [] || Before(es[|es| - 1], e) {
      assert forall i :: 0 <= i < |es| ==> Before(es[i], es[|es| - 1]) || i == |es| - 1;
    } else {
      var init, last := es[..|es| - 1], es[|es| - 1];
      InsertOrders(init, e);
      InsertShares(init, e);
      assert forall i :: 0 <= i < |Insert(init, e)| ==> Insert(init, e)[i] in Insert(init, e);
      assert forall x :: x in init ==> Before(x, last);
    }
  }

  lemma SortOrders(es: seq<Entry>)
    ensures Ordered(OldestFirst(es)) && multiset(OldestFirst(es)) == multiset(es) && Total(OldestFirst(es)) == Total(es)
  {
    SortOrdered(es);
    SortShares(es);
    SortTotals(es);
  }

  lemma {:induction false} SortOrdered(es: seq<Entry>)
    ensures Ordered(OldestFirst(es))
  {
    if es != [] {
      SortOrdered(es[..|es| - 1]);
      InsertOrders(OldestFirst(es[..|es| - 1]), es[|es| - 1]);
    }
  }

  lemma {:induction false} SortShares(es: seq<Entry>)
    ensures multiset(OldestFirst(es)) == multiset(es)
  {
    if es != [] {
      var init, last := es[..|es| - 1], es[|es| - 1];
      SortShares(init);
      InsertShares(OldestFirst(init), last);
      assert es == init + [last];
    }
  }

  lemma {:induction false} SortTotals(es: seq<Entry>)
    ensures Total(OldestFirst(es)) == Total(es)
  {
    if es != [] {
      SortTotals(es[..|es| - 1]);
      InsertTotals(OldestFirst(es[..|es| - 1]), es[|es| - 1]);
    }
  }

  // ---- The pass ----

  /** How many of the oldest candidates must go: the fewest that bring `total` to the cap, or all. */
  ghost predicate Shortest(candidates: seq<Entry>, k: nat, total: nat, cap: nat) {
    && k <= |candidates|
    && (total - Total(candidates[..k]) <= cap || k == |candidates|)
    && forall j :: 0 <= j < k ==> total - Total(candidates[..j]) > cap
  }

  method CountDoomed(candidates: seq<Entry>, total: nat, cap: nat) returns (k: nat, rest: nat)
    requires Total(candidates) <= total
    ensures Shortest(candidates, k, total, cap) && rest == total - Total(candidates[..k])
  {
    k, rest := 0, total;
    assert candidates[..|candidates|] == candidates;
    while k < |candidates| && rest > cap
      invariant k <= |candidates| && rest == total - Total(candidates[..k])
      invariant forall j :: 0 <= j < k ==> total - Total(candidates[..j]) > cap
    {
      assert candidates[..k + 1][..k] == candidates[..k];
      PrefixTotal(candidates, k + 1);
      rest := rest - candidates[k].size;
      k := k + 1;
    }
  }

  lemma PrefixTotal(es: seq<Entry>, k: nat)
    requires k <= |es|
    ensures Total(es[..k]) <= Total(es) && Total(es[..k]) + Total(es[k..]) == Total(es)
  {
    assert es == es[..k] + es[k..];
    TotalConcat(es[..k], es[k..]);
  }

  /** The size pass over the files that did not expire; the rotated ones are candidates. */
  method SizePass(active: seq<Entry>, rotated: seq<Entry>, cap: nat) returns (oldest: seq<Entry>, stays: seq<Entry>, total: nat)
    ensures multiset(oldest) + multiset(stays) == multiset(active) + multiset(rotated)
    ensures total == Total(stays) && Total(oldest) + Total(stays) == Total(active) + Total(rotated)
    ensures forall e :: e in oldest ==> e in rotated
    ensures forall e :: e in stays ==> e in active || e in rotated
    ensures forall e, k :: e in oldest && k in stays ==> k in active || Before(e, k)
    ensures oldest != [] ==> Total(stays) + oldest[|oldest| - 1].size > cap
    ensures total > cap <==> Total(active) > cap
  {
    var candidates := OldestFirst(rotated);
    SortOrders(rotated);
    var k, rest := CountDoomed(candidates, Total(active) + Total(rotated), cap);
    oldest, stays, total := candidates[..k], active + candidates[k..], rest;
    CutTotals(active, candidates, k, cap);
    CutShares(active, rotated, candidates, k);
    CutOrders(active, candidates, k);
  }

  lemma CutShares(active: seq<Entry>, rotated: seq<Entry>, candidates: seq<Entry>, k: nat)
    requires multiset(candidates) == multiset(rotated) && k <= |candidates|
    ensures multiset(candidates[..k]) + multiset(active + candidates[k..]) == multiset(active) + multiset(rotated)
    ensures forall e :: e in candidates[..k] ==> e in rotated
    ensures forall e :: e in active + candidates[k..] ==> e in active || e in rotated
  {
    MembersOf(candidates, rotated);
    assert candidates == candidates[..k] + candidates[k..];
    assert multiset(active + candidates[k..]) == multiset(active) + multiset(candidates[k..]);
    assert forall e :: e in candidates[..k] ==> e in candidates;
  }

  lemma CutOrders(active: seq<Entry>, candidates: seq<Entry>, k: nat)
    requires Ordered(candidates) && k <= |candidates|
    ensures forall e, x :: e in candidates[..k] && x in active + candidates[k..] ==> x in active || Before(e, x)
  {
    forall e, x | e in candidates[..k] && x in candidates[k..]
      ensures Before(e, x)
    {
    }
  }

  lemma CutTotals(active: seq<Entry>, candidates: seq<Entry>, k: nat, cap: nat)
    requires Shortest(candidates, k, Total(active) + Total(candidates), cap)
    ensures Total(active + candidates[k..]) == Total(active) + Total(candidates) - Total(candidates[..k])
    ensures k > 0 ==> Total(active + candidates[k..]) + candidates[k - 1].size > cap
    ensures Total(active + candidates[k..]) > cap <==> Total(active) > cap
  {
    PrefixTotal(candidates, k);
    TotalConcat(active, candidates[k..]);
    if k > 0 {
      PrefixGrows(candidates, k);
    }
    assert k == |candidates| ==> candidates[..k] == candidates;
  }

  lemma PrefixGrows(es: seq<Entry>, k: nat)
    requires 0 < k <= |es|
    ensures Total(es[..k]) == Total(es[..k - 1]) + es[k - 1].size
  {
    assert es[..k][..k - 1] == es[..k - 1];
  }

  /** What is deleted in each step, and what stays. */
  datatype Outcome = Outcome(expired: seq<Entry>, oldest: seq<Entry>, stays: seq<Entry>)

  /**
   One pass, all removals succeeding. Bytes are conserved; only rotated files go; the size pass takes
   the shortest oldest-first run that reaches the cap; the flag is raised exactly when the files that
   are never deleted exceed the cap by themselves.
   */
  method Cleanup(entries: seq<Entry>, cutoff: Option<nat>, cap: Option<nat>) returns (report: Report, out: Outcome)
    ensures multiset(out.expired) + multiset(out.oldest) + multiset(out.stays) == multiset(entries)
    ensures report.bytesFreed == Total(out.expired) + Total(out.oldest)
    ensures report.totalBytesAfter == Total(out.stays) && report.bytesFreed + report.totalBytesAfter == Total(entries)
    ensures report.deletedExpired == |out.expired| && report.deletedForSize == |out.oldest|
    ensures forall e :: e in out.expired ==> e.rotated.Some? && cutoff.Some? && e.mtime < cutoff.value
    ensures forall e :: e in out.stays || e in out.oldest ==> e.rotated.None? || cutoff.None? || e.mtime >= cutoff.value
    ensures forall e :: e in out.oldest ==> e.rotated.Some?
    ensures forall e, k :: e in out.oldest && k in out.stays && k.rotated.Some? ==>
              e.mtime < k.mtime || (e.mtime == k.mtime && e.rotated.value >= k.rotated.value)
    ensures out.oldest != [] ==> cap.Some? && Total(out.stays) + out.oldest[|out.oldest| - 1].size > cap.value
    ensures report.overCapWithActive <==> cap.Some? && Total(Where(entries, Not(IsRotated))) > cap.value
    ensures cap.Some? && !report.overCapWithActive ==> report.totalBytesAfter <= cap.value
  {
    var expired, active, rotated := SortOut(entries, cutoff);
    if cap.None? || Total(active) + Total(rotated) <= cap.value {
      TotalConcat(active, rotated);
      Exchange(multiset(expired), multiset{}, multiset(active + rotated), multiset(active), multiset(rotated));
      report := Report(|expired|, 0, Total(expired), false, Total(active) + Total(rotated));
      out := Outcome(expired, [], active + rotated);
      return;
    }
    var oldest, stays, rest := SizePass(active, rotated, cap.value);
    Exchange(multiset(expired), multiset(oldest), multiset(stays), multiset(active), multiset(rotated));
    out := Outcome(expired, oldest, stays);
    report := Report(|expired|, |oldest|, Total(expired) + Total(oldest), rest > cap.value, rest);
  }

  lemma Exchange<T>(e: multiset<T>, o: multiset<T>, s: multiset<T>, a: multiset<T>, r: multiset<T>)
    requires o + s == a + r
    ensures e + o + s == e + a + r
  {
    assert e + o + s == e + (o + s);
    assert e + a + r == e + (a + r);
  }

  method SortOut(entries: seq<Entry>, cutoff: Option<nat>) returns (expired: seq<Entry>, active: seq<Entry>, rotated: seq<Entry>)
    ensures expired == Where(entries, IsExpired(cutoff))
    ensures multiset(expired) + multiset(active) + multiset(rotated) == multiset(entries)
    ensures Total(expired) + Total(active) + Total(rotated) == Total(entries)
    ensures active == Where(entries, Not(IsRotated)) && forall e :: e in active ==> e.rotated.None?
    ensures forall e :: e in rotated ==> e.rotated.Some? && !Expired(cutoff, e)
    ensures forall e :: e in expired ==> Expired(cutoff, e)
  {
    expired := Where(entries, IsExpired(cutoff));
    var kept := Where(entries, Not(IsExpired(cutoff)));
    WhereSplits(entries, IsExpired(cutoff));
    ActiveStays(entries, cutoff);
    active, rotated := Where(kept, Not(IsRotated)), Where(kept, IsRotated);
    WhereSplits(kept, IsRotated);
  }

  lemma MembersOf(a: seq<Entry>, b: seq<Entry>)
    requires multiset(a) == multiset(b)
    ensures forall e :: e in a <==> e in b
  {
    forall e
      ensures e in a <==> e in b
    {
      assert e in a <==> e in multiset(a);
      assert e in b <==> e in multiset(b);
    }
  }

  /** No active file expires. */
  lemma {:induction false} ActiveStays(es: seq<Entry>, cutoff: Option<nat>)
    ensures Where(Where(es, Not(IsExpired(cutoff))), Not(IsRotated)) == Where(es, Not(IsRotated))
  {
    if es != [] {
      var init, last := es[..|es| - 1], es[|es| - 1];
      ActiveStays(init, cutoff);
      WhereOneMore(Where(init, Not(IsExpired(cutoff))), last, Not(IsRotated));
      assert Passes(Not(IsRotated), last) ==> Passes(Not(IsExpired(cutoff)), last);
    }
  }

  lemma WhereOneMore(es: seq<Entry>, e: Entry, test: Test)
    ensures Where(es + [e], test) == Where(es, test) + if Passes(test, e) then [e] else []
  {
    assert (es + [e])[..|es|] == es;
  }
}
