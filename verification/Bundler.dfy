/** Packing paths into messages: small files in bundles, large files one by one. */
module Bundler {
  import opened Paths

  const BUNDLE_MAX_BYTES := 8 * 1024 * 1024
  const BUNDLE_MAX_FILES := 500
  const LARGE_FILE_THRESHOLD := 8 * 1024 * 1024

  /** A path as the stat call describes it. */
  datatype Item = Directory(path: Path) | File(path: Path, size: nat)

  datatype Message = Bundle(items: seq<Item>) | LargeFile(item: Item)

  function Size(i: Item): nat {
    if i.File? then i.size else 0
  }

  function Bytes(items: seq<Item>): nat {
    if items == [] then 0 else Bytes(items[..|items| - 1]) + Size(items[|items| - 1])
  }

  predicate IsLarge(i: Item) {
    i.File? && i.size >= LARGE_FILE_THRESHOLD
  }

  function Carried(m: Message): seq<Item> {
    match m
    case Bundle(items) => items
    case LargeFile(item) => [item]
  }

  /** Everything the messages carry, in order. */
  function Flatten(msgs: seq<Message>): seq<Item> {
    if msgs == [] then [] else Flatten(msgs[..|msgs| - 1]) + Carried(msgs[|msgs| - 1])
  }

  /** Small items within the byte limit; past the file limit only directories follow. */
  ghost predicate Packed(items: seq<Item>) {
    && Bytes(items) <= BUNDLE_MAX_BYTES
    && (forall k :: 0 <= k < |items| && items[k].File? ==> items[k].size < LARGE_FILE_THRESHOLD)
    && (forall k :: BUNDLE_MAX_FILES <= k < |items| ==> items[k].Directory?)
  }

  ghost predicate WellFormed(m: Message) {
    match m
    case Bundle(items) => items != [] && Packed(items)
    case LargeFile(item) => item.File? && item.size >= LARGE_FILE_THRESHOLD
  }

  /** A bundle was closed early only because the next small file would have passed a limit. */
  ghost predicate Greedy(msgs: seq<Message>) {
    forall k, l :: 0 <= k < l < |msgs| && l == k + 1 && msgs[k].Bundle? && msgs[l].Bundle? && msgs[l].items != [] ==>
      var next := msgs[l].items[0];
      next.File? && (|msgs[k].items| >= BUNDLE_MAX_FILES || Bytes(msgs[k].items) + next.size > BUNDLE_MAX_BYTES)
  }

  lemma BytesSnoc(items: seq<Item>, i: Item)
    ensures Bytes(items + [i]) == Bytes(items) + Size(i)
  {
    assert (items + [i])[..|items|] == items;
  }

  lemma FlattenSnoc(msgs: seq<Message>, m: Message)
    ensures Flatten(msgs + [m]) == Flatten(msgs) + Carried(m)
  {
    assert (msgs + [m])[..|msgs|] == msgs;
  }

  /** What the packer has done with the items `seen`: sent messages, and a bundle being filled. */
  ghost predicate Packing(seen: seq<Item>, msgs: seq<Message>, cur: seq<Item>) {
    && Flatten(msgs) + cur == seen && Packed(cur)
    && (forall m :: m in msgs ==> WellFormed(m))
    && Greedy(if cur == [] then msgs else msgs + [Bundle(cur)])
  }

  method FlushBundle(msgs: seq<Message>, cur: seq<Item>, ghost seen: seq<Item>) returns (out: seq<Message>)
    requires Packing(seen, msgs, cur)
    ensures Packing(seen, out, []) && out == if cur == [] then msgs else msgs + [Bundle(cur)]
  {
    out := msgs;
    if cur != [] {
      FlattenSnoc(msgs, Bundle(cur));
      out := msgs + [Bundle(cur)];
    }
    assert Flatten(out) + [] == Flatten(out);
  }

  /** Adding to a bundle under way keeps its first item, so the bundle before it stays justified. */
  lemma Fill(seen: seq<Item>, msgs: seq<Message>, cur: seq<Item>, i: Item)
    requires Packing(seen, msgs, cur) && cur != [] && Packed(cur + [i])
    ensures Packing(seen + [i], msgs, cur + [i])
  {
    var before, after := msgs + [Bundle(cur)], msgs + [Bundle(cur + [i])];
    assert Flatten(msgs) + (cur + [i]) == seen + [i];
    forall k, l | 0 <= k < l < |after| && l == k + 1 && after[k].Bundle? && after[l].Bundle? && after[l].items != []
      ensures before[k] == after[k] && before[l].Bundle? && before[l].items != [] && before[l].items[0] == after[l].items[0]
    {
    }
  }

  lemma {:induction false} BytesCount(items: seq<Item>, k: nat)
    requires k < |items|
    ensures items[k].File? ==> Bytes(items) >= items[k].size
  {
    if k < |items| - 1 {
      BytesCount(items[..|items| - 1], k);
    }
  }

  /** Any two files of a bundle fit within the byte limit together. */
  lemma {:induction false} FilesFitTogether(items: seq<Item>, k: nat, l: nat)
    requires k < l < |items| && items[k].File? && items[l].File?
    ensures Bytes(items) >= items[k].size + items[l].size
    ensures Packed(items) ==> items[k].size + items[l].size <= BUNDLE_MAX_BYTES
  {
    var init := items[..|items| - 1];
    if l < |init| {
      FilesFitTogether(init, k, l);
    } else {
      BytesCount(init, k);
    }
  }

  /** Starting a bundle after messages that do not end with one it could have joined. */
  lemma Start(seen: seq<Item>, msgs: seq<Message>, i: Item)
    requires Packing(seen, msgs, []) && !IsLarge(i)
    requires msgs != [] && msgs[|msgs| - 1].Bundle? ==>
               var last := msgs[|msgs| - 1].items;
               i.File? && (|last| >= BUNDLE_MAX_FILES || Bytes(last) + i.size > BUNDLE_MAX_BYTES)
    ensures Packing(seen + [i], msgs, [i])
  {
    BytesSnoc([], i);
    assert [] + [i] == [i] && Flatten(msgs) + [i] == seen + [i];
  }

  lemma SendLarge(seen: seq<Item>, msgs: seq<Message>, item: Item)
    requires Packing(seen, msgs, []) && IsLarge(item)
    ensures Packing(seen + [item], msgs + [LargeFile(item)], [])
  {
    FlattenSnoc(msgs, LargeFile(item));
    assert Flatten(msgs) + [] == Flatten(msgs) && Flatten(msgs + [LargeFile(item)]) + [] == seen + [item];
  }

  /** An empty bundle under way means that nothing was sent yet, or a large file last. */
  ghost predicate FreshStart(msgs: seq<Message>, cur: seq<Item>) {
    cur == [] ==> msgs == [] || msgs[|msgs| - 1].LargeFile?
  }

  /** The item may join the bundle under way: a directory always may. */
  predicate Fits(cur: seq<Item>, item: Item) {
    item.Directory? || cur == [] || (|cur| < BUNDLE_MAX_FILES && Bytes(cur) + item.size <= BUNDLE_MAX_BYTES)
  }

  /** The bundle under way once the item has been taken. */
  function Filled(cur: seq<Item>, item: Item): seq<Item> {
    if IsLarge(item) then [] else if Fits(cur, item) then cur + [item] else [item]
  }

  /** The bundle under way after some items. */
  function UnderWay(items: seq<Item>): seq<Item> {
    if items == [] then [] else Filled(UnderWay(items[..|items| - 1]), items[|items| - 1])
  }

  predicate Oversized(m: Message) {
    m.Bundle? && |m.items| > BUNDLE_MAX_FILES
  }

  /** A sent bundle, or the one under way, has passed the file limit. */
  ghost predicate Overfull(msgs: seq<Message>, cur: seq<Item>) {
    |cur| > BUNDLE_MAX_FILES || AnyOversized(msgs)
  }

  ghost predicate AnyOversized(msgs: seq<Message>) {
    exists m :: m in msgs && Oversized(m)
  }

  lemma OversizedSnoc(msgs: seq<Message>, m: Message)
    ensures AnyOversized(msgs + [m]) <==> AnyOversized(msgs) || Oversized(m)
  {
    if AnyOversized(msgs) {
      var x :| x in msgs && Oversized(x);
      assert x in msgs + [m];
    }
    if Oversized(m) {
      assert m in msgs + [m];
    }
  }

  /** A directory arrives while the bundle under way already holds the limit. */
  ghost predicate Overflows(items: seq<Item>) {
    exists k :: 0 <= k < |items| && OverflowsAt(items, k)
  }

  predicate OverflowsAt(items: seq<Item>, k: nat)
    requires k < |items|
  {
    items[k].Directory? && |UnderWay(items[..k])| >= BUNDLE_MAX_FILES
  }

  lemma OverflowsSnoc(items: seq<Item>, n: nat)
    requires n < |items|
    ensures UnderWay(items[..n + 1]) == Filled(UnderWay(items[..n]), items[n])
    ensures Overflows(items[..n + 1]) <==> Overflows(items[..n]) || OverflowsAt(items, n)
  {
    var whole, init := items[..n + 1], items[..n];
    assert whole[..n] == init && whole[n] == items[n];
    forall k | 0 <= k < n
      ensures OverflowsAt(whole, k) <==> OverflowsAt(init, k)
    {
      assert whole[..k] == init[..k] && whole[k] == init[k];
    }
    assert OverflowsAt(whole, n) <==> OverflowsAt(items, n);
  }

  /** A small item joins the bundle under way, or starts the next one when it would pass a limit. */
  method PackSmall(msgs: seq<Message>, cur: seq<Item>, item: Item, ghost seen: seq<Item>)
    returns (out: seq<Message>, filled: seq<Item>)
    requires Packing(seen, msgs, cur) && FreshStart(msgs, cur) && !IsLarge(item)
    ensures Packing(seen + [item], out, filled) && filled != []
    ensures filled == Filled(cur, item)
    ensures out == if Fits(cur, item) then msgs else msgs + [Bundle(cur)]
  {
    out := msgs;
    if !Fits(cur, item) {
      out := FlushBundle(msgs, cur, seen);
      Start(seen, out, item);
      filled := [item];
    } else if cur == [] {
      Start(seen, msgs, item);
      filled := [item];
    } else {
      JoinPacked(cur, item);
      Fill(seen, msgs, cur, item);
      filled := cur + [item];
    }
  }

  lemma JoinPacked(cur: seq<Item>, item: Item)
    requires Packed(cur) && cur != [] && Fits(cur, item) && !IsLarge(item)
    ensures Packed(cur + [item])
  {
    BytesSnoc(cur, item);
  }

  /** One path of the list. */
  method PackOne(msgs: seq<Message>, cur: seq<Item>, item: Item, ghost seen: seq<Item>)
    returns (out: seq<Message>, filled: seq<Item>)
    requires Packing(seen, msgs, cur) && FreshStart(msgs, cur)
    ensures Packing(seen + [item], out, filled) && FreshStart(out, filled)
    ensures filled == Filled(cur, item)
    ensures Overfull(out, filled) <==> Overfull(msgs, cur) || (item.Directory? && |cur| >= BUNDLE_MAX_FILES)
  {
    OversizedSnoc(msgs, Bundle(cur));
    if IsLarge(item) {
      var flushed := FlushBundle(msgs, cur, seen);
      SendLarge(seen, flushed, item);
      OversizedSnoc(flushed, LargeFile(item));
      out, filled := flushed + [LargeFile(item)], [];
    } else {
      out, filled := PackSmall(msgs, cur, item, seen);
    }
  }

  /**
   Streaming keeps every item once and in order, and no bundle passes the byte limit. Some bundle passes
   the file limit exactly when a directory arrives at a full one.
   */
  method StreamMessages(items: seq<Item>) returns (msgs: seq<Message>)
    ensures Flatten(msgs) == items
    ensures forall m :: m in msgs ==> WellFormed(m)
    ensures Greedy(msgs)
    ensures AnyOversized(msgs) <==> Overflows(items)
  {
    msgs := [];
    var cur: seq<Item> := [];
    for n := 0 to |items|
      invariant Packing(items[..n], msgs, cur) && FreshStart(msgs, cur)
      invariant Follows(items, n, msgs, cur)
    {
      msgs, cur := PackNext(msgs, cur, items, n);
    }
    assert items[..|items|] == items;
    msgs := LastBundle(msgs, cur, items);
  }

  method PackNext(msgs: seq<Message>, cur: seq<Item>, items: seq<Item>, n: nat)
    returns (out: seq<Message>, filled: seq<Item>)
    requires n < |items| && Packing(items[..n], msgs, cur) && FreshStart(msgs, cur) && Follows(items, n, msgs, cur)
    ensures Packing(items[..n + 1], out, filled) && FreshStart(out, filled) && Follows(items, n + 1, out, filled)
  {
    out, filled := PackOne(msgs, cur, items[n], items[..n]);
    FollowsOn(items, n, msgs, cur, out, filled);
    assert items[..n + 1] == items[..n] + [items[n]];
  }

  method LastBundle(msgs: seq<Message>, cur: seq<Item>, ghost items: seq<Item>) returns (out: seq<Message>)
    requires Packing(items, msgs, cur) && (Overfull(msgs, cur) <==> Overflows(items))
    ensures Flatten(out) == items && Greedy(out) && forall m :: m in out ==> WellFormed(m)
    ensures AnyOversized(out) <==> Overflows(items)
  {
    OversizedSnoc(msgs, Bundle(cur));
    out := FlushBundle(msgs, cur, items);
    assert Flatten(out) + [] == Flatten(out);
  }

  /** The bundle under way after `n` items is the one described, and a bundle overflowed if those items say so. */
  ghost predicate Follows(items: seq<Item>, n: nat, msgs: seq<Message>, cur: seq<Item>)
    requires n <= |items|
  {
    cur == UnderWay(items[..n]) && (Overfull(msgs, cur) <==> Overflows(items[..n]))
  }

  lemma FollowsOn(items: seq<Item>, n: nat, msgs: seq<Message>, cur: seq<Item>, out: seq<Message>, filled: seq<Item>)
    requires n < |items| && Follows(items, n, msgs, cur) && filled == Filled(cur, items[n])
    requires Overfull(out, filled) <==> Overfull(msgs, cur) || (items[n].Directory? && |cur| >= BUNDLE_MAX_FILES)
    ensures Follows(items, n + 1, out, filled)
  {
    OverflowsSnoc(items, n);
  }

  lemma {:induction false} CarriedArrives(msgs: seq<Message>, k: nat, i: Item)
    requires k < |msgs| && i in Carried(msgs[k])
    ensures i in Flatten(msgs)
  {
    if k < |msgs| - 1 {
      CarriedArrives(msgs[..|msgs| - 1], k, i);
    }
  }

  /** Directories are never split: however many there are, they go out as a single bundle. */
  lemma DirectoriesShareABundle(items: seq<Item>, msgs: seq<Message>)
    requires items != [] && forall k :: 0 <= k < |items| ==> items[k].Directory?
    requires Flatten(msgs) == items && Greedy(msgs) && forall m :: m in msgs ==> WellFormed(m)
    ensures msgs == [Bundle(items)]
  {
    forall k | 0 <= k < |msgs|
      ensures msgs[k].Bundle? && msgs[k].items != [] && msgs[k].items[0].Directory?
    {
      assert WellFormed(msgs[k]);
      var first := Carried(msgs[k])[0];
      CarriedArrives(msgs, k, first);
      assert first in items;
    }
    if |msgs| > 1 {
      assert false;
    }
    assert msgs != [];
    FlattenSnoc([], msgs[0]);
    assert [] + [msgs[0]] == msgs && Flatten([]) + Carried(msgs[0]) == Carried(msgs[0]);
  }

  /** 501 directories make a bundle of 501 entries, past the limit of 500. */
  method ManyDirectories() returns (msgs: seq<Message>)
    ensures |msgs| == 1 && msgs[0].Bundle? && |msgs[0].items| == 501 && Oversized(msgs[0])
  {
    var items := seq(501, _ => Directory(["d"]));
    msgs := StreamMessages(items);
    DirectoriesShareABundle(items, msgs);
  }
}
