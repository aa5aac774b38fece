/** The collecting half of the MediaFire folder exporter: `collectVisibleFiles`
    adds every titled file link on screen to an insertion-ordered map keyed by
    URL, leaving URLs it already holds alone, and `scrollAndCollectAll` repeats
    that while scrolling until the scroll position stops moving. */
module MediaFireCollect {
  import opened Options
  import opened MediaFireStats
  import opened MediaFireCsv

  /** A file link of the listing: its resolved `href`, its `title` attribute
      ("" when it has none) and the text of the closest list item, None when
      the link is not inside one. */
  datatype Anchor = Anchor(href: string, title: string, li: Option<string>)

  /** `String(Math.round(size * 1000) / 1000)` of the size in megabytes:
      floating-point work the model leaves to the caller. */
  type SizeFormatter = SizeReading -> string

  /** The item recorded for a link. */
  function ItemOf(a: Anchor, fmt: SizeFormatter): (r: Item)
    ensures r.url == a.href && r.name == FileName(a.title)
    ensures AllDigits(r.downloads) && ',' !in r.downloads
    ensures r.downloads == ParseStats(a.title, a.li.GetOr("")).downloads
    ensures var size := ParseStats(a.title, a.li.GetOr("")).size;
      r.sizeMb == if size.Some? then fmt(size.value) else ""
    ensures r.modified == Modified(a.li.GetOr(""))
  {
    var liText := a.li.GetOr("");
    var st := ParseStats(a.title, liText);
    DownloadsAreDigits(a.title, liText);
    Item(FileName(a.title), st.downloads, if st.size.Some? then fmt(st.size.value) else "",
         a.href, Modified(liText))
  }

  /** The content of a JavaScript `Map` from URL to item: its keys in
      insertion order and its entries. */
  datatype Entries = Entries(keys: seq<string>, items: map<string, Item>)

  const Empty := Entries([], map[])

  predicate WellFormed(e: Entries) {
    && (forall i, j | 0 <= i < j < |e.keys| :: e.keys[i] != e.keys[j])
    && (forall k | k in e.items :: k in e.keys)
    && (forall k | k in e.keys :: k in e.items)
  }

  /** `Array.from(map.values())`: the items in insertion order. */
  function InsertionOrder(e: Entries): (r: seq<Item>)
    requires WellFormed(e)
    ensures |r| == |e.keys|
    ensures forall i | 0 <= i < |e.keys| :: r[i] == e.items[e.keys[i]]
  {
    seq(|e.keys|, i requires 0 <= i < |e.keys| && WellFormed(e) => e.items[e.keys[i]])
  }

  /** Whether the link is one `collectVisibleFiles` looks at. */
  predicate Titled(a: Anchor) { a.title != "" }

  /** The map after `collectVisibleFiles` has gone over `anchors` in order. */
  function Collect(e: Entries, anchors: seq<Anchor>, fmt: SizeFormatter): (r: Entries)
    requires WellFormed(e)
    ensures WellFormed(r)
  {
    if anchors == [] then e
    else
      var before := Collect(e, anchors[..|anchors| - 1], fmt);
      var a := anchors[|anchors| - 1];
      if !Titled(a) || a.href in before.items then before
      else Entries(before.keys + [a.href], before.items[a.href := ItemOf(a, fmt)])
  }

  /** Collecting keeps the old keys first and in order, and leaves every
      existing entry unchanged. */
  lemma {:induction false} CollectExtends(e: Entries, anchors: seq<Anchor>, fmt: SizeFormatter)
    requires WellFormed(e)
    ensures var r := Collect(e, anchors, fmt);
      && |e.keys| <= |r.keys| && r.keys[..|e.keys|] == e.keys
      && forall k | k in e.items :: k in r.items && r.items[k] == e.items[k]
  {
    if anchors != [] {
      var before := Collect(e, anchors[..|anchors| - 1], fmt);
      CollectExtends(e, anchors[..|anchors| - 1], fmt);
      assert (before.keys + [anchors[|anchors| - 1].href])[..|e.keys|] == before.keys[..|e.keys|];
    }
  }

  /** The index of the first titled link to `url`, or `|anchors|` when there is none. */
  function FirstTitled(anchors: seq<Anchor>, url: string): (j: nat)
    ensures j <= |anchors|
    ensures j < |anchors| ==> Titled(anchors[j]) && anchors[j].href == url
    ensures forall i | 0 <= i < j :: !(Titled(anchors[i]) && anchors[i].href == url)
  {
    if anchors == [] then 0
    else
      var n := |anchors| - 1;
      var j := FirstTitled(anchors[..n], url);
      if j < n then j
      else if Titled(anchors[n]) && anchors[n].href == url then n
      else |anchors|
  }

  /** The keys a collection adds come after the old ones and are new. */
  lemma AddedKeysAreNew(e: Entries, r: Entries)
    requires WellFormed(e) && WellFormed(r)
    requires |e.keys| <= |r.keys| && r.keys[..|e.keys|] == e.keys
    ensures forall p | |e.keys| <= p < |r.keys| :: r.keys[p] !in e.items
  {
    forall p | |e.keys| <= p < |r.keys|
      ensures r.keys[p] !in e.items
    {
      forall m | 0 <= m < |e.keys|
        ensures e.keys[m] != r.keys[p]
      {
        assert r.keys[m] == e.keys[m];
      }
    }
  }

  /** How the first titled link to a URL moves when one more link is added. */
  lemma FirstTitledSnoc(anchors: seq<Anchor>, url: string)
    requires anchors != []
    ensures var n := |anchors| - 1;
      var j := FirstTitled(anchors[..n], url);
      && (j < n ==> FirstTitled(anchors, url) == j)
      && (j == n && Titled(anchors[n]) && anchors[n].href == url ==> FirstTitled(anchors, url) == n)
      && (j == n && !(Titled(anchors[n]) && anchors[n].href == url) ==> FirstTitled(anchors, url) == |anchors|)
  {
  }

  /** The map ends up holding exactly the URLs it held and those of the
      titled links. */
  lemma {:induction false} CollectDomain(e: Entries, anchors: seq<Anchor>, fmt: SizeFormatter, k: string)
    requires WellFormed(e)
    ensures k in Collect(e, anchors, fmt).items <==> k in e.items || FirstTitled(anchors, k) < |anchors|
  {
    if anchors != [] {
      CollectDomain(e, anchors[..|anchors| - 1], fmt, k);
      FirstTitledSnoc(anchors, k);
    }
  }

  /** A URL the map did not hold gets the item of its first titled link:
      later links to the same URL change nothing. */
  lemma {:induction false} CollectFirstWins(e: Entries, anchors: seq<Anchor>, fmt: SizeFormatter, k: string)
    requires WellFormed(e)
    requires k !in e.items && FirstTitled(anchors, k) < |anchors|
    ensures k in Collect(e, anchors, fmt).items
    ensures Collect(e, anchors, fmt).items[k] == ItemOf(anchors[FirstTitled(anchors, k)], fmt)
  {
    var n := |anchors| - 1;
    FirstTitledSnoc(anchors, k);
    CollectDomain(e, anchors[..n], fmt, k);
    if FirstTitled(anchors[..n], k) < n {
      CollectFirstWins(e, anchors[..n], fmt, k);
    }
  }

  /** The URLs the map gains come after the old ones, in the order in which
      their first titled links appear. */
  lemma {:induction false} CollectOrder(e: Entries, anchors: seq<Anchor>, fmt: SizeFormatter, p: nat, q: nat)
    requires WellFormed(e)
    requires |e.keys| <= p < q < |Collect(e, anchors, fmt).keys|
    ensures var r := Collect(e, anchors, fmt);
      FirstTitled(anchors, r.keys[p]) < FirstTitled(anchors, r.keys[q])
  {
    var n := |anchors| - 1;
    var pre := anchors[..n];
    var before := Collect(e, pre, fmt);
    var r := Collect(e, anchors, fmt);
    CollectExtends(e, pre, fmt);
    AddedKeysAreNew(e, before);
    assert r.keys[p] == before.keys[p];
    CollectDomain(e, pre, fmt, before.keys[p]);
    FirstTitledSnoc(anchors, before.keys[p]);
    if q < |before.keys| {
      CollectOrder(e, pre, fmt, p, q);
      CollectDomain(e, pre, fmt, before.keys[q]);
      FirstTitledSnoc(anchors, before.keys[q]);
    } else {
      var a := anchors[n];
      var grown := Entries(before.keys + [a.href], before.items[a.href := ItemOf(a, fmt)]);
      assert r == if !Titled(a) || a.href in before.items then before else grown;
      assert r == grown;
      assert r.keys[q] == a.href && a.href !in before.items;
      CollectDomain(e, pre, fmt, a.href);
      FirstTitledSnoc(anchors, a.href);
    }
  }

  /** `resultMap`, a JavaScript `Map` from URL to item. */
  class ResultMap {
    var keys: seq<string>
    var items: map<string, Item>

    function Content(): Entries
      reads this
    {
      Entries(keys, items)
    }

    ghost predicate Valid()
      reads this
    {
      WellFormed(Content())
    }

    constructor ()
      ensures Valid() && Content() == Empty
    {
      keys := [];
      items := map[];
    }

    /** `map.has(url)` */
    predicate Has(url: string)
      reads this
    {
      url in items
    }

    /** `map.set(url, item)`: a new key goes last; an existing one keeps its place. */
    method Set(url: string, item: Item)
      requires Valid()
      modifies this
      ensures Valid()
      ensures items == old(items)[url := item]
      ensures keys == if url in old(items) then old(keys) else old(keys) + [url]
    {
      if url !in items {
        keys := keys + [url];
      }
      items := items[url := item];
    }

    /** `Array.from(map.values())` */
    function Values(): (r: seq<Item>)
      reads this
      requires Valid()
      ensures |r| == |keys|
      ensures forall i | 0 <= i < |keys| :: r[i] == items[keys[i]]
    {
      InsertionOrder(Content())
    }
  }

  /** `collectVisibleFiles(resultMap)` over the file links now in the page. */
  method CollectVisibleFiles(resultMap: ResultMap, anchors: seq<Anchor>, fmt: SizeFormatter)
    requires resultMap.Valid()
    modifies resultMap
    ensures resultMap.Valid()
    ensures resultMap.Content() == Collect(old(resultMap.Content()), anchors, fmt)
  {
    for i := 0 to |anchors|
      invariant resultMap.Valid()
      invariant resultMap.Content() == Collect(old(resultMap.Content()), anchors[..i], fmt)
    {
      assert anchors[..i + 1][..i] == anchors[..i];
      var a := anchors[i];
      if !Titled(a) || resultMap.Has(a.href) {
        continue;
      }
      resultMap.Set(a.href, ItemOf(a, fmt));
    }
    assert anchors[..|anchors|] == anchors;
  }

  // ---- The scroll loop ----

  /** One round of the loop: the file links on screen when it collects, and
      the scroll position read after scrolling and waiting. */
  datatype Poll = Poll(visible: seq<Anchor>, scrollTop: int)

  /** The position the loop compares the `i`th reading with: the one before
      it, or -1 for the first. */
  function Prev(ys: seq<int>, i: nat): int
    requires i <= |ys|
  {
    if i == 0 then -1 else ys[i - 1]
  }

  predicate Unmoved(ys: seq<int>, i: nat)
    requires i < |ys|
  {
    ys[i] == Prev(ys, i)
  }

  /** The `n`th reading is the third in a row to equal the one before it. */
  predicate Settled(ys: seq<int>, n: nat) {
    2 <= n < |ys| && Unmoved(ys, n) && Unmoved(ys, n - 1) && Unmoved(ys, n - 2)
  }

  /** The first reading that settles the loop, if any. */
  function FirstSettled(ys: seq<int>, from: nat): (r: Option<nat>)
    requires from <= |ys|
    ensures r.Some? ==> from <= r.value < |ys| && Settled(ys, r.value)
    ensures r.Some? ==> forall n | from <= n < r.value :: !Settled(ys, n)
    ensures r.None? ==> forall n | from <= n < |ys| :: !Settled(ys, n)
    decreases |ys| - from
  {
    if from == |ys| then None
    else if Settled(ys, from) then Some(from)
    else FirstSettled(ys, from + 1)
  }

  function Positions(polls: seq<Poll>): (ys: seq<int>)
    ensures |ys| == |polls|
    ensures forall i | 0 <= i < |polls| :: ys[i] == polls[i].scrollTop
  {
    seq(|polls|, i requires 0 <= i < |polls| => polls[i].scrollTop)
  }

  /** The map after collecting over the views of the first `i` rounds in turn. */
  function Gathered(polls: seq<Poll>, i: nat, fmt: SizeFormatter): (r: Entries)
    requires i <= |polls|
    ensures WellFormed(r)
  {
    if i == 0 then Empty else Collect(Gathered(polls, i - 1, fmt), polls[i - 1].visible, fmt)
  }

  /** The `unchanged` counter after the first `i` readings: how many of
      them, counting back from the last, did not move. */
  function StillRun(ys: seq<int>, i: nat): (c: nat)
    requires i <= |ys|
    ensures c <= i
  {
    if i == 0 then 0
    else if Unmoved(ys, i - 1) then StillRun(ys, i - 1) + 1
    else 0
  }

  /** The counter reaches 3 exactly at a settling reading. */
  lemma StillRunSettles(ys: seq<int>, n: nat)
    requires n < |ys|
    ensures Settled(ys, n) <==> StillRun(ys, n + 1) >= 3
  {
    if n >= 2 && Unmoved(ys, n) && Unmoved(ys, n - 1) {
      assert StillRun(ys, n + 1) == StillRun(ys, n - 1) + 2;
    }
  }

  /** One pass of the loop body: collect the links on screen, scroll, and
      compare the new reading with `prevY` to update the script's `unchanged`
      counter, here `unchangedCount`.
      Both counters follow the readings so far, and the pass tells whether
      the `i`th reading is the one that settles the loop. */
  method PollOnce(resultMap: ResultMap, polls: seq<Poll>, i: nat, unchangedCount: nat, prevY: int, fmt: SizeFormatter)
    returns (unchangedCount': nat, prevY': int)
    requires i < |polls| && unchangedCount < 3
    requires unchangedCount == StillRun(Positions(polls), i) && prevY == Prev(Positions(polls), i)
    requires resultMap.Valid() && resultMap.Content() == Gathered(polls, i, fmt)
    modifies resultMap
    ensures resultMap.Valid() && resultMap.Content() == Gathered(polls, i + 1, fmt)
    ensures unchangedCount' == StillRun(Positions(polls), i + 1) && prevY' == Prev(Positions(polls), i + 1)
    ensures FirstSettled(Positions(polls), i) == if unchangedCount' >= 3 then Some(i) else FirstSettled(Positions(polls), i + 1)
  {
    CollectVisibleFiles(resultMap, polls[i].visible, fmt);
    StillRunSettles(Positions(polls), i);
    var currentY := polls[i].scrollTop;
    unchangedCount', prevY' := unchangedCount, prevY;
    if currentY == prevY {
      unchangedCount' := unchangedCount + 1;
    } else {
      unchangedCount' := 0;
      prevY' := currentY;
    }
  }

  /** `scrollAndCollectAll` over the rounds `polls` and the links on screen
      at the final collection. The loop stops right after the third reading
      in a row that equals the reading before it; its result is the items of
      every round up to then and of the final collection, in first-seen
      order. None stands for a loop that has not stopped by the last round
      given, where the page would go on scrolling. */
  method ScrollAndCollectAll(polls: seq<Poll>, finalView: seq<Anchor>, fmt: SizeFormatter)
    returns (r: Option<seq<Item>>)
    ensures r.None? <==> FirstSettled(Positions(polls), 0).None?
    ensures r.Some? ==>
              var n := FirstSettled(Positions(polls), 0).value;
              r.value == InsertionOrder(Collect(Gathered(polls, n + 1, fmt), finalView, fmt))
  {
    ghost var ys := Positions(polls);
    var resultMap := new ResultMap();
    var unchangedCount := 0;
    var prevY := -1;
    var i := 0;
    while unchangedCount < 3
      invariant 0 <= i <= |polls|
      invariant resultMap.Valid()
      invariant resultMap.Content() == Gathered(polls, i, fmt)
      invariant unchangedCount == StillRun(ys, i) && prevY == Prev(ys, i)
      invariant FirstSettled(ys, 0) == if unchangedCount >= 3 then Some(i - 1) else FirstSettled(ys, i)
      decreases |polls| - i
    {
      if i == |polls| {
        return None;
      }
      unchangedCount, prevY := PollOnce(resultMap, polls, i, unchangedCount, prevY, fmt);
      i := i + 1;
    }
    CollectVisibleFiles(resultMap, finalView, fmt);
    r := Some(resultMap.Values());
  }
}
