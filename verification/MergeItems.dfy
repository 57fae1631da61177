/**
 The merge of news sources in pipeline/scripts/fetch_news.py.

 `Merge` is the nested loop with its two key sets; `Greedy(RoundRobin(batches), limit)` says
 what it computes, and the lemmas after it what that means.
 */
module MergeItems {
  datatype Item = Item(url: string, title: string)

  type Key = string -> string

  // ---------- What is computed ----------

  /** The items at one depth, batch by batch. */
  function Row(batches: seq<seq<Item>>, depth: nat): seq<Item> {
    if batches == [] then []
    else
      var last := batches[|batches| - 1];
      Row(batches[..|batches| - 1], depth) + (if depth < |last| then [last[depth]] else [])
  }

  function Rows(batches: seq<seq<Item>>, depth: nat): seq<Item> {
    if depth == 0 then [] else Rows(batches, depth - 1) + Row(batches, depth - 1)
  }

  function MaxLength(batches: seq<seq<Item>>): (n: nat)
    ensures forall b :: 0 <= b < |batches| ==> |batches[b]| <= n
  {
    if batches == [] then 0
    else
      var n, last := MaxLength(batches[..|batches| - 1]), |batches[|batches| - 1]|;
      if last > n then last else n
  }

  /** The first item of every batch, then the second of every batch, and so on. */
  function RoundRobin(batches: seq<seq<Item>>): seq<Item> {
    Rows(batches, MaxLength(batches))
  }

  predicate SharesKey(url: Key, title: Key, x: Item, y: Item) {
    url(x.url) == url(y.url) || title(x.title) == title(y.title)
  }

  predicate SharesWithAny(url: Key, title: Key, x: Item, taken: seq<Item>) {
    exists i :: 0 <= i < |taken| && SharesKey(url, title, x, taken[i])
  }

  function Take(url: Key, title: Key, limit: int, taken: seq<Item>, item: Item): seq<Item> {
    if |taken| >= limit || SharesWithAny(url, title, item, taken) then taken else taken + [item]
  }

  function Greedy(url: Key, title: Key, limit: int, items: seq<Item>): seq<Item> {
    if items == [] then []
    else Take(url, title, limit, Greedy(url, title, limit, items[..|items| - 1]), items[|items| - 1])
  }

  // ---------- The loop ----------

  predicate KeysOf(key: Key, seen: set<string>, texts: seq<string>) {
    && (forall i :: 0 <= i < |texts| ==> key(texts[i]) in seen)
    && forall k :: k in seen ==> exists i :: 0 <= i < |texts| && key(texts[i]) == k
  }

  function Urls(items: seq<Item>): seq<string> {
    seq(|items|, i requires 0 <= i < |items| => items[i].url)
  }

  function Titles(items: seq<Item>): seq<string> {
    seq(|items|, i requires 0 <= i < |items| => items[i].title)
  }

  lemma {:induction false} SeenDecides(
    url: Key, title: Key, urls: set<string>, titles: set<string>, out: seq<Item>, item: Item)
    requires KeysOf(url, urls, Urls(out)) && KeysOf(title, titles, Titles(out))
    ensures url(item.url) in urls || title(item.title) in titles <==> SharesWithAny(url, title, item, out)
  {
    if url(item.url) in urls {
      var i :| 0 <= i < |Urls(out)| && url(Urls(out)[i]) == url(item.url);
      assert SharesKey(url, title, item, out[i]);
    }
    if title(item.title) in titles {
      var i :| 0 <= i < |Titles(out)| && title(Titles(out)[i]) == title(item.title);
      assert SharesKey(url, title, item, out[i]);
    }
    if SharesWithAny(url, title, item, out) {
      var i :| 0 <= i < |out| && SharesKey(url, title, item, out[i]);
      assert Urls(out)[i] == out[i].url && Titles(out)[i] == out[i].title;
    }
  }

  lemma {:induction false} KeysOfMore(key: Key, seen: set<string>, texts: seq<string>, text: string)
    requires KeysOf(key, seen, texts)
    ensures KeysOf(key, seen + {key(text)}, texts + [text])
  {
    var more := texts + [text];
    forall k | k in seen + {key(text)} ensures exists i :: 0 <= i < |more| && key(more[i]) == k {
      if k in seen {
        var i :| 0 <= i < |texts| && key(texts[i]) == k;
        assert key(more[i]) == k;
      } else {
        assert key(more[|texts|]) == k;
      }
    }
  }

  lemma {:induction false} FullStaysFull(url: Key, title: Key, limit: int, items: seq<Item>, more: seq<Item>)
    requires |Greedy(url, title, limit, items)| >= limit
    ensures Greedy(url, title, limit, items + more) == Greedy(url, title, limit, items)
  {
    if more == [] {
      assert items + more == items;
    } else {
      FullStaysFull(url, title, limit, items, more[..|more| - 1]);
      assert (items + more)[..|items + more| - 1] == items + more[..|more| - 1];
    }
  }

  lemma {:induction false} GreedyNext(url: Key, title: Key, limit: int, items: seq<Item>, item: Item)
    ensures Greedy(url, title, limit, items + [item])
         == Take(url, title, limit, Greedy(url, title, limit, items), item)
  {
    assert (items + [item])[..|items|] == items;
  }

  /** What has been read once `depth` rows and the first `b` batches of the next are. */
  function Read(batches: seq<seq<Item>>, depth: nat, b: nat): seq<Item>
    requires b <= |batches|
  {
    Rows(batches, depth) + Row(batches[..b], depth)
  }

  lemma {:induction false} ReadNext(batches: seq<seq<Item>>, depth: nat, b: nat)
    requires b < |batches|
    ensures Read(batches, depth, b + 1)
         == if depth < |batches[b]| then Read(batches, depth, b) + [batches[b][depth]] else Read(batches, depth, b)
  {
    assert batches[..b + 1][..b] == batches[..b];
  }

  lemma {:induction false} ReadWholeRow(batches: seq<seq<Item>>, depth: nat)
    ensures Read(batches, depth, |batches|) == Rows(batches, depth + 1)
    ensures Read(batches, depth, 0) == Rows(batches, depth)
  {
    assert batches[..|batches|] == batches;
  }

  lemma {:induction false} Regroup(x: seq<Item>, y: seq<Item>, z: seq<Item>)
    ensures (x + y) + z == x + (y + z)
  {
  }

  lemma {:induction false} RestOfRow(batches: seq<seq<Item>>, depth: nat, b: nat) returns (rest: seq<Item>)
    requires b <= |batches|
    ensures Rows(batches, depth + 1) == Read(batches, depth, b) + rest
    ensures b == |batches| ==> rest == []
    decreases |batches| - b
  {
    if b == |batches| {
      ReadWholeRow(batches, depth);
      rest := [];
    } else {
      var more := RestOfRow(batches, depth, b + 1);
      ReadNext(batches, depth, b);
      if depth < |batches[b]| {
        rest := [batches[b][depth]] + more;
        Regroup(Read(batches, depth, b), [batches[b][depth]], more);
      } else {
        rest := more;
      }
    }
  }

  lemma {:induction false} RestOfRows(batches: seq<seq<Item>>, depth: nat, n: nat) returns (rest: seq<Item>)
    requires depth <= n
    ensures Rows(batches, n) == Rows(batches, depth) + rest
    ensures n == depth ==> rest == []
  {
    if n == depth {
      rest := [];
    } else {
      var more := RestOfRows(batches, depth, n - 1);
      rest := more + Row(batches, n - 1);
    }
  }

  /** The key sets are those of the items taken. */
  ghost predicate Seen(
    url: Key, title: Key, seenUrls: set<string>, seenTitles: set<string>, out: seq<Item>)
  {
    KeysOf(url, seenUrls, Urls(out)) && KeysOf(title, seenTitles, Titles(out))
  }

  lemma {:induction false} SeenMore(
    url: Key, title: Key, seenUrls: set<string>, seenTitles: set<string>, out: seq<Item>, item: Item)
    requires Seen(url, title, seenUrls, seenTitles, out)
    ensures Seen(url, title, seenUrls + {url(item.url)}, seenTitles + {title(item.title)}, out + [item])
  {
    KeysOfMore(url, seenUrls, Urls(out), item.url);
    KeysOfMore(title, seenTitles, Titles(out), item.title);
    assert Urls(out + [item]) == Urls(out) + [item.url];
    assert Titles(out + [item]) == Titles(out) + [item.title];
  }

  /** What the loops have when `items` have been read.  The invariants state it as `== true`, which
      keeps the verifier from unfolding it there. */
  ghost predicate Taken(
    url: Key, title: Key, limit: int, items: seq<Item>,
    seenUrls: set<string>, seenTitles: set<string>, out: seq<Item>)
  {
    out == Greedy(url, title, limit, items) && Seen(url, title, seenUrls, seenTitles, out)
  }

  lemma {:induction false} Consider(
    url: Key, title: Key, limit: int, items: seq<Item>, item: Item,
    seenUrls: set<string>, seenTitles: set<string>, out: seq<Item>)
    requires Taken(url, title, limit, items, seenUrls, seenTitles, out) == true && |out| < limit
    ensures if url(item.url) in seenUrls || title(item.title) in seenTitles
            then Taken(url, title, limit, items + [item], seenUrls, seenTitles, out) == true
            else Taken(url, title, limit, items + [item],
                       seenUrls + {url(item.url)}, seenTitles + {title(item.title)}, out + [item]) == true
  {
    GreedyNext(url, title, limit, items, item);
    SeenDecides(url, title, seenUrls, seenTitles, out, item);
    SeenMore(url, title, seenUrls, seenTitles, out, item);
  }

  lemma {:induction false} TakenNothing(url: Key, title: Key, limit: int)
    ensures Taken(url, title, limit, [], {}, {}, []) == true
  {
  }

  lemma {:induction false} TakenGreedy(
    url: Key, title: Key, limit: int, items: seq<Item>,
    seenUrls: set<string>, seenTitles: set<string>, out: seq<Item>)
    requires Taken(url, title, limit, items, seenUrls, seenTitles, out) == true
    ensures out == Greedy(url, title, limit, items)
  {
  }

  /** Once full, reading further changes nothing. */
  lemma {:induction false} TakenFull(
    url: Key, title: Key, limit: int, items: seq<Item>, more: seq<Item>,
    seenUrls: set<string>, seenTitles: set<string>, out: seq<Item>)
    requires Taken(url, title, limit, items, seenUrls, seenTitles, out) == true
    requires |out| >= limit || more == []
    ensures Taken(url, title, limit, items + more, seenUrls, seenTitles, out) == true
  {
    if |out| >= limit {
      FullStaysFull(url, title, limit, items, more);
    } else {
      assert items + more == items;
    }
  }

  /** None of the first `b` batches reaches `depth`. */
  ghost predicate Shallow(batches: seq<seq<Item>>, b: nat, depth: nat) {
    b <= |batches| && forall i :: 0 <= i < b ==> |batches[i]| <= depth
  }

  lemma {:induction false} ShallowNext(batches: seq<seq<Item>>, b: nat, depth: nat)
    requires 0 < b <= |batches| && Shallow(batches, b - 1, depth) == true && |batches[b - 1]| <= depth
    ensures Shallow(batches, b, depth) == true
  {
  }

  lemma {:induction false} ShallowAll(batches: seq<seq<Item>>, depth: nat)
    requires Shallow(batches, |batches|, depth) == true
    ensures MaxLength(batches) <= depth && Read(batches, depth, |batches|) == Rows(batches, depth)
  {
    if batches != [] {
      var last := |batches| - 1;
      var shorter := batches[..last];
      forall i | 0 <= i < last ensures |shorter[i]| <= depth {
        assert shorter[i] == batches[i];
      }
      ShallowAll(shorter, depth);
      assert batches[..|batches|] == batches && shorter[..|shorter|] == shorter;
    }
  }

  method Merge(url: Key, title: Key, batches: seq<seq<Item>>, limit: int) returns (out: seq<Item>)
    ensures exists at :: MergedAt(url, title, limit, batches, out, at)
    ensures out == Greedy(url, title, limit, RoundRobin(batches))
  {
    ghost var at := MergeSits(url, title, limit, batches);
    var seenUrls: set<string>, seenTitles: set<string> := {}, {};
    out := [];
    var depth := 0;
    ghost var deepest := MaxLength(batches);
    TakenNothing(url, title, limit);
    while |out| < limit
      invariant 0 <= depth <= deepest
      invariant Taken(url, title, limit, Rows(batches, depth), seenUrls, seenTitles, out) == true
      decreases deepest - depth
    {
      var progressed;
      out, seenUrls, seenTitles, progressed :=
        MergeRound(url, title, batches, limit, depth, out, seenUrls, seenTitles);
      if !progressed {
        break;
      }
      depth := depth + 1;
    }
    ghost var rest := RestOfRows(batches, depth, deepest);
    TakenFull(url, title, limit, Rows(batches, depth), rest, seenUrls, seenTitles, out);
    TakenGreedy(url, title, limit, RoundRobin(batches), seenUrls, seenTitles, out);
  }

  /** The inner loop: one item from every batch that is long enough. */
  method MergeRound(
    url: Key, title: Key, batches: seq<seq<Item>>, limit: int, depth: nat,
    out0: seq<Item>, seenUrls0: set<string>, seenTitles0: set<string>)
    returns (out: seq<Item>, seenUrls: set<string>, seenTitles: set<string>, progressed: bool)
    requires Taken(url, title, limit, Rows(batches, depth), seenUrls0, seenTitles0, out0) == true && |out0| < limit
    ensures progressed <==> depth < MaxLength(batches)
    ensures Taken(url, title, limit, Rows(batches, if progressed then depth + 1 else depth),
                  seenUrls, seenTitles, out) == true
  {
    out, seenUrls, seenTitles, progressed := out0, seenUrls0, seenTitles0, false;
    var b := 0;
    ReadWholeRow(batches, depth);
    while b < |batches|
      invariant 0 <= b <= |batches| && |out| < limit
      invariant Taken(url, title, limit, Read(batches, depth, b), seenUrls, seenTitles, out) == true
      invariant progressed ==> depth < MaxLength(batches)
      invariant !progressed ==> Shallow(batches, b, depth) == true
    {
      ReadNext(batches, depth, b);
      var batch := batches[b];
      b := b + 1;
      if depth >= |batch| {
        if !progressed {
          ShallowNext(batches, b, depth);
        }
        continue;
      }
      progressed := true;
      var item := batch[depth];
      Consider(url, title, limit, Read(batches, depth, b - 1), item, seenUrls, seenTitles, out);
      if url(item.url) in seenUrls || title(item.title) in seenTitles {
        continue;
      }
      seenUrls := seenUrls + {url(item.url)};
      seenTitles := seenTitles + {title(item.title)};
      out := out + [item];
      if |out| >= limit {
        break;
      }
    }
    if !progressed {
      ShallowAll(batches, depth);
    } else {
      ghost var rest := RestOfRow(batches, depth, b);
      TakenFull(url, title, limit, Read(batches, depth, b), rest, seenUrls, seenTitles, out);
    }
  }

  // ---------- What that means ----------

  predicate Distinct(url: Key, title: Key, items: seq<Item>) {
    forall i, j :: 0 <= i < j < |items| ==> !SharesKey(url, title, items[j], items[i])
  }

  /** No two results share a URL key or a title key, and there are never more than the limit. */
  lemma {:induction false} ResultsDistinct(url: Key, title: Key, limit: int, items: seq<Item>)
    ensures Distinct(url, title, Greedy(url, title, limit, items))
    ensures |Greedy(url, title, limit, items)| <= if limit < 0 then 0 else limit
  {
    if items != [] {
      ResultsDistinct(url, title, limit, items[..|items| - 1]);
    }
  }

  /** Below the limit nothing was left out but duplicates. */
  lemma {:induction false} NothingLost(url: Key, title: Key, limit: int, items: seq<Item>, k: nat)
    requires k < |items| && |Greedy(url, title, limit, items)| < limit
    ensures SharesWithAny(url, title, items[k], Greedy(url, title, limit, items))
  {
    var earlier := items[..|items| - 1];
    var before, out := Greedy(url, title, limit, earlier), Greedy(url, title, limit, items);
    if k < |earlier| {
      NothingLost(url, title, limit, earlier, k);
      var i :| 0 <= i < |before| && SharesKey(url, title, items[k], before[i]);
      assert SharesKey(url, title, items[k], out[i]);
    } else if !SharesWithAny(url, title, items[k], before) {
      assert SharesKey(url, title, items[k], out[|out| - 1]);
    }
  }

  /** A smaller limit only cuts the list short. */
  lemma {:induction false} SmallerLimit(url: Key, title: Key, small: nat, large: nat, items: seq<Item>)
    requires small <= large
    ensures var few, many := Greedy(url, title, small, items), Greedy(url, title, large, items);
            few == if |many| <= small then many else many[..small]
  {
    if items != [] {
      SmallerLimit(url, title, small, large, items[..|items| - 1]);
    }
  }

  predicate Rising(places: seq<nat>, n: nat) {
    && (forall i, j :: 0 <= i < j < |places| ==> places[i] < places[j])
    && forall i :: 0 <= i < |places| ==> places[i] < n
  }

  /** The results are taken from the enumeration in its order. */
  lemma {:induction false} KeepsOrder(url: Key, title: Key, limit: int, items: seq<Item>) returns (places: seq<nat>)
    ensures Rising(places, |items|)
    ensures var out := Greedy(url, title, limit, items);
            |places| == |out| && forall i :: 0 <= i < |out| ==> out[i] == items[places[i]]
  {
    if items == [] {
      places := [];
    } else {
      var earlier, item := items[..|items| - 1], items[|items| - 1];
      var before := Greedy(url, title, limit, earlier);
      places := KeepsOrder(url, title, limit, earlier);
      TakesOne(url, title, limit, before, item);
      if Take(url, title, limit, before, item) != before {
        places := places + [|earlier|];
      }
    }
  }

  lemma {:induction false} TakesOne(url: Key, title: Key, limit: int, taken: seq<Item>, item: Item)
    ensures Take(url, title, limit, taken, item) in [taken, taken + [item]]
  {
  }

  /** Where the enumeration has item `depth` of batch `b`. */
  function Place(batches: seq<seq<Item>>, b: nat, depth: nat): nat
    requires b <= |batches|
  {
    |Rows(batches, depth)| + |Row(batches[..b], depth)|
  }

  /** Every item of every batch is enumerated, a shallower one before a deeper one, and at one
      depth in the order of the batches; so each batch's own order is kept. */
  lemma {:induction false} RoundRobinPlaces(batches: seq<seq<Item>>, b: nat, depth: nat)
    requires b < |batches| && depth < |batches[b]|
    ensures Place(batches, b, depth) < |RoundRobin(batches)|
    ensures RoundRobin(batches)[Place(batches, b, depth)] == batches[b][depth]
  {
    var read := Read(batches, depth, b);
    ReadNext(batches, depth, b);
    var rest := RestOfRow(batches, depth, b + 1);
    var more := RestOfRows(batches, depth + 1, MaxLength(batches));
    assert RoundRobin(batches) == read + [batches[b][depth]] + rest + more;
    assert |read| == Place(batches, b, depth);
  }

  lemma {:induction false} PlacesRise(batches: seq<seq<Item>>, b: nat, depth: nat, c: nat, deeper: nat)
    requires b < |batches| && depth < |batches[b]| && c < |batches|
    requires depth < deeper || (depth == deeper && b < c)
    ensures Place(batches, b, depth) < Place(batches, c, deeper)
  {
    ReadNext(batches, depth, b);
    if depth < deeper {
      var rest := RestOfRow(batches, depth, b + 1);
      var more := RestOfRows(batches, depth + 1, deeper);
    } else {
      var rest := RestOfPart(batches, depth, b + 1, c);
    }
  }

  lemma {:induction false} RestOfPart(batches: seq<seq<Item>>, depth: nat, b: nat, c: nat) returns (rest: seq<Item>)
    requires b <= c <= |batches|
    ensures Read(batches, depth, c) == Read(batches, depth, b) + rest
  {
    if b == c {
      rest := [];
    } else {
      var more := RestOfPart(batches, depth, b, c - 1);
      ReadNext(batches, depth, c - 1);
      if depth < |batches[c - 1]| {
        rest := more + [batches[c - 1][depth]];
        Regroup(Read(batches, depth, b), more, [batches[c - 1][depth]]);
      } else {
        rest := more;
      }
    }
  }

  /** And nothing else is enumerated. */
  lemma {:induction false} RoundRobinOnly(batches: seq<seq<Item>>, k: nat) returns (b: nat, depth: nat)
    requires k < |RoundRobin(batches)|
    ensures b < |batches| && depth < |batches[b]| && k == Place(batches, b, depth)
  {
    b, depth := RowsOnly(batches, MaxLength(batches), k);
  }

  lemma {:induction false} RowsOnly(batches: seq<seq<Item>>, n: nat, k: nat) returns (b: nat, depth: nat)
    requires k < |Rows(batches, n)|
    ensures b < |batches| && depth < |batches[b]| && k == Place(batches, b, depth)
  {
    if k < |Rows(batches, n - 1)| {
      b, depth := RowsOnly(batches, n - 1, k);
    } else {
      depth := n - 1;
      assert batches[..|batches|] == batches;
      b := RowOnly(batches, |batches|, depth, k - |Rows(batches, n - 1)|);
    }
  }

  lemma {:induction false} RowOnly(batches: seq<seq<Item>>, c: nat, depth: nat, k: nat) returns (b: nat)
    requires c <= |batches| && k < |Row(batches[..c], depth)|
    ensures b < c && depth < |batches[b]| && k == |Row(batches[..b], depth)|
  {
    assert batches[..c][..c - 1] == batches[..c - 1];
    if k < |Row(batches[..c - 1], depth)| {
      b := RowOnly(batches, c - 1, depth, k);
    } else {
      b := c - 1;
    }
  }

  // ---------- The whole result, place by place ----------

  /** The items of this list at rising places: no two with a key in common, no more than the limit, and
      everything else shares a key with one taken before it or comes when the limit is reached. */
  ghost predicate TakenAt(url: Key, title: Key, limit: int, items: seq<Item>, out: seq<Item>, places: seq<nat>) {
    && Rising(places, |items|) && |places| == |out| && |out| <= (if limit < 0 then 0 else limit)
    && (forall i :: 0 <= i < |out| ==> out[i] == items[places[i]])
    && (forall i, j :: 0 <= i < j < |out| ==>
          url(out[i].url) != url(out[j].url) && title(out[i].title) != title(out[j].title))
    && forall k: nat :: k < |items| && k !in places ==> PassedOver(url, title, limit, items[k], k, out, places)
  }

  ghost predicate PassedOver(url: Key, title: Key, limit: int, item: Item, k: nat, out: seq<Item>, places: seq<nat>) {
    || (exists i :: 0 <= i < |out| && i < |places| && places[i] < k
             && (url(item.url) == url(out[i].url) || title(item.title) == title(out[i].title)))
    || (|out| >= limit && forall i :: 0 <= i < |places| ==> places[i] < k)
  }

  lemma {:induction false} TakenSkip(
    url: Key, title: Key, limit: int, items: seq<Item>, out: seq<Item>, places: seq<nat>, item: Item)
    requires TakenAt(url, title, limit, items, out, places)
    requires |out| >= limit || SharesWithAny(url, title, item, out)
    ensures TakenAt(url, title, limit, items + [item], out, places) == true
  {
    var longer := items + [item];
    assert longer[|items|] == item && forall k :: 0 <= k < |items| ==> longer[k] == items[k];
    forall k: nat | k < |longer| && k !in places ensures PassedOver(url, title, limit, longer[k], k, out, places) {
      if k < |items| {
        assert PassedOver(url, title, limit, items[k], k, out, places);
      }
    }
  }

  lemma {:induction false} PassedOverStill(
    url: Key, title: Key, limit: int, x: Item, k: nat, out: seq<Item>, places: seq<nat>, item: Item, n: nat)
    requires |out| < limit && |places| == |out| && k < n && PassedOver(url, title, limit, x, k, out, places)
    ensures PassedOver(url, title, limit, x, k, out + [item], places + [n]) == true
  {
    var i :| 0 <= i < |out| && i < |places| && places[i] < k
          && (url(x.url) == url(out[i].url) || title(x.title) == title(out[i].title));
    assert (out + [item])[i] == out[i] && (places + [n])[i] == places[i];
  }

  lemma {:induction false} NoKeyInCommon(url: Key, title: Key, out: seq<Item>, item: Item)
    requires !SharesWithAny(url, title, item, out)
    ensures forall i :: 0 <= i < |out| ==> url(out[i].url) != url(item.url) && title(out[i].title) != title(item.title)
  {
    forall i | 0 <= i < |out| ensures url(out[i].url) != url(item.url) && title(out[i].title) != title(item.title) {
      assert !SharesKey(url, title, item, out[i]);
    }
  }

  lemma {:induction false} TakenAdd(
    url: Key, title: Key, limit: int, items: seq<Item>, out: seq<Item>, places: seq<nat>, item: Item)
    requires TakenAt(url, title, limit, items, out, places)
    requires |out| < limit && !SharesWithAny(url, title, item, out)
    ensures TakenAt(url, title, limit, items + [item], out + [item], places + [|items|]) == true
  {
    var longer, taken, next := items + [item], out + [item], places + [|items|];
    assert longer[|items|] == item && forall k :: 0 <= k < |items| ==> longer[k] == items[k];
    NoKeyInCommon(url, title, out, item);
    assert next[|places|] == |items| && forall i :: 0 <= i < |places| ==> next[i] == places[i];
    forall k: nat | k < |longer| && k !in next ensures PassedOver(url, title, limit, longer[k], k, taken, next) {
      assert k != |items|;
      PassedOverStill(url, title, limit, items[k], k, out, places, item, |items|);
    }
  }

  lemma {:induction false} GreedyTaken(url: Key, title: Key, limit: int, items: seq<Item>) returns (places: seq<nat>)
    ensures TakenAt(url, title, limit, items, Greedy(url, title, limit, items), places) == true
  {
    if items == [] {
      places := [];
    } else {
      var earlier, item := items[..|items| - 1], items[|items| - 1];
      var out := Greedy(url, title, limit, earlier);
      var before := GreedyTaken(url, title, limit, earlier);
      assert items == earlier + [item];
      if |out| >= limit || SharesWithAny(url, title, item, out) {
        TakenSkip(url, title, limit, earlier, out, before, item);
        places := before;
      } else {
        TakenAdd(url, title, limit, earlier, out, before, item);
        places := before + [|earlier|];
      }
    }
  }

  /** A batch and a depth in it; places are read row by row. */
  type Spot = (nat, nat)

  predicate Earlier(p: Spot, q: Spot) {
    p.1 < q.1 || (p.1 == q.1 && p.0 < q.0)
  }

  predicate Within(batches: seq<seq<Item>>, p: Spot) {
    p.0 < |batches| && p.1 < |batches[p.0]|
  }

  /** The result holds the items at these spots of the batches, in the order of reading; every other item
      shares a key with one taken earlier or is read when the limit is reached. */
  ghost predicate MergedAt(
    url: Key, title: Key, limit: int, batches: seq<seq<Item>>, out: seq<Item>, at: seq<Spot>)
  {
    && |at| == |out| && |out| <= (if limit < 0 then 0 else limit)
    && (forall i :: 0 <= i < |at| ==> Within(batches, at[i]) && out[i] == batches[at[i].0][at[i].1])
    && (forall i, j :: 0 <= i < j < |at| ==> Earlier(at[i], at[j]))
    && (forall i, j :: 0 <= i < j < |out| ==>
          url(out[i].url) != url(out[j].url) && title(out[i].title) != title(out[j].title))
    && forall p: Spot :: Within(batches, p) && p !in at ==> LeftOut(url, title, limit, batches, out, at, p)
  }

  ghost predicate LeftOut(
    url: Key, title: Key, limit: int, batches: seq<seq<Item>>, out: seq<Item>, at: seq<Spot>, p: Spot)
    requires Within(batches, p)
  {
    var item := batches[p.0][p.1];
    || (exists i :: 0 <= i < |out| && i < |at| && Earlier(at[i], p)
             && (url(item.url) == url(out[i].url) || title(item.title) == title(out[i].title)))
    || (|out| >= limit && forall i :: 0 <= i < |at| ==> Earlier(at[i], p))
  }

  lemma {:induction false} EarlierByPlace(batches: seq<seq<Item>>, p: Spot, q: Spot)
    requires Within(batches, p) && Within(batches, q)
    ensures Earlier(p, q) <==> Place(batches, p.0, p.1) < Place(batches, q.0, q.1)
  {
    if Earlier(p, q) {
      PlacesRise(batches, p.0, p.1, q.0, q.1);
    } else if Earlier(q, p) {
      PlacesRise(batches, q.0, q.1, p.0, p.1);
    }
  }

  lemma {:induction false} OneSpot(batches: seq<seq<Item>>, p: Spot, q: Spot)
    requires Within(batches, p) && Within(batches, q) && Place(batches, p.0, p.1) == Place(batches, q.0, q.1)
    ensures p == q
  {
    EarlierByPlace(batches, p, q);
    EarlierByPlace(batches, q, p);
  }

  lemma {:induction false} SpotsOf(batches: seq<seq<Item>>, places: seq<nat>) returns (at: seq<Spot>)
    requires Rising(places, |RoundRobin(batches)|)
    ensures |at| == |places|
    ensures forall i :: 0 <= i < |at| ==> Within(batches, at[i]) && Place(batches, at[i].0, at[i].1) == places[i]
  {
    if places == [] {
      at := [];
    } else {
      var last := |places| - 1;
      at := SpotsOf(batches, places[..last]);
      var b, depth := RoundRobinOnly(batches, places[last]);
      at := at + [(b, depth)];
    }
  }

  lemma {:induction false} LeftOutByPlace(
    url: Key, title: Key, limit: int, batches: seq<seq<Item>>, out: seq<Item>, places: seq<nat>, at: seq<Spot>,
    p: Spot)
    requires TakenAt(url, title, limit, RoundRobin(batches), out, places) == true && |at| == |places|
    requires forall i :: 0 <= i < |at| ==> Within(batches, at[i]) && Place(batches, at[i].0, at[i].1) == places[i]
    requires Within(batches, p) && p !in at
    ensures LeftOut(url, title, limit, batches, out, at, p) == true
  {
    var k := Place(batches, p.0, p.1);
    RoundRobinPlaces(batches, p.0, p.1);
    forall i | 0 <= i < |at| ensures Earlier(at[i], p) <==> places[i] < k {
      EarlierByPlace(batches, at[i], p);
    }
    if k in places {
      var i :| 0 <= i < |places| && places[i] == k;
      OneSpot(batches, at[i], p);
    }
    assert PassedOver(url, title, limit, RoundRobin(batches)[k], k, out, places);
  }

  lemma {:induction false} MergeSits(url: Key, title: Key, limit: int, batches: seq<seq<Item>>) returns (at: seq<Spot>)
    ensures MergedAt(url, title, limit, batches, Greedy(url, title, limit, RoundRobin(batches)), at) == true
  {
    var items := RoundRobin(batches);
    var out := Greedy(url, title, limit, items);
    var places := GreedyTaken(url, title, limit, items);
    at := SpotsOf(batches, places);
    forall i | 0 <= i < |at| ensures out[i] == batches[at[i].0][at[i].1] {
      RoundRobinPlaces(batches, at[i].0, at[i].1);
    }
    forall i, j | 0 <= i < j < |at| ensures Earlier(at[i], at[j]) {
      EarlierByPlace(batches, at[i], at[j]);
    }
    forall p: Spot | Within(batches, p) && p !in at ensures LeftOut(url, title, limit, batches, out, at, p) == true {
      LeftOutByPlace(url, title, limit, batches, out, places, at, p);
    }
  }
}
