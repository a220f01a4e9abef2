/**
 * scripts/trend_harvest.py: reads the list of news feeds, takes the first
 * ten titled entries of each, drops later items whose lower-cased title was
 * already seen, and writes the count and the first thirty items. Feed
 * download and parsing arrive as a function from URL to entries; the clock
 * as a timestamp string; JSON output is not part of this model.
 */
module TrendHarvest {
  import opened Text
  import opened Seqs
  import Grouping

  const PerFeed := 10
  const MaxItems := 30

  /** A feed entry as parsed; a missing field is "". */
  datatype RawEntry = RawEntry(title: string, link: string, published: string, updated: string)

  datatype Trend = Trend(title: string, link: string, published: string)

  /** `normalize`: title and link stripped; the publication date falls back to the update date. */
  function Normalize(e: RawEntry): (t: Trend)
    ensures NoOuterSpace(t.title) && NoOuterSpace(t.link)
    ensures t.title == [] <==> AllSpace(e.title)
    ensures e.published != [] ==> t.published == e.published
    ensures e.published == [] ==> t.published == e.updated
  {
    Trend(Strip(e.title), Strip(e.link), if e.published != [] then e.published else e.updated)
  }

  /** A line of the feed list that names a feed: not blank, and not a '#' comment. */
  predicate KeepLine(ln: string) {
    !AllSpace(ln) && !StartsWith(ln, "#")
  }

  /** The feed URLs: the kept lines, stripped, in file order. */
  function FeedLines(raw: seq<string>): (feeds: seq<string>)
    ensures |feeds| <= |raw|
    ensures AllUrls(feeds)
  {
    if raw == [] then []
    else
      var head := if KeepLine(raw[0]) then [Strip(raw[0])] else [];
      AllUrlsCons(head, FeedLines(raw[1..]));
      head + FeedLines(raw[1..])
  }

  /** Every URL is non-empty and stripped. */
  predicate AllUrls(feeds: seq<string>) {
    forall k :: 0 <= k < |feeds| ==> feeds[k] != [] && NoOuterSpace(feeds[k])
  }

  lemma AllUrlsCons(head: seq<string>, rest: seq<string>)
    requires AllUrls(head) && AllUrls(rest)
    ensures AllUrls(head + rest)
  {
    forall k | 0 <= k < |head + rest| ensures (head + rest)[k] != [] && NoOuterSpace((head + rest)[k]) {
      if k >= |head| { assert (head + rest)[k] == rest[k - |head|]; }
    }
  }

  /** The line is kept and strips to `url`. */
  predicate LineNames(line: string, url: string) {
    KeepLine(line) && Strip(line) == url
  }

  /** Some kept line of the feed list strips to `url`. */
  predicate NamesFeed(raw: seq<string>, url: string) {
    exists k :: 0 <= k < |raw| && LineNames(raw[k], url)
  }

  lemma NamesFeedCons(raw: seq<string>, url: string)
    requires raw != []
    ensures NamesFeed(raw, url) <==> LineNames(raw[0], url) || NamesFeed(raw[1..], url)
  {
    Seqs.ExistsCons(raw, line => LineNames(line, url));
  }

  /** A URL is listed exactly when some kept line strips to it. */
  lemma {:induction false} FeedLinesExactly(raw: seq<string>, url: string)
    ensures url in FeedLines(raw) <==> NamesFeed(raw, url)
  {
    if raw != [] {
      FeedLinesExactly(raw[1..], url);
      NamesFeedCons(raw, url);
    }
  }

  /** The titled items among some entries, normalized, in order. */
  function Titled(es: seq<RawEntry>): (items: seq<Trend>)
    ensures |items| <= |es|
    ensures AllTitled(items)
  {
    if es == [] then []
    else
      var t := Normalize(es[|es| - 1]);
      var tail := if t.title != [] then AllTitledOne(t); [t] else [];
      AllTitledAppend(Titled(es[..|es| - 1]), tail);
      Titled(es[..|es| - 1]) + tail
  }

  /** Every item has a non-empty, stripped title. */
  predicate AllTitled(items: seq<Trend>) {
    forall k :: 0 <= k < |items| ==> items[k].title != [] && NoOuterSpace(items[k].title)
  }

  /** One more entry adds its normalized item when it has a title. */
  lemma TitledPrefixStep(es: seq<RawEntry>, j: nat)
    requires j < |es|
    ensures Titled(es[..j + 1]) == Titled(es[..j]) + (if Normalize(es[j]).title != [] then [Normalize(es[j])] else [])
  {
    assert es[..j + 1][..j] == es[..j] && es[..j + 1][j] == es[j];
  }

  lemma AllTitledOne(t: Trend)
    requires t.title != [] && NoOuterSpace(t.title)
    ensures AllTitled([t])
  {
  }

  lemma AllTitledAppend(a: seq<Trend>, b: seq<Trend>)
    requires AllTitled(a) && AllTitled(b)
    ensures AllTitled(a + b)
  {
    forall k | 0 <= k < |a + b| ensures (a + b)[k].title != [] && NoOuterSpace((a + b)[k].title) {
      if k >= |a| { assert (a + b)[k] == b[k - |a|]; }
    }
  }

  function Head(es: seq<RawEntry>): (h: seq<RawEntry>)
    ensures |h| <= PerFeed && |h| <= |es| && h == es[..|h|]
    ensures |es| <= PerFeed ==> h == es
  {
    es[..if |es| < PerFeed then |es| else PerFeed]
  }

  /** Everything collected from the feeds, feed by feed. */
  function Collected(feeds: seq<seq<RawEntry>>): (items: seq<Trend>)
    ensures |items| <= PerFeed * |feeds|
    ensures AllTitled(items)
  {
    if feeds == [] then []
    else
      AllTitledAppend(Collected(feeds[..|feeds| - 1]), Titled(Head(feeds[|feeds| - 1])));
      Collected(feeds[..|feeds| - 1]) + Titled(Head(feeds[|feeds| - 1]))
  }

  /** The nested loops of `main` that gather the items. */
  method Collect(feeds: seq<seq<RawEntry>>) returns (items: seq<Trend>)
    ensures items == Collected(feeds)
  {
    items := [];
    for f := 0 to |feeds|
      invariant items == Collected(feeds[..f])
    {
      assert feeds[..f + 1][..f] == feeds[..f] && feeds[..f + 1][f] == feeds[f];
      var taken := TakeTitled(feeds[f]);
      items := items + taken;
    }
    assert feeds[..|feeds|] == feeds;
  }

  /** The inner loop: the first ten entries of one feed, those with a title. */
  method TakeTitled(es: seq<RawEntry>) returns (taken: seq<Trend>)
    ensures taken == Titled(Head(es))
  {
    var head := Head(es);
    taken := [];
    for j := 0 to |head|
      invariant taken == Titled(head[..j])
    {
      TitledPrefixStep(head, j);
      var t := Normalize(head[j]);
      if t.title != [] {
        taken := taken + [t];
      }
    }
    assert head[..|head|] == head;
  }

  // ---------------------------------------------------------------------
  // First-occurrence dedup
  // ---------------------------------------------------------------------

  /** Two items are duplicates when their titles agree after `lower()`. */
  function Key(t: Trend): string {
    Lower(t.title)
  }

  function Keyed(items: seq<Trend>): (es: seq<(string, Trend)>)
    ensures |es| == |items|
    ensures forall k :: 0 <= k < |items| ==> es[k] == (Key(items[k]), items[k])
  {
    if items == [] then [] else Keyed(items[..|items| - 1]) + [(Key(items[|items| - 1]), items[|items| - 1])]
  }

  /** Every item filed under a key has that key. */
  lemma {:induction false} ValuesHaveKey(items: seq<Trend>, k: string)
    ensures forall v :: v in Grouping.ValuesOf(Keyed(items), k) ==> Key(v) == k
  {
    if items != [] {
      var init := items[..|items| - 1];
      assert Keyed(items) == Keyed(init) + [(Key(items[|items| - 1]), items[|items| - 1])];
      assert Keyed(items)[..|items| - 1] == Keyed(init);
      ValuesHaveKey(init, k);
    }
  }

  /** An item is filed under its own key. */
  lemma {:induction false} ItemFiled(items: seq<Trend>, i: nat)
    requires i < |items|
    ensures items[i] in Grouping.ValuesOf(Keyed(items), Key(items[i]))
  {
    var init := items[..|items| - 1];
    assert Keyed(items)[..|items| - 1] == Keyed(init);
    if i < |items| - 1 {
      assert init[i] == items[i];
      ItemFiled(init, i);
    }
  }

  /** `items[i]` is the first item, in order, whose key is `k`. */
  predicate FirstOfKey(items: seq<Trend>, i: nat, k: string) {
    i < |items| && Key(items[i]) == k && forall j :: 0 <= j < i ==> Key(items[j]) != k
  }

  /**
   * The first item filed under a key is the first item, in order, with that
   * key: the one the dedup loop keeps.
   */
  lemma {:induction false} FirstFiledIsFirst(items: seq<Trend>, k: string)
    requires Grouping.ValuesOf(Keyed(items), k) != []
    ensures exists i: nat :: FirstOfKey(items, i, k) && items[i] == Grouping.ValuesOf(Keyed(items), k)[0]
  {
    var init, x := items[..|items| - 1], items[|items| - 1];
    assert Keyed(items)[..|items| - 1] == Keyed(init);
    var vs := Grouping.ValuesOf(Keyed(items), k);
    assert vs == Grouping.ValuesOf(Keyed(init), k) + (if Key(x) == k then [x] else []);
    if Grouping.ValuesOf(Keyed(init), k) != [] {
      FirstFiledIsFirst(init, k);
      var i: nat :| FirstOfKey(init, i, k) && init[i] == Grouping.ValuesOf(Keyed(init), k)[0];
      FirstOfKeyExtends(init, x, i, k);
      assert items == init + [x];
    } else {
      NoEarlierKey(init, k);
      FirstOfKeyLast(init, x, k);
      assert items == init + [x];
    }
  }

  lemma FirstOfKeyExtends(init: seq<Trend>, x: Trend, i: nat, k: string)
    requires FirstOfKey(init, i, k)
    ensures FirstOfKey(init + [x], i, k) && (init + [x])[i] == init[i]
  {
    assert forall j :: 0 <= j < i ==> (init + [x])[j] == init[j];
  }

  lemma FirstOfKeyLast(init: seq<Trend>, x: Trend, k: string)
    requires Key(x) == k && forall j :: 0 <= j < |init| ==> Key(init[j]) != k
    ensures FirstOfKey(init + [x], |init|, k)
  {
    assert forall j :: 0 <= j < |init| ==> (init + [x])[j] == init[j];
  }

  /** With nothing filed under `k`, no item has key `k`. */
  lemma NoEarlierKey(items: seq<Trend>, k: string)
    requires Grouping.ValuesOf(Keyed(items), k) == []
    ensures forall j :: 0 <= j < |items| ==> Key(items[j]) != k
  {
    forall j | 0 <= j < |items| ensures Key(items[j]) != k {
      ItemFiled(items, j);
    }
  }

  /** `uniq` as a value: for each title key in first-seen order, the first item with that key. */
  function Dedup(items: seq<Trend>): (u: seq<Trend>)
    ensures |u| == |Grouping.KeyOrder(Keyed(items))|
    ensures forall j :: 0 <= j < |u| ==> Grouping.ValuesOf(Keyed(items), Grouping.KeyOrder(Keyed(items))[j]) != []
    ensures forall j :: 0 <= j < |u| ==>
              u[j] == Grouping.ValuesOf(Keyed(items), Grouping.KeyOrder(Keyed(items))[j])[0]
  {
    var es := Keyed(items);
    var ks := Grouping.KeyOrder(es);
    Grouping.KeyOrderFacts(es);
    seq(|ks|, j requires 0 <= j < |ks| => Grouping.ValuesOf(es, ks[j])[0])
  }

  /** Each kept item carries the key it was kept for. */
  lemma DedupKeys(items: seq<Trend>)
    ensures forall j :: 0 <= j < |Dedup(items)| ==> Key(Dedup(items)[j]) == Grouping.KeyOrder(Keyed(items))[j]
  {
    var es := Keyed(items);
    var ks := Grouping.KeyOrder(es);
    var u := Dedup(items);
    forall j | 0 <= j < |u| ensures Key(u[j]) == ks[j] {
      ValuesHaveKey(items, ks[j]);
      assert u[j] in Grouping.ValuesOf(es, ks[j]);
    }
  }

  /** No two kept items share a lower-cased title. */
  lemma DedupDistinct(items: seq<Trend>)
    ensures forall a, b :: 0 <= a < b < |Dedup(items)| ==> Key(Dedup(items)[a]) != Key(Dedup(items)[b])
  {
    DedupKeys(items);
    Grouping.KeyOrderFacts(Keyed(items));
  }

  /** Every collected item's lower-cased title is among the kept ones. */
  lemma DedupCovers(items: seq<Trend>)
    ensures forall i :: 0 <= i < |items| ==> exists j :: 0 <= j < |Dedup(items)| && Key(Dedup(items)[j]) == Key(items[i])
  {
    var ks := Grouping.KeyOrder(Keyed(items));
    DedupKeys(items);
    Grouping.KeyOrderFacts(Keyed(items));
    forall i | 0 <= i < |items| ensures exists j :: 0 <= j < |Dedup(items)| && Key(Dedup(items)[j]) == Key(items[i]) {
      ItemFiled(items, i);
      var j :| 0 <= j < |ks| && ks[j] == Key(items[i]);
      assert Key(Dedup(items)[j]) == Key(items[i]);
    }
  }

  /** Each kept item is the first collected item with its lower-cased title. */
  lemma DedupKeepsFirst(items: seq<Trend>)
    ensures forall j :: 0 <= j < |Dedup(items)| ==>
              exists i: nat :: FirstOfKey(items, i, Key(Dedup(items)[j])) && items[i] == Dedup(items)[j]
  {
    var ks := Grouping.KeyOrder(Keyed(items));
    var u := Dedup(items);
    DedupKeys(items);
    forall j | 0 <= j < |u|
      ensures exists i: nat :: FirstOfKey(items, i, Key(u[j])) && items[i] == u[j]
    {
      FirstFiledIsFirst(items, ks[j]);
      var i: nat :| FirstOfKey(items, i, ks[j]) && items[i] == Grouping.ValuesOf(Keyed(items), ks[j])[0];
      assert items[i] == u[j] && Key(u[j]) == ks[j];
    }
  }

  /** One more item: kept exactly when its key has not been seen. */
  lemma DedupStep(xs: seq<Trend>, x: Trend)
    ensures Key(x) in Grouping.KeyOrder(Keyed(xs)) ==> Dedup(xs + [x]) == Dedup(xs)
    ensures Key(x) !in Grouping.KeyOrder(Keyed(xs)) ==> Dedup(xs + [x]) == Dedup(xs) + [x]
    ensures Grouping.KeyOrder(Keyed(xs + [x])) == Grouping.KeyOrder(Keyed(xs)) + (if Key(x) in Grouping.KeyOrder(Keyed(xs)) then [] else [Key(x)])
  {
    var es := Keyed(xs);
    assert Keyed(xs + [x]) == es + [(Key(x), x)] by {
      assert (xs + [x])[..|xs|] == xs;
    }
    assert (es + [(Key(x), x)])[..|es|] == es;
    Grouping.KeyOrderFacts(es);
    var ks := Grouping.KeyOrder(es);
    forall k | k in ks ensures Grouping.ValuesOf(es + [(Key(x), x)], k)[0] == Grouping.ValuesOf(es, k)[0] {
    }
    if Key(x) !in ks {
      assert Grouping.ValuesOf(es + [(Key(x), x)], Key(x)) == [x];
    }
  }

  /** The dedup loop of `main`, with its `seen` set of lower-cased titles. */
  method DedupLoop(items: seq<Trend>) returns (uniq: seq<Trend>)
    ensures uniq == Dedup(items)
  {
    var seen: set<string> := {};
    uniq := [];
    for i := 0 to |items|
      invariant uniq == Dedup(items[..i])
      invariant seen == set k | k in Grouping.KeyOrder(Keyed(items[..i]))
    {
      PrefixStep(items, i);
      DedupStep(items[..i], items[i]);
      var k := Lower(items[i].title);
      if k !in seen {
        uniq := uniq + [items[i]];
        seen := seen + {k};
      }
    }
    assert items[..|items|] == items;
  }

  // ---------------------------------------------------------------------
  // The payload
  // ---------------------------------------------------------------------

  datatype Payload = Payload(updated: string, count: nat, items: seq<Trend>)

  /** The entries of each listed feed, in list order. */
  function EntriesOf(urls: seq<string>, parse: string -> seq<RawEntry>): (feeds: seq<seq<RawEntry>>)
    ensures |feeds| == |urls|
    ensures forall k :: 0 <= k < |urls| ==> feeds[k] == parse(urls[k])
  {
    if urls == [] then [] else [parse(urls[0])] + EntriesOf(urls[1..], parse)
  }

  /**
   * `main`: the count is taken before the cut to thirty items. A missing
   * feed list means no feeds.
   */
  method Harvest(listExists: bool, rawLines: seq<string>, parse: string -> seq<RawEntry>, now: string)
    returns (p: Payload)
    ensures var urls := if listExists then FeedLines(rawLines) else [];
            var uniq := Dedup(Collected(EntriesOf(urls, parse)));
            && p.updated == now
            && p.count == |uniq|
            && p.items == uniq[..if |uniq| < MaxItems then |uniq| else MaxItems]
  {
    var urls := if listExists then FeedLines(rawLines) else [];
    var items := Collect(EntriesOf(urls, parse));
    var uniq := DedupLoop(items);
    p := Payload(now, |uniq|, uniq[..if |uniq| < MaxItems then |uniq| else MaxItems]);
  }
}
