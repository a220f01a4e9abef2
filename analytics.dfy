/**
 * scripts/build_analytics.py: per-post content features, the engagement CSV
 * filter, per-guid grouping and totals, the weighted engagement score, the
 * length and emoji buckets, and the per-feature summary. Feed parsing, date
 * parsing and the CSV/markdown output are not part of this model: each post
 * arrives with its local hour (or none) already extracted.
 */
module Analytics {
  import opened Text
  import opened Seqs
  import opened Wrappers
  import Sorting
  import Grouping

  // ---------------------------------------------------------------------
  // Content features
  // ---------------------------------------------------------------------

  /** The code-point ranges `count_emojis` accepts. */
  predicate InEmojiRange(c: char) {
    var o := c as int;
    || (0x1F300 <= o <= 0x1FAFF) || (0x1F1E6 <= o <= 0x1F1FF) || (0x1F900 <= o <= 0x1F9FF)
    || (0x2600 <= o <= 0x27BF) || o == 0xFE0F || o == 0x200D
  }

  /** The number of code points of `s` in the emoji ranges. */
  function EmojiCount(s: string): (n: nat)
    ensures n <= |s|
  {
    if s == [] then 0 else (if InEmojiRange(s[0]) then 1 else 0) + EmojiCount(s[1..])
  }

  lemma {:induction false} EmojiCountAppend(a: string, b: string)
    ensures EmojiCount(a + b) == EmojiCount(a) + EmojiCount(b)
  {
    if a == [] {
      assert a + b == b;
    } else {
      assert (a + b)[1..] == a[1..] + b;
      EmojiCountAppend(a[1..], b);
    }
  }

  /** `count_emojis`: one pass, counting code points in the emoji ranges. */
  method CountEmojis(s: string) returns (count: nat)
    ensures count == EmojiCount(s)
  {
    count := 0;
    for i := 0 to |s|
      invariant count + EmojiCount(s[i..]) == EmojiCount(s)
    {
      assert s[i..][1..] == s[i + 1..];
      if InEmojiRange(s[i]) {
        count := count + 1;
      }
    }
  }

  /** `hour_bucket`: the part of the day of a local hour, "" when there is no date. */
  function HourBucket(hour: Option<nat>): (b: string)
    requires hour.Some? ==> hour.value < 24
    ensures b == "" <==> hour.None?
  {
    match hour
    case None => ""
    case Some(h) =>
      if 5 <= h < 9 then "early-morning"
      else if 9 <= h < 12 then "morning"
      else if 12 <= h < 15 then "early-afternoon"
      else if 15 <= h < 18 then "late-afternoon"
      else if 18 <= h < 22 then "evening"
      else "night"
  }

  /** Each band of the day, both ways: the bucket names the band the hour falls in. */
  lemma HourBucketBands(h: nat)
    requires h < 24
    ensures HourBucket(Some(h)) == "early-morning" <==> 5 <= h < 9
    ensures HourBucket(Some(h)) == "morning" <==> 9 <= h < 12
    ensures HourBucket(Some(h)) == "early-afternoon" <==> 12 <= h < 15
    ensures HourBucket(Some(h)) == "late-afternoon" <==> 15 <= h < 18
    ensures HourBucket(Some(h)) == "evening" <==> 18 <= h < 22
    ensures HourBucket(Some(h)) == "night" <==> h < 5 || h >= 22
  {
  }

  function HasQuestion(s: string): (n: nat)
    ensures n == 1 <==> '?' in s
    ensures n <= 1
  {
    if '?' in s then 1 else 0
  }

  /** `quote_count`: straight double, curly double (both) and straight single quotes. */
  function QuoteCount(s: string): (n: nat)
    ensures n == 0 <==> ('"' !in s && '\U{201C}' !in s && '\U{201D}' !in s && '\'' !in s)
  {
    CountCharZero(s, '"');
    CountCharZero(s, '\U{201C}');
    CountCharZero(s, '\U{201D}');
    CountCharZero(s, '\'');
    CountChar(s, '"') + CountChar(s, '\U{201C}') + CountChar(s, '\U{201D}') + CountChar(s, '\'')
  }

  /** The end of the whitespace run that starts at `i`. */
  function SpaceRunEnd(s: string, i: nat): (j: nat)
    requires i <= |s|
    ensures i <= j <= |s|
    ensures j == |s| || !IsSpace(s[j])
    decreases |s| - i
  {
    if i == |s| || !IsSpace(s[i]) then i else SpaceRunEnd(s, i + 1)
  }

  /**
   * Where a match of `\s*-\s+` that starts at `i` ends, or `i` when there is
   * none; the `-` it needs sits just after the leading whitespace.
   */
  function DashItemEnd(s: string, i: nat): (j: nat)
    requires i <= |s|
    ensures i <= j <= |s|
    ensures j > i ==> SpaceRunEnd(s, i) < j && s[SpaceRunEnd(s, i)] == '-'
  {
    var a := SpaceRunEnd(s, i);
    if a + 1 < |s| && s[a] == '-' && IsSpace(s[a + 1]) then SpaceRunEnd(s, a + 1) else i
  }

  /** Where `^` matches under `re.M`: the start of the text or just after a newline. */
  predicate LineStart(s: string, i: nat)
    requires i <= |s|
  {
    i == 0 || s[i - 1] == '\n'
  }

  /** `len(re.findall(r"^\s*-\s+", s[i:], flags=re.M))` counted from position `i` on. */
  function DashItemsFrom(s: string, i: nat): nat
    requires i <= |s|
    decreases |s| - i
  {
    if i == |s| then 0
    else if LineStart(s, i) && DashItemEnd(s, i) > i then 1 + DashItemsFrom(s, DashItemEnd(s, i))
    else DashItemsFrom(s, i + 1)
  }

  lemma CountCharSplit(s: string, i: nat, j: nat, c: char)
    requires i <= j <= |s|
    ensures CountChar(s[i..], c) == CountChar(s[i..j], c) + CountChar(s[j..], c)
  {
    assert s[i..] == s[i..j] + s[j..];
    CountCharAppend(s[i..j], s[j..], c);
  }

  /** Each dash item uses up its own '-': there are never more items than dashes. */
  lemma {:induction false} DashItemsBound(s: string, i: nat)
    requires i <= |s|
    ensures DashItemsFrom(s, i) <= CountChar(s[i..], '-')
    decreases |s| - i
  {
    if i < |s| {
      if LineStart(s, i) && DashItemEnd(s, i) > i {
        var j := DashItemEnd(s, i);
        DashItemsBound(s, j);
        CountCharSplit(s, i, j, '-');
        var a := SpaceRunEnd(s, i);
        assert s[i..j][a - i] == '-';
        CountCharZero(s[i..j], '-');
      } else {
        DashItemsBound(s, i + 1);
        CountCharSplit(s, i, i + 1, '-');
      }
    }
  }

  /** `bullet_count`: bullet characters plus dash items at line starts. */
  function BulletCount(s: string): (n: nat)
    ensures n <= CountChar(s, '\U{2022}') + CountChar(s, '-')
    ensures n >= CountChar(s, '\U{2022}')
  {
    DashItemsBound(s, 0);
    assert s[0..] == s;
    CountChar(s, '\U{2022}') + DashItemsFrom(s, 0)
  }

  /** `1 if hashtag_count(desc) > 0 else 0` */
  function HasHashtag(s: string): (b: bool)
    ensures b <==> '#' in s
  {
    CountCharZero(s, '#');
    CountChar(s, '#') > 0
  }

  /** An item of the main feed, its fields stripped. */
  datatype FeedItem = FeedItem(title: string, description: string, link: string, guid: string)

  /** One row of posts_features.csv. */
  datatype Post = Post(
    guid: string, pubDateLocal: string, hourBucket: string,
    titleLen: nat, descLen: nat, titleEmojiCt: nat, descEmojiCt: nat,
    hasDialogue: bool, hasNumber: bool, hasQuestion: bool,
    quoteCount: nat, bulletCount: nat, hasHashtag: bool, titleSample: string, link: string)

  /**
   * The features of one item. The local date string and hour come from the
   * parsed pubDate; the two `\b` regex tests arrive as booleans per field.
   */
  function BuildPost(it: FeedItem, pubDateLocal: string, hour: Option<nat>,
                     dialogue: (bool, bool), number: (bool, bool)): (p: Post)
    requires hour.Some? ==> hour.value < 24
    ensures p.guid == it.guid && p.link == it.link
    ensures p.titleLen == |it.title| && p.descLen == |it.description|
    ensures p.titleSample == it.title[..if |it.title| < 200 then |it.title| else 200]
    ensures p.hasQuestion <==> '?' in it.title || '?' in it.description
    ensures p.hasHashtag <==> '#' in it.description
    ensures p.quoteCount >= QuoteCount(it.title) && p.quoteCount >= QuoteCount(it.description)
    ensures p.quoteCount == QuoteCount(it.title) || p.quoteCount == QuoteCount(it.description)
    ensures p.titleEmojiCt == EmojiCount(it.title) && p.descEmojiCt == EmojiCount(it.description)
    ensures p.bulletCount == BulletCount(it.description)
    ensures p.hasDialogue == (dialogue.0 || dialogue.1) && p.hasNumber == (number.0 || number.1)
    ensures p.pubDateLocal == pubDateLocal
    ensures p.hourBucket == HourBucket(hour)
    ensures p.hourBucket == "" <==> hour.None?
  {
    var q1, q2 := QuoteCount(it.title), QuoteCount(it.description);
    Post(it.guid, pubDateLocal, HourBucket(hour),
         |it.title|, |it.description|, EmojiCount(it.title), EmojiCount(it.description),
         dialogue.0 || dialogue.1, number.0 || number.1,
         HasQuestion(it.title) == 1 || HasQuestion(it.description) == 1,
         if q1 >= q2 then q1 else q2, BulletCount(it.description), HasHashtag(it.description),
         it.title[..if |it.title| < 200 then |it.title| else 200], it.link)
  }

  // ---------------------------------------------------------------------
  // Engagement rows
  // ---------------------------------------------------------------------

  /** A row of engagement.csv, counts already parsed. */
  datatype EngRow = EngRow(
    guid: string, platform: string,
    likes: int, replies: int, reposts: int, impressions: int, clicks: int, saves: int,
    notes: string)

  /** Rows whose guid starts with '#' (comments) or is blank are skipped. */
  predicate KeepRow(r: EngRow) {
    !StartsWith(r.guid, "#") && !AllSpace(r.guid)
  }

  function NormalizeRow(r: EngRow): (o: EngRow)
    ensures o.guid == Strip(r.guid) && o.platform == Lower(Strip(r.platform)) && o.notes == Strip(r.notes)
    ensures (o.likes, o.replies, o.reposts, o.impressions, o.clicks, o.saves)
         == (r.likes, r.replies, r.reposts, r.impressions, r.clicks, r.saves)
  {
    EngRow(Strip(r.guid), Lower(Strip(r.platform)), r.likes, r.replies, r.reposts,
           r.impressions, r.clicks, r.saves, Strip(r.notes))
  }

  /** The rows `read_engagement` keeps, in file order. */
  function KeptRows(raw: seq<EngRow>): (rows: seq<EngRow>)
    ensures |rows| <= |raw|
    ensures forall i :: 0 <= i < |rows| ==> rows[i].guid != []
  {
    if raw == [] then []
    else
      var r := raw[|raw| - 1];
      KeptRows(raw[..|raw| - 1]) + (if KeepRow(r) then [NormalizeRow(r)] else [])
  }

  /** A row survives exactly when its guid is non-blank and not a comment. */
  lemma {:induction false} KeptRowsExactly(raw: seq<EngRow>)
    ensures |KeptRows(raw)| == |KeptIndices(raw)|
  {
    if raw != [] {
      var init := raw[..|raw| - 1];
      KeptRowsExactly(init);
      KeptIndicesStep(raw);
    }
  }

  /** The positions of the rows that survive. */
  function KeptIndices(raw: seq<EngRow>): set<nat> {
    set i: nat | i < |raw| && KeepRow(raw[i])
  }

  lemma KeptIndicesStep(raw: seq<EngRow>)
    requires raw != []
    ensures var n := |raw| - 1;
            KeptIndices(raw) == KeptIndices(raw[..n]) + (if KeepRow(raw[n]) then {n} else {})
            && n !in KeptIndices(raw[..n])
  {
    var n := |raw| - 1;
    forall i: nat ensures i in KeptIndices(raw) <==> i in KeptIndices(raw[..n]) || (i == n && KeepRow(raw[n])) {
      if i < n { assert raw[..n][i] == raw[i]; }
    }
  }

  /** `read_engagement`'s loop over the parsed CSV rows. */
  method ReadEngagement(raw: seq<EngRow>) returns (rows: seq<EngRow>)
    ensures rows == KeptRows(raw)
  {
    rows := [];
    for i := 0 to |raw|
      invariant rows == KeptRows(raw[..i])
    {
      assert raw[..i + 1][..i] == raw[..i];
      if KeepRow(raw[i]) {
        rows := rows + [NormalizeRow(raw[i])];
      }
    }
    assert raw[..|raw|] == raw;
  }

  function GuidKeyed(rows: seq<EngRow>): (es: seq<(string, EngRow)>)
    ensures |es| == |rows|
    ensures forall i :: 0 <= i < |rows| ==> es[i] == (rows[i].guid, rows[i])
  {
    if rows == [] then [] else GuidKeyed(rows[..|rows| - 1]) + [(rows[|rows| - 1].guid, rows[|rows| - 1])]
  }

  /** `main`'s grouping of engagement rows by guid, in file order. */
  method GroupByGuid(rows: seq<EngRow>) returns (guids: seq<string>, byGuid: map<string, seq<EngRow>>)
    ensures guids == Grouping.KeyOrder(GuidKeyed(rows))
    ensures byGuid.Keys == set g | g in guids
    ensures forall g :: g in byGuid ==> byGuid[g] == Grouping.ValuesOf(GuidKeyed(rows), g)
  {
    guids, byGuid := Grouping.Group(GuidKeyed(rows));
  }

  function Always(g: string): bool {
    true
  }

  /** Every kept row lands in exactly one guid group: the group sizes add up to the rows. */
  lemma GroupByGuidPartition(rows: seq<EngRow>)
    ensures Grouping.SizesWhere(Grouping.KeyOrder(GuidKeyed(rows)), GuidKeyed(rows), Always) == |rows|
  {
    Grouping.GroupSizesAddUp(GuidKeyed(rows), Always);
    CountAlways(GuidKeyed(rows));
  }

  lemma {:induction false} CountAlways(es: seq<(string, EngRow)>)
    ensures Grouping.CountWhere(es, Always) == |es|
  {
    if es != [] { CountAlways(es[..|es| - 1]); }
  }

  // ---------------------------------------------------------------------
  // Totals and score
  // ---------------------------------------------------------------------

  datatype Totals = Totals(likes: int, replies: int, reposts: int, impressions: int, clicks: int, saves: int)

  function Likes(m: EngRow): int { m.likes }
  function Replies(m: EngRow): int { m.replies }
  function Reposts(m: EngRow): int { m.reposts }
  function Impressions(m: EngRow): int { m.impressions }
  function Clicks(m: EngRow): int { m.clicks }
  function Saves(m: EngRow): int { m.saves }

  /** The field-wise sums of a post's engagement rows. */
  ghost predicate IsTotalsOf(t: Totals, ms: seq<EngRow>) {
    && t.likes == Sorting.SumBy(ms, Likes)
    && t.replies == Sorting.SumBy(ms, Replies)
    && t.reposts == Sorting.SumBy(ms, Reposts)
    && t.impressions == Sorting.SumBy(ms, Impressions)
    && t.clicks == Sorting.SumBy(ms, Clicks)
    && t.saves == Sorting.SumBy(ms, Saves)
  }

  function TotalsOf(ms: seq<EngRow>): (t: Totals)
    ensures IsTotalsOf(t, ms)
  {
    Totals(Sorting.SumBy(ms, Likes), Sorting.SumBy(ms, Replies), Sorting.SumBy(ms, Reposts),
           Sorting.SumBy(ms, Impressions), Sorting.SumBy(ms, Clicks), Sorting.SumBy(ms, Saves))
  }

  /** The `totals` loop of `summarize`. */
  method SumTotals(ms: seq<EngRow>) returns (t: Totals)
    ensures IsTotalsOf(t, ms)
  {
    t := Totals(0, 0, 0, 0, 0, 0);
    for i := 0 to |ms|
      invariant t.likes + Sorting.SumBy(ms[i..], Likes) == Sorting.SumBy(ms, Likes)
      invariant t.replies + Sorting.SumBy(ms[i..], Replies) == Sorting.SumBy(ms, Replies)
      invariant t.reposts + Sorting.SumBy(ms[i..], Reposts) == Sorting.SumBy(ms, Reposts)
      invariant t.impressions + Sorting.SumBy(ms[i..], Impressions) == Sorting.SumBy(ms, Impressions)
      invariant t.clicks + Sorting.SumBy(ms[i..], Clicks) == Sorting.SumBy(ms, Clicks)
      invariant t.saves + Sorting.SumBy(ms[i..], Saves) == Sorting.SumBy(ms, Saves)
    {
      assert ms[i..][1..] == ms[i + 1..];
      var m := ms[i];
      t := t.(likes := t.likes + m.likes, replies := t.replies + m.replies, reposts := t.reposts + m.reposts,
              impressions := t.impressions + m.impressions, clicks := t.clicks + m.clicks, saves := t.saves + m.saves);
    }
  }

  /** The weighted engagement score; impressions carry no weight. */
  function Score(t: Totals): (sc: real)
    ensures 2.0 * sc == (2 * t.likes + 4 * t.replies + 6 * t.reposts + t.clicks + 3 * t.saves) as real
  {
    t.likes as real * 1.0 + t.replies as real * 2.0 + t.reposts as real * 3.0
    + t.clicks as real * 0.5 + t.saves as real * 1.5
  }

  lemma ScoreIgnoresImpressions(t: Totals, n: int)
    ensures Score(t.(impressions := n)) == Score(t)
  {
  }

  // ---------------------------------------------------------------------
  // Buckets
  // ---------------------------------------------------------------------

  /** The index of the first edge with `v <= edge`, or `|edges|` when there is none. */
  function FirstEdgeAtLeast(v: int, edges: seq<int>): (k: nat)
    ensures k <= |edges|
    ensures k < |edges| ==> v <= edges[k]
    ensures forall j :: 0 <= j < k ==> edges[j] < v
  {
    if edges == [] then 0
    else if v <= edges[0] then 0
    else 1 + FirstEdgeAtLeast(v, edges[1..])
  }

  predicate Ascending(edges: seq<int>) {
    forall i, j :: 0 <= i < j < |edges| ==> edges[i] <= edges[j]
  }

  /** With ascending edges the chosen edge is the smallest edge not below `v`. */
  lemma FirstEdgeIsSmallest(v: int, edges: seq<int>)
    requires Ascending(edges)
    ensures forall j :: 0 <= j < |edges| && v <= edges[j] ==> edges[FirstEdgeAtLeast(v, edges)] <= edges[j]
  {
  }

  function BucketLabel(v: int, edges: seq<int>): (b: string)
    requires edges != []
  {
    var k := FirstEdgeAtLeast(v, edges);
    if k < |edges| then "<= " + IntToString(edges[k]) else "> " + IntToString(edges[|edges| - 1])
  }

  /** `bucketize`: scan the edges, return at the first that `v` does not exceed. */
  method Bucketize(v: int, edges: seq<int>) returns (b: string)
    requires edges != []
    ensures b == BucketLabel(v, edges)
  {
    for i := 0 to |edges|
      invariant forall j :: 0 <= j < i ==> edges[j] < v
    {
      if v <= edges[i] {
        assert FirstEdgeAtLeast(v, edges) == i by { FirstEdgeUnique(v, edges, i); }
        return "<= " + IntToString(edges[i]);
      }
    }
    assert FirstEdgeAtLeast(v, edges) == |edges| by { FirstEdgeUnique(v, edges, |edges|); }
    return "> " + IntToString(edges[|edges| - 1]);
  }

  /** The first index an edge reaches `v` is the one `FirstEdgeAtLeast` names. */
  lemma {:induction false} FirstEdgeUnique(v: int, edges: seq<int>, k: nat)
    requires k <= |edges|
    requires k < |edges| ==> v <= edges[k]
    requires forall j :: 0 <= j < k ==> edges[j] < v
    ensures FirstEdgeAtLeast(v, edges) == k
  {
    if edges != [] && k > 0 {
      assert edges[0] < v;
      forall j | 0 <= j < k - 1 ensures edges[1..][j] < v { assert edges[1..][j] == edges[j + 1]; }
      FirstEdgeUnique(v, edges[1..], k - 1);
    }
  }

  const TitleLenEdges: seq<int> := [120, 160, 200, 240, 280, 320]

  /** `b_emoji`: 0, 1 and 2 name themselves; three or more share "3+". */
  function EmojiBucket(n: nat): (b: string)
    ensures b == "3+" <==> n >= 3
    ensures n < 3 ==> b == NatToString(n)
  {
    if n == 0 then "0" else if n == 1 then "1" else if n == 2 then "2" else "3+"
  }

  // ---------------------------------------------------------------------
  // Joined rows and the feature summary
  // ---------------------------------------------------------------------

  datatype Joined = Joined(post: Post, totals: Totals, score: real, bTitleLen: string, bEmoji: string)

  function MetricsFor(guid: string, byGuid: map<string, seq<EngRow>>): seq<EngRow> {
    if guid in byGuid then byGuid[guid] else []
  }

  /** What `summarize` records for one post. */
  ghost predicate JoinedFor(j: Joined, p: Post, byGuid: map<string, seq<EngRow>>) {
    && j.post == p
    && IsTotalsOf(j.totals, MetricsFor(p.guid, byGuid))
    && j.score == Score(j.totals)
    && j.bTitleLen == BucketLabel(p.titleLen, TitleLenEdges)
    && j.bEmoji == EmojiBucket(p.titleEmojiCt)
  }

  function YesNo(b: bool): string {
    if b then "yes" else "no"
  }

  type Entry = ((string, string), real)

  /** The seven `add` calls of one post: one value under each feature. */
  function FeatureEntries(j: Joined): (es: seq<Entry>)
    ensures |es| == 7
  {
    [(("emoji", j.bEmoji), j.score),
     (("len", j.bTitleLen), j.score),
     (("dialogue", YesNo(j.post.hasDialogue)), j.score),
     (("number", YesNo(j.post.hasNumber)), j.score),
     (("question", YesNo(j.post.hasQuestion)), j.score),
     (("bullets", if j.post.bulletCount == 0 then "0" else "1+"), j.score),
     (("time", if j.post.hourBucket == "" then "unknown" else j.post.hourBucket), j.score)]
  }

  const Features: seq<string> := ["emoji", "len", "dialogue", "number", "question", "bullets", "time"]

  function AllEntries(js: seq<Joined>): seq<Entry> {
    if js == [] then [] else AllEntries(js[..|js| - 1]) + FeatureEntries(js[|js| - 1])
  }

  datatype SummaryRow = SummaryRow(feature: string, bucket: string, avgEngScore: real, nPosts: nat)

  function SumReal(vs: seq<real>): real {
    if vs == [] then 0.0 else vs[0] + SumReal(vs[1..])
  }

  function Mean(vs: seq<real>): real {
    if vs == [] then 0.0 else SumReal(vs) / |vs| as real
  }

  function RowOf(k: (string, string), vals: seq<real>): SummaryRow {
    SummaryRow(k.0, k.1, Mean(vals), |vals|)
  }

  function RowsOf(ks: seq<(string, string)>, es: seq<Entry>): (rows: seq<SummaryRow>)
    ensures |rows| == |ks|
    ensures forall i :: 0 <= i < |ks| ==> rows[i] == RowOf(ks[i], Grouping.ValuesOf(es, ks[i]))
  {
    if ks == [] then [] else [RowOf(ks[0], Grouping.ValuesOf(es, ks[0]))] + RowsOf(ks[1..], es)
  }

  /** Python's tuple order on (feature, bucket). */
  predicate RowLe(a: SummaryRow, b: SummaryRow) {
    StrLt(a.feature, b.feature) || (a.feature == b.feature && StrLe(a.bucket, b.bucket))
  }

  /** The summary rows, sorted by (feature, bucket). */
  function SummaryRows(js: seq<Joined>): seq<SummaryRow> {
    var es := AllEntries(js);
    Sorting.SortBy(RowsOf(Grouping.KeyOrder(es), es), RowLe)
  }

  /** The join loop of `summarize`: each post with its totals, score and buckets. */
  method JoinPosts(posts: seq<Post>, byGuid: map<string, seq<EngRow>>) returns (joined: seq<Joined>)
    ensures |joined| == |posts|
    ensures forall i :: 0 <= i < |posts| ==> JoinedFor(joined[i], posts[i], byGuid)
  {
    joined := [];
    for i := 0 to |posts|
      invariant |joined| == i
      invariant forall k :: 0 <= k < i ==> JoinedFor(joined[k], posts[k], byGuid)
    {
      var j := JoinPost(posts[i], byGuid);
      JoinedExtend(joined, posts, byGuid, j);
      joined := joined + [j];
    }
  }

  lemma JoinedExtend(joined: seq<Joined>, posts: seq<Post>, byGuid: map<string, seq<EngRow>>, j: Joined)
    requires |joined| < |posts|
    requires forall k :: 0 <= k < |joined| ==> JoinedFor(joined[k], posts[k], byGuid)
    requires JoinedFor(j, posts[|joined|], byGuid)
    ensures forall k :: 0 <= k < |joined| + 1 ==> JoinedFor((joined + [j])[k], posts[k], byGuid)
  {
    forall k | 0 <= k < |joined| + 1 ensures JoinedFor((joined + [j])[k], posts[k], byGuid) {
      if k < |joined| {
        assert (joined + [j])[k] == joined[k];
      }
    }
  }

  /** One pass of the join loop: the post's totals, score and buckets. */
  method JoinPost(p: Post, byGuid: map<string, seq<EngRow>>) returns (j: Joined)
    ensures JoinedFor(j, p, byGuid)
  {
    var t := SumTotals(MetricsFor(p.guid, byGuid));
    var b := Bucketize(p.titleLen, TitleLenEdges);
    j := Joined(p, t, Score(t), b, EmojiBucket(p.titleEmojiCt));
  }

  /** The aggregation of `summarize`: one row per (feature, bucket), sorted. */
  method Aggregate(es: seq<Entry>) returns (rowsSum: seq<SummaryRow>)
    ensures rowsSum == Sorting.SortBy(RowsOf(Grouping.KeyOrder(es), es), RowLe)
  {
    var keys, agg := Grouping.Group(es);
    var items := [];
    for i := 0 to |keys|
      invariant items == RowsOf(keys[..i], es)
    {
      assert keys[i] in agg;
      RowsOfAppend(keys[..i], keys[i], es);
      PrefixStep(keys, i);
      items := items + [RowOf(keys[i], agg[keys[i]])];
    }
    assert keys[..|keys|] == keys;
    rowsSum := Sorting.SortBy(items, RowLe);
  }

  /** `summarize`: join, bucket, aggregate and sort. */
  method Summarize(posts: seq<Post>, byGuid: map<string, seq<EngRow>>)
    returns (joined: seq<Joined>, rowsSum: seq<SummaryRow>)
    ensures |joined| == |posts|
    ensures forall i :: 0 <= i < |posts| ==> JoinedFor(joined[i], posts[i], byGuid)
    ensures rowsSum == SummaryRows(joined)
  {
    joined := JoinPosts(posts, byGuid);
    rowsSum := Aggregate(AllEntries(joined));
  }

  lemma RowsOfAppend(ks: seq<(string, string)>, k: (string, string), es: seq<Entry>)
    ensures RowsOf(ks + [k], es) == RowsOf(ks, es) + [RowOf(k, Grouping.ValuesOf(es, k))]
  {
    var a, b := RowsOf(ks + [k], es), RowsOf(ks, es) + [RowOf(k, Grouping.ValuesOf(es, k))];
    assert forall i :: 0 <= i < |a| ==> a[i] == b[i];
  }

  // --- properties of the summary -----------------------------------------

  lemma RowLeTotalPreorder()
    ensures Sorting.TotalPreorder(RowLe)
  {
    StrLeFacts();
  }

  function RowKey(r: SummaryRow): (string, string) {
    (r.feature, r.bucket)
  }

  predicate KeysDistinct(rows: seq<SummaryRow>) {
    Grouping.DistinctBy(rows, RowKey)
  }

  /** The unsorted rows carry the dict's keys, each once, and each key has a value. */
  lemma RowsOfFacts(es: seq<Entry>)
    ensures KeysDistinct(RowsOf(Grouping.KeyOrder(es), es))
    ensures forall r :: r in RowsOf(Grouping.KeyOrder(es), es) ==> r.nPosts >= 1
  {
    var ks := Grouping.KeyOrder(es);
    var rows := RowsOf(ks, es);
    Grouping.KeyOrderFacts(es);
    assert forall i :: 0 <= i < |rows| ==> RowKey(rows[i]) == ks[i];
    forall r | r in rows ensures r.nPosts >= 1 {
      var a :| 0 <= a < |rows| && rows[a] == r;
      assert ks[a] in ks;
    }
  }

  /** The summary is sorted by (feature, bucket) and lists each pair once, none of them empty. */
  lemma SummarySortedDistinct(js: seq<Joined>)
    ensures Sorting.SortedBy(SummaryRows(js), RowLe)
    ensures KeysDistinct(SummaryRows(js))
    ensures forall r :: r in SummaryRows(js) ==> r.nPosts >= 1
  {
    var es := AllEntries(js);
    var rows := RowsOf(Grouping.KeyOrder(es), es);
    RowLeTotalPreorder();
    Sorting.SortBySorted(rows, RowLe);
    RowsOfFacts(es);
    var sorted := SummaryRows(js);
    Grouping.PermutationDistinctBy(rows, sorted, RowKey);
    forall r | r in sorted ensures r.nPosts >= 1 {
      assert r in multiset(sorted);
    }
  }

  /** How many values an entry list files under feature `f`. */
  function FeatureIs(f: string): ((string, string)) -> bool {
    (k: (string, string)) => k.0 == f
  }

  /** A post adds one value under each of the seven features and none under any other name. */
  lemma FeatureEntriesOnce(j: Joined, f: string)
    ensures Grouping.CountWhere(FeatureEntries(j), FeatureIs(f)) == if f in Features then 1 else 0
  {
    var es, p := FeatureEntries(j), FeatureIs(f);
    forall k | 0 <= k < 7 ensures es[k].0.0 == Features[k] {
    }
    if f in Features {
      var i :| 0 <= i < 7 && Features[i] == f;
      forall k | 0 <= k < 7 ensures p(es[k].0) <==> k == i {
      }
      CountWhereExactlyOne(es, p, i);
    } else {
      CountWhereNone(es, p);
    }
  }

  /** A list with exactly one key satisfying `p` counts one. */
  lemma {:induction false} CountWhereExactlyOne<K, V>(es: seq<(K, V)>, p: K -> bool, i: nat)
    requires i < |es|
    requires forall k :: 0 <= k < |es| ==> (p(es[k].0) <==> k == i)
    ensures Grouping.CountWhere(es, p) == 1
  {
    var init := es[..|es| - 1];
    if i == |es| - 1 {
      CountWhereNone(init, p);
    } else {
      CountWhereExactlyOne(init, p, i);
    }
  }

  lemma {:induction false} CountWhereNone<K, V>(es: seq<(K, V)>, p: K -> bool)
    requires forall k :: 0 <= k < |es| ==> !p(es[k].0)
    ensures Grouping.CountWhere(es, p) == 0
  {
    if es != [] {
      CountWhereNone(es[..|es| - 1], p);
    }
  }

  lemma {:induction false} CountWhereAppend<K, V>(a: seq<(K, V)>, b: seq<(K, V)>, p: K -> bool)
    ensures Grouping.CountWhere(a + b, p) == Grouping.CountWhere(a, p) + Grouping.CountWhere(b, p)
    decreases |b|
  {
    if b == [] {
      assert a + b == a;
    } else {
      assert (a + b)[..|a + b| - 1] == a + b[..|b| - 1];
      CountWhereAppend(a, b[..|b| - 1], p);
    }
  }

  /** Every post adds exactly one value under each of the seven features, and none under any other. */
  lemma {:induction false} EntriesPerFeature(js: seq<Joined>, f: string)
    ensures Grouping.CountWhere(AllEntries(js), FeatureIs(f)) == if f in Features then |js| else 0
  {
    if js != [] {
      EntriesPerFeature(js[..|js| - 1], f);
      CountWhereAppend(AllEntries(js[..|js| - 1]), FeatureEntries(js[|js| - 1]), FeatureIs(f));
      FeatureEntriesOnce(js[|js| - 1], f);
    }
  }

  function PostsUnder(f: string): SummaryRow -> int {
    (row: SummaryRow) => if row.feature == f then row.nPosts as int else 0
  }

  lemma {:induction false} RowsOfSum(ks: seq<(string, string)>, es: seq<Entry>, f: string)
    ensures Sorting.SumBy(RowsOf(ks, es), PostsUnder(f)) == Grouping.SizesWhere(ks, es, FeatureIs(f))
  {
    if ks != [] {
      RowsOfSum(ks[1..], es, f);
      assert RowsOf(ks, es)[1..] == RowsOf(ks[1..], es);
    }
  }

  /** Per feature, the n_posts of the summary rows add up to the number of posts; other names have none. */
  lemma FeatureCountsAddUp(js: seq<Joined>, f: string)
    ensures Sorting.SumBy(SummaryRows(js), PostsUnder(f)) == if f in Features then |js| else 0
  {
    var es := AllEntries(js);
    var ks := Grouping.KeyOrder(es);
    Sorting.SortBySum(RowsOf(ks, es), RowLe, PostsUnder(f));
    RowsOfSum(ks, es, f);
    Grouping.GroupSizesAddUp(es, FeatureIs(f));
    EntriesPerFeature(js, f);
  }

  /** Every summary row is for one of the seven features. */
  lemma SummaryFeatures(js: seq<Joined>)
    ensures forall r :: r in SummaryRows(js) ==> r.feature in Features
  {
    var rows := SummaryRows(js);
    forall r | r in rows ensures r.feature in Features {
      SummarySortedDistinct(js);
      FeatureCountsAddUp(js, r.feature);
      var i :| 0 <= i < |rows| && rows[i] == r;
      Sorting.SumByAtLeast(rows, PostsUnder(r.feature), i);
    }
  }
}
