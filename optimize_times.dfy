/**
 * scripts/optimize_times.py: ranks the hour buckets of
 * analytics/posts_features.csv by their mean engagement score and picks the
 * two to post at, then maps each bucket to a fixed UTC hour and minute. The
 * rewrite of the workflow file, the branch and the pull request are not part
 * of this model.
 */
module OptimizeTimes {
  import opened Wrappers
  import Text
  import Grouping
  import Sorting
  import Analytics

  /**
   * A row of posts_features.csv as this script reads it: the `hour_bucket`
   * cell and the `eng_score` cell's value, `None` when the cell is blank.
   */
  datatype PostRow = PostRow(hourBucket: string, engScore: Option<real>)

  /** `r.get("hour_bucket") or "unknown"` */
  function BucketName(r: PostRow): (b: string)
    ensures b != []
    ensures b == "unknown" <== r.hourBucket == []
    ensures r.hourBucket != [] ==> b == r.hourBucket
  {
    if r.hourBucket != [] then r.hourBucket else "unknown"
  }

  /** `float(r.get("eng_score") or 0)` */
  function ScoreOf(r: PostRow): (v: real)
    ensures r.engScore.Some? ==> v == r.engScore.value
    ensures r.engScore.None? ==> v == 0.0
  {
    match r.engScore
    case None => 0.0
    case Some(x) => x
  }

  /** The (bucket, score) pairs appended to `by`, one per row, in row order. */
  function Entries(rows: seq<PostRow>): (es: seq<(string, real)>)
    ensures |es| == |rows|
    ensures forall i :: 0 <= i < |rows| ==> es[i] == (BucketName(rows[i]), ScoreOf(rows[i]))
  {
    seq(|rows|, i requires 0 <= i < |rows| => (BucketName(rows[i]), ScoreOf(rows[i])))
  }

  /** `avgs`: each listed bucket other than "unknown" with the mean of its scores, in dict order. */
  function AvgsOf(ks: seq<string>, es: seq<(string, real)>): (avgs: seq<(string, real)>)
    ensures |avgs| <= |ks|
    ensures forall i :: 0 <= i < |avgs| ==> avgs[i].0 in ks && avgs[i].0 != "unknown"
    ensures forall i :: 0 <= i < |avgs| ==> avgs[i].1 == Analytics.Mean(Grouping.ValuesOf(es, avgs[i].0))
  {
    if ks == [] then []
    else
      var k := ks[|ks| - 1];
      AvgsOf(ks[..|ks| - 1], es) + (if k != "unknown" && Grouping.ValuesOf(es, k) != [] then [(k, Analytics.Mean(Grouping.ValuesOf(es, k)))] else [])
  }

  function Averages(rows: seq<PostRow>): seq<(string, real)> {
    AvgsOf(Grouping.KeyOrder(Entries(rows)), Entries(rows))
  }

  function Name(a: (string, real)): string {
    a.0
  }

  /** The order of `avgs.sort(key=avg, reverse=True)`: higher means first, ties in dict order. */
  predicate ByMeanDesc(a: (string, real), b: (string, real)) {
    a.1 >= b.1
  }

  function Ranking(rows: seq<PostRow>): seq<(string, real)> {
    Sorting.SortBy(Averages(rows), ByMeanDesc)
  }

  /** The two bucket names returned: the top two, the top one and "late-afternoon", or the defaults. */
  function TopTwo(ranked: seq<(string, real)>): (names: seq<string>)
    ensures |names| == 2
    ensures ranked == [] ==> names == ["morning", "late-afternoon"]
    ensures |ranked| == 1 ==> names == [ranked[0].0, "late-afternoon"]
    ensures |ranked| >= 2 ==> names == [ranked[0].0, ranked[1].0]
  {
    if ranked == [] then ["morning", "late-afternoon"]
    else if |ranked| > 1 then [ranked[0].0, ranked[1].0]
    else [ranked[0].0, "late-afternoon"]
  }

  /** `best_buckets`: groups the scores by bucket, averages them, and ranks the buckets. */
  method BestBuckets(rows: seq<PostRow>) returns (names: seq<string>)
    ensures names == TopTwo(Ranking(rows))
  {
    var es := Entries(rows);
    var keys, groups := Grouping.Group(es);
    var avgs: seq<(string, real)> := [];
    for i := 0 to |keys|
      invariant avgs == AvgsOf(keys[..i], es)
    {
      var b := keys[i];
      assert keys[..i + 1][..i] == keys[..i];
      assert b in groups;
      if b != "unknown" && groups[b] != [] {
        avgs := avgs + [(b, Analytics.Mean(groups[b]))];
      }
    }
    assert keys[..|keys|] == keys;
    avgs := Sorting.SortBy(avgs, ByMeanDesc);
    if avgs == [] {
      return ["morning", "late-afternoon"];
    }
    names := if |avgs| > 1 then [avgs[0].0, avgs[1].0] else [avgs[0].0, "late-afternoon"];
  }

  // ---------------------------------------------------------------------
  // What the ranking means
  // ---------------------------------------------------------------------

  /** How many rows fall in bucket `b`. */
  function RowsIn(rows: seq<PostRow>, b: string): nat {
    |Grouping.ValuesOf(Entries(rows), b)|
  }

  /** Some entry of `avgs` is for bucket `b`. */
  predicate Lists(avgs: seq<(string, real)>, b: string) {
    exists i :: 0 <= i < |avgs| && avgs[i].0 == b
  }

  lemma ListsPermutation(avgs: seq<(string, real)>, ranked: seq<(string, real)>)
    requires multiset(ranked) == multiset(avgs)
    ensures forall b :: Lists(avgs, b) <==> Lists(ranked, b)
  {
    forall b ensures Lists(avgs, b) ==> Lists(ranked, b) {
      if Lists(avgs, b) {
        var i :| 0 <= i < |avgs| && avgs[i].0 == b;
        assert avgs[i] in multiset(ranked);
      }
    }
    forall b ensures Lists(ranked, b) ==> Lists(avgs, b) {
      if Lists(ranked, b) {
        var i :| 0 <= i < |ranked| && ranked[i].0 == b;
        assert ranked[i] in multiset(avgs);
      }
    }
  }

  lemma {:induction false} AvgsOfCovers(ks: seq<string>, es: seq<(string, real)>)
    requires Grouping.Distinct(ks)
    ensures Grouping.DistinctBy(AvgsOf(ks, es), Name)
    ensures forall k :: k in ks && k != "unknown" && Grouping.ValuesOf(es, k) != [] <==> Lists(AvgsOf(ks, es), k)
  {
    if ks != [] {
      var init, k := ks[..|ks| - 1], ks[|ks| - 1];
      assert ks == init + [k];
      AvgsOfCovers(init, es);
      var prev := AvgsOf(init, es);
      var avgs := AvgsOf(ks, es);
      assert k !in init;
      forall i, j | 0 <= i < j < |avgs| ensures Name(avgs[i]) != Name(avgs[j]) {
        if j == |prev| {
          assert avgs[i] == prev[i];
        } else {
          assert avgs[i] == prev[i] && avgs[j] == prev[j];
        }
      }
      forall x ensures x in ks && x != "unknown" && Grouping.ValuesOf(es, x) != [] <==> Lists(avgs, x) {
        if x in ks && x != "unknown" && Grouping.ValuesOf(es, x) != [] {
          if x == k {
            assert avgs[|avgs| - 1].0 == x;
          } else {
            var i :| 0 <= i < |prev| && prev[i].0 == x;
            assert avgs[i] == prev[i];
          }
        }
        if Lists(avgs, x) {
          var i :| 0 <= i < |avgs| && avgs[i].0 == x;
          if i < |prev| {
            assert avgs[i] == prev[i];
          }
        }
      }
    }
  }

  /** The ranking is best-first and names each bucket once. */
  lemma RankingOrdered(rows: seq<PostRow>)
    ensures Sorting.SortedBy(Ranking(rows), ByMeanDesc)
    ensures Grouping.DistinctBy(Ranking(rows), Name)
  {
    var es := Entries(rows);
    Grouping.KeyOrderFacts(es);
    AvgsOfCovers(Grouping.KeyOrder(es), es);
    assert Sorting.TotalPreorder(ByMeanDesc);
    Sorting.SortBySorted(Averages(rows), ByMeanDesc);
    Grouping.PermutationDistinctBy(Averages(rows), Ranking(rows), Name);
  }

  /**
   * The ranking lists every bucket that some row names, other than "unknown",
   * with the mean of its scores; blank buckets count as "unknown" and are
   * never ranked.
   */
  lemma RankingCovers(rows: seq<PostRow>)
    ensures forall b :: RowsIn(rows, b) > 0 && b != "unknown" <==> Lists(Ranking(rows), b)
    ensures forall a :: a in Ranking(rows) ==> a.1 == Analytics.Mean(Grouping.ValuesOf(Entries(rows), a.0))
  {
    var es := Entries(rows);
    Grouping.KeyOrderFacts(es);
    AvgsOfCovers(Grouping.KeyOrder(es), es);
    ListsPermutation(Averages(rows), Ranking(rows));
    forall a | a in Ranking(rows) ensures a.1 == Analytics.Mean(Grouping.ValuesOf(es, a.0)) {
      assert a in multiset(Averages(rows));
    }
  }

  /**
   * The first name has the best mean of all ranked buckets; with two or more
   * ranked buckets the names differ and the second has the best mean of the rest.
   */
  lemma BestBucketsAreBest(rows: seq<PostRow>)
    ensures var names, ranked := TopTwo(Ranking(rows)), Ranking(rows);
      ranked != [] ==> forall a :: a in ranked ==> a.1 <= ranked[0].1 && ranked[0].0 == names[0]
    ensures var names, ranked := TopTwo(Ranking(rows)), Ranking(rows);
      |ranked| >= 2 ==> (names[0] != names[1] && ranked[1].0 == names[1] &&
        forall a :: a in ranked && a.0 != names[0] ==> a.1 <= ranked[1].1)
  {
    var ranked := Ranking(rows);
    RankingOrdered(rows);
    if |ranked| >= 2 {
      forall a | a in ranked && a.0 != ranked[0].0 ensures a.1 <= ranked[1].1 {
        var k :| 0 <= k < |ranked| && ranked[k] == a;
        assert k != 0;
      }
    }
  }

  /** Only a bucket seen in the rows, never "unknown", is returned ahead of the defaults. */
  lemma FirstChoiceSeen(rows: seq<PostRow>)
    ensures var first := TopTwo(Ranking(rows))[0];
      first == "morning" || (first != "unknown" && RowsIn(rows, first) > 0)
  {
    RankingCovers(rows);
    var ranked := Ranking(rows);
    if ranked != [] {
      assert Lists(ranked, ranked[0].0);
    }
  }

  /** When "late-afternoon" is the only ranked bucket, both chosen slots are the same bucket. */
  lemma LoneLateAfternoonTwice()
    ensures TopTwo([("late-afternoon", 3.0)]) == ["late-afternoon", "late-afternoon"]
  {
  }

  // ---------------------------------------------------------------------
  // Bucket to UTC time
  // ---------------------------------------------------------------------

  /** `to_utc_min` as written: the (hour, minute) strings of each bucket's UTC posting time. */
  function ToUtcMin(bucket: string): (hm: (string, string))
    ensures hm.0 != [] && hm.1 != []
  {
    if bucket == "early-morning" then ("14", "40")
    else if bucket == "morning" then ("15", "10")
    else if bucket == "early-afternoon" then ("21", "10")
    else if bucket == "late-afternoon" then ("21", "40")
    else if bucket == "evening" then ("2", "5")
    else if bucket == "night" then ("9", "5")
    else ("15", "40")
  }

  /** The local hour in the UTC-7 zone of a UTC hour. */
  function LocalHour(utcHour: nat): (h: nat)
    requires utcHour < 24
    ensures h < 24
    ensures (h + 7) % 24 == utcHour
  {
    (utcHour + 17) % 24
  }

  /** The analytics' hour bucket of the local time a UTC (hour, minute) pair posts at. */
  function BandOf(hm: (string, string)): (b: string)
    requires forall i :: 0 <= i < |hm.0| ==> '0' <= hm.0[i] <= '9'
    requires Text.ParseNat(hm.0) < 24
    ensures b != []
  {
    Analytics.HourBucket(Some(LocalHour(Text.ParseNat(hm.0))))
  }

  const Buckets: seq<string> := ["early-morning", "morning", "early-afternoon", "late-afternoon", "evening", "night"]

  /**
   * As written, "morning" posts at 15:10 UTC (08:10 local), which the
   * analytics file under "early-morning", and "late-afternoon" posts at
   * 21:40 UTC (14:40 local), which they file under "early-afternoon".
   */
  lemma ToUtcMinOutOfBand()
    ensures BandOf(ToUtcMin("morning")) == "early-morning"
    ensures BandOf(ToUtcMin("late-afternoon")) == "early-afternoon"
  {
    assert ToUtcMin("morning") == ("15", "10");
    assert ToUtcMin("late-afternoon") == ("21", "40");
    assert Text.ParseNat("15") == 15 && Text.ParseNat("21") == 21;
  }

  /**
   * The table with each bucket posting inside its own band: "morning" at
   * 17:10 UTC (10:10 local) and "late-afternoon" at 23:40 UTC (16:40 local),
   * the local times scripts/suggest_cron.py uses for these two buckets.
   */
  function ToUtcMinInBand(bucket: string): (hm: (string, string))
    ensures bucket !in {"morning", "late-afternoon"} ==> hm == ToUtcMin(bucket)
  {
    if bucket == "morning" then ("17", "10")
    else if bucket == "late-afternoon" then ("23", "40")
    else ToUtcMin(bucket)
  }

  /** Every bucket of the corrected table posts at a local time the analytics file under that same bucket. */
  lemma ToUtcMinInBandMatches()
    ensures forall b :: b in Buckets ==> BandOf(ToUtcMinInBand(b)) == b
  {
    assert Text.ParseNat("14") == 14 && Text.ParseNat("17") == 17 && Text.ParseNat("21") == 21;
    assert Text.ParseNat("23") == 23 && Text.ParseNat("2") == 2 && Text.ParseNat("9") == 9;
    forall b | b in Buckets ensures BandOf(ToUtcMinInBand(b)) == b {
      if b == "early-morning" {
        assert ToUtcMinInBand(b) == ("14", "40");
      } else if b == "morning" {
        assert ToUtcMinInBand(b) == ("17", "10");
      } else if b == "early-afternoon" {
        assert ToUtcMinInBand(b) == ("21", "10");
      } else if b == "late-afternoon" {
        assert ToUtcMinInBand(b) == ("23", "40");
      } else if b == "evening" {
        assert ToUtcMinInBand(b) == ("2", "5");
      } else {
        assert ToUtcMinInBand(b) == ("9", "5");
      }
    }
  }
}
