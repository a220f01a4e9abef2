/**
 * scripts/suggest_cron.py: turns the "time" rows of the feature summary into
 * at most two crontab lines. A crontab line has five fields, minute first
 * ("MM HH * * *" runs daily at HH:MM UTC); bucket times are local to a fixed
 * UTC-7 zone (America/Phoenix keeps no daylight saving time). The markdown
 * report is not part of this model.
 */
module SuggestCron {
  import opened Text
  import opened Wrappers
  import Sorting
  import Analytics

  datatype Clock = Clock(hour: nat, minute: nat)

  predicate ValidClock(t: Clock) {
    t.hour < 24 && t.minute < 60
  }

  const TableKeys: seq<string> := ["early-morning", "morning", "early-afternoon", "late-afternoon", "evening", "night"]

  /** `BUCKET_TIMES_LOCAL`: the local posting time of each hour bucket. */
  function BucketTimeLocal(b: string): (t: Option<Clock>)
    ensures t.Some? <==> b in TableKeys
    ensures t.Some? ==> ValidClock(t.value)
  {
    if b == "early-morning" then Some(Clock(7, 40))
    else if b == "morning" then Some(Clock(10, 10))
    else if b == "early-afternoon" then Some(Clock(14, 10))
    else if b == "late-afternoon" then Some(Clock(16, 40))
    else if b == "evening" then Some(Clock(19, 10))
    else if b == "night" then Some(Clock(21, 10))
    else None
  }

  /** The UTC hour of a local hour in the UTC-7 zone. */
  function UtcHour(localHour: nat): (h: nat)
    requires localHour < 24
    ensures h < 24
    ensures (h + 17) % 24 == localHour
  {
    (localHour + 7) % 24
  }

  /** `to_utc_str`: the minute and the UTC hour, zero-padded, then the three daily wildcards. */
  function ToUtcStr(clock: Clock): (r: string)
    requires ValidClock(clock)
    ensures |r| == 11 && r[2] == ' ' && r[5..] == " * * *"
    ensures forall i :: 0 <= i < 2 ==> '0' <= r[i] <= '9'
    ensures forall i :: 3 <= i < 5 ==> '0' <= r[i] <= '9'
    ensures ParseNat(r[..2]) == clock.minute
    ensures ParseNat(r[3..5]) < 24 && (ParseNat(r[3..5]) + 17) % 24 == clock.hour
    ensures ParseNat(r[3..5]) == UtcHour(clock.hour)
  {
    var m := Pad2(clock.minute);
    var h := Pad2(UtcHour(clock.hour));
    var line := m + " " + h + " * * *";
    assert line[..2] == m && line[3..5] == h;
    line
  }

  /** The crontab lines of the two morning buckets: 14:40 and 17:10 UTC. */
  lemma MorningCrons()
    ensures ToUtcStr(BucketTimeLocal("early-morning").value) == "40 14 * * *"
    ensures ToUtcStr(BucketTimeLocal("morning").value) == "10 17 * * *"
  {
    assert BucketTimeLocal("early-morning") == Some(Clock(7, 40));
    EarlyMorningUtc();
    assert BucketTimeLocal("morning") == Some(Clock(10, 10));
    MorningUtc();
  }

  lemma EarlyMorningUtc()
    ensures ToUtcStr(Clock(7, 40)) == "40 14 * * *"
  {
    assert UtcHour(7) == 14;
  }

  lemma MorningUtc()
    ensures ToUtcStr(Clock(10, 10)) == "10 17 * * *"
  {
    assert UtcHour(10) == 17;
  }

  lemma EarlyAfternoonUtc()
    ensures ToUtcStr(Clock(14, 10)) == "10 21 * * *"
  {
    assert UtcHour(14) == 21;
  }

  lemma LateAfternoonUtc()
    ensures ToUtcStr(Clock(16, 40)) == "40 23 * * *"
  {
    assert UtcHour(16) == 23;
  }

  lemma EveningUtc()
    ensures ToUtcStr(Clock(19, 10)) == "10 02 * * *"
  {
    assert UtcHour(19) == 2;
  }

  lemma NightUtc()
    ensures ToUtcStr(Clock(21, 10)) == "10 04 * * *"
  {
    assert UtcHour(21) == 4;
  }

  /** The crontab lines of the two afternoon buckets: 21:10 and 23:40 UTC. */
  lemma AfternoonCrons()
    ensures ToUtcStr(BucketTimeLocal("early-afternoon").value) == "10 21 * * *"
    ensures ToUtcStr(BucketTimeLocal("late-afternoon").value) == "40 23 * * *"
  {
    assert BucketTimeLocal("early-afternoon") == Some(Clock(14, 10));
    EarlyAfternoonUtc();
    assert BucketTimeLocal("late-afternoon") == Some(Clock(16, 40));
    LateAfternoonUtc();
  }

  /** The crontab lines of the evening and night buckets: 02:10 and 04:10 UTC. */
  lemma EveningCrons()
    ensures ToUtcStr(BucketTimeLocal("evening").value) == "10 02 * * *"
    ensures ToUtcStr(BucketTimeLocal("night").value) == "10 04 * * *"
  {
    assert BucketTimeLocal("evening") == Some(Clock(19, 10));
    EveningUtc();
    assert BucketTimeLocal("night") == Some(Clock(21, 10));
    NightUtc();
  }

  /**
   * The local time given for "night", 21:10, falls in the band that the
   * analytics call "evening"; every other bucket's time lies in its own band.
   */
  lemma TableTimesAgainstBands()
    ensures forall b :: b in TableKeys && b != "night" ==>
              Analytics.HourBucket(Some(BucketTimeLocal(b).value.hour)) == b
    ensures Analytics.HourBucket(Some(BucketTimeLocal("night").value.hour)) == "evening"
  {
  }

  // ---------------------------------------------------------------------
  // Choosing the buckets
  // ---------------------------------------------------------------------

  /** The order of `sort(key=avg_eng_score, reverse=True)`: higher averages first. */
  predicate ByAvgDesc(a: Analytics.SummaryRow, b: Analytics.SummaryRow) {
    a.avgEngScore >= b.avgEngScore
  }

  function TimeRows(rows: seq<Analytics.SummaryRow>): (t: seq<Analytics.SummaryRow>)
    ensures forall k :: 0 <= k < |t| ==> t[k].feature == "time"
    ensures multiset(t) <= multiset(rows)
  {
    if rows == [] then []
    else
      assert rows == [rows[0]] + rows[1..];
      (if rows[0].feature == "time" then [rows[0]] else []) + TimeRows(rows[1..])
  }

  /** `best_buckets`: the "time" rows, best average first; none when the summary is missing. */
  function BestBuckets(summaryExists: bool, rows: seq<Analytics.SummaryRow>): seq<Analytics.SummaryRow> {
    if summaryExists then Sorting.SortBy(TimeRows(rows), ByAvgDesc) else []
  }

  lemma BestBucketsRanked(summaryExists: bool, rows: seq<Analytics.SummaryRow>)
    ensures Sorting.SortedBy(BestBuckets(summaryExists, rows), ByAvgDesc)
    ensures forall k :: 0 <= k < |BestBuckets(summaryExists, rows)| ==> BestBuckets(summaryExists, rows)[k].feature == "time"
    ensures summaryExists ==> multiset(BestBuckets(summaryExists, rows)) == multiset(TimeRows(rows))
    ensures !summaryExists ==> BestBuckets(summaryExists, rows) == []
  {
    if summaryExists {
      var t := TimeRows(rows);
      assert Sorting.TotalPreorder(ByAvgDesc);
      Sorting.SortBySorted(t, ByAvgDesc);
      var s := Sorting.SortBy(t, ByAvgDesc);
      forall k | 0 <= k < |s| ensures s[k].feature == "time" {
        assert s[k] in multiset(t);
      }
    }
  }

  /** The bucket names among some ranked rows that the time table knows, in order. */
  function KnownBuckets(b: seq<Analytics.SummaryRow>): (names: seq<string>)
    ensures |names| <= |b|
    ensures forall k :: 0 <= k < |names| ==> names[k] in TableKeys
  {
    if b == [] then []
    else (if b[0].bucket in TableKeys then [b[0].bucket] else []) + KnownBuckets(b[1..])
  }

  /** `sel`: the known buckets among the top two, or the fixed default pair when there are none. */
  function Select(b: seq<Analytics.SummaryRow>): (sel: seq<string>)
    ensures 1 <= |sel| <= 2
    ensures forall k :: 0 <= k < |sel| ==> sel[k] in TableKeys
    ensures sel == ["early-afternoon", "morning"] <== KnownBuckets(b[..if |b| < 2 then |b| else 2]) == []
    ensures KnownBuckets(b[..if |b| < 2 then |b| else 2]) != [] ==> sel == KnownBuckets(b[..if |b| < 2 then |b| else 2])
  {
    var top := KnownBuckets(b[..if |b| < 2 then |b| else 2]);
    if top != [] then top else ["early-afternoon", "morning"]
  }

  /** A bucket that is ranked first or second and is in the table is always selected. */
  lemma SelectKeepsTopKnown(b: seq<Analytics.SummaryRow>, k: nat)
    requires k < |b| && k < 2 && b[k].bucket in TableKeys
    ensures b[k].bucket in Select(b)
  {
    var top := b[..if |b| < 2 then |b| else 2];
    assert top[k] == b[k];
    if k == 0 {
      assert KnownBuckets(top)[0] == b[0].bucket;
    } else {
      assert top == [top[0]] + [top[1]];
      assert top[1..] == [b[1]];
      assert KnownBuckets([b[1]]) == [b[1].bucket];
    }
  }

  /** `crons`: one crontab line per selected bucket, in the same order. */
  function Crons(sel: seq<string>): (crons: seq<string>)
    requires forall k :: 0 <= k < |sel| ==> sel[k] in TableKeys
    ensures |crons| == |sel|
    ensures forall k :: 0 <= k < |sel| ==> crons[k] == ToUtcStr(BucketTimeLocal(sel[k]).value)
  {
    if sel == [] then [] else [ToUtcStr(BucketTimeLocal(sel[0]).value)] + Crons(sel[1..])
  }

  /** With no summary the suggestion is the default pair at 14:10 and 10:10 local. */
  lemma DefaultSuggestion(rows: seq<Analytics.SummaryRow>)
    ensures Crons(Select(BestBuckets(false, rows))) == ["10 21 * * *", "10 17 * * *"]
  {
    var d := Select(BestBuckets(false, rows));
    assert d == ["early-afternoon", "morning"];
    MorningCrons();
    AfternoonCrons();
    var c := Crons(d);
    assert c[0] == "10 21 * * *" && c[1] == "10 17 * * *";
  }
}
