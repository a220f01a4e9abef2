/**
 * scripts/update_style_bandit.py: turns the "style" rows of the feature
 * summary into clamped weights and merges them into the `style_weights`
 * object of the rules file. Reading and writing the files is not part of this
 * model; the rules document is an object whose `style_weights` member is
 * updated in place.
 */
module StyleBandit {
  import opened Wrappers
  import Analytics

  /**
   * A row of feature_summary.csv as this script reads it. `avg` is `None`
   * when `float(r["avg_eng_score"])` raises (a missing or unparseable cell).
   */
  datatype CsvRow = CsvRow(feature: string, bucket: string, avg: Option<real>)

  const Floor: real := 0.6
  const Ceiling: real := 1.6

  /** `max(0.6, min(1.6, 1.0 + ((avg / 50.0) - 0.5) * 0.6))` */
  function Weight(avg: real): (w: real)
    ensures Floor <= w <= Ceiling
    ensures avg >= 75.0 ==> w == Ceiling
    ensures avg <= -25.0 / 3.0 ==> w == Floor
    ensures -25.0 / 3.0 <= avg <= 75.0 ==> w == 0.7 + avg * 0.012
  {
    var raw := 1.0 + ((avg / 50.0) - 0.5) * 0.6;
    if raw > Ceiling then Ceiling else if raw < Floor then Floor else raw
  }

  /** A better average never gets a smaller weight. */
  lemma WeightMonotone(a: real, b: real)
    requires a <= b
    ensures Weight(a) <= Weight(b)
  {
  }

  /** The unparseable-average fallback: the average counts as 0, which weighs 0.7. */
  function AvgOf(r: CsvRow): (avg: real)
    ensures r.avg.None? ==> avg == 0.0 && Weight(avg) == 0.7
    ensures r.avg.Some? ==> avg == r.avg.value
  {
    match r.avg
    case None => 0.0
    case Some(v) => v
  }

  /** An average of 25 is neutral: weight 1.0. */
  lemma NeutralAverage()
    ensures Weight(25.0) == 1.0
  {
  }

  /** `weights` after the loop over the rows: each style row sets its bucket's weight, later rows overwriting. */
  function WeightsOf(rows: seq<CsvRow>): map<string, real> {
    if rows == [] then map[]
    else
      var prev := WeightsOf(rows[..|rows| - 1]);
      var r := rows[|rows| - 1];
      if r.feature == "style" then prev[r.bucket := Weight(AvgOf(r))] else prev
  }

  method StyleWeights(rows: seq<CsvRow>) returns (weights: map<string, real>)
    ensures weights == WeightsOf(rows)
  {
    weights := map[];
    for i := 0 to |rows|
      invariant weights == WeightsOf(rows[..i])
    {
      assert rows[..i + 1][..i] == rows[..i];
      var r := rows[i];
      if r.feature == "style" {
        weights := weights[r.bucket := Weight(AvgOf(r))];
      }
    }
    assert rows[..|rows|] == rows;
  }

  predicate IsStyleRowFor(r: CsvRow, b: string) {
    r.feature == "style" && r.bucket == b
  }

  /** Row `i` is the last style row for bucket `b`. */
  predicate LastStyleRow(rows: seq<CsvRow>, b: string, i: int) {
    && 0 <= i < |rows|
    && IsStyleRowFor(rows[i], b)
    && forall j :: i < j < |rows| ==> !IsStyleRowFor(rows[j], b)
  }

  /** A bucket gets a weight exactly when some style row names it; other features never contribute. */
  lemma {:induction false} WeightsOfKeys(rows: seq<CsvRow>, b: string)
    ensures b in WeightsOf(rows) <==> exists i :: 0 <= i < |rows| && IsStyleRowFor(rows[i], b)
  {
    if rows != [] {
      var init := rows[..|rows| - 1];
      WeightsOfKeys(init, b);
      if exists i :: 0 <= i < |init| && IsStyleRowFor(init[i], b) {
        var i :| 0 <= i < |init| && IsStyleRowFor(init[i], b);
        assert rows[i] == init[i];
      }
      if exists i :: 0 <= i < |rows| && IsStyleRowFor(rows[i], b) {
        var i :| 0 <= i < |rows| && IsStyleRowFor(rows[i], b);
        if i < |init| {
          assert init[i] == rows[i];
        }
      }
    }
  }

  /** A bucket's weight is the one computed from its last style row: later rows win. */
  lemma {:induction false} WeightsOfLastWins(rows: seq<CsvRow>, b: string, i: int)
    requires LastStyleRow(rows, b, i)
    ensures b in WeightsOf(rows) && WeightsOf(rows)[b] == Weight(AvgOf(rows[i]))
  {
    var init := rows[..|rows| - 1];
    if i < |init| {
      assert LastStyleRow(init, b, i) by {
        forall j | i < j < |init| ensures !IsStyleRowFor(init[j], b) {
          assert init[j] == rows[j];
        }
      }
      WeightsOfLastWins(init, b, i);
      assert !IsStyleRowFor(rows[|rows| - 1], b);
    }
  }

  /** The summary file's rows as this script reads them. */
  function CsvRowsOf(rows: seq<Analytics.SummaryRow>): (csv: seq<CsvRow>)
    ensures |csv| == |rows|
    ensures forall i :: 0 <= i < |rows| ==> csv[i].feature == rows[i].feature
  {
    seq(|rows|, i requires 0 <= i < |rows| => CsvRow(rows[i].feature, rows[i].bucket, Some(rows[i].avgEngScore)))
  }

  /**
   * The feature summary the analytics write has no "style" feature, so the
   * weights computed from it are always empty and the merge changes no weight.
   */
  lemma NoStyleInSummary(js: seq<Analytics.Joined>)
    ensures WeightsOf(CsvRowsOf(Analytics.SummaryRows(js))) == map[]
  {
    var csv := CsvRowsOf(Analytics.SummaryRows(js));
    Analytics.SummaryFeatures(js);
    forall b ensures b !in WeightsOf(csv) {
      WeightsOfKeys(csv, b);
      forall i | 0 <= i < |csv| ensures csv[i].feature != "style" {
        assert Analytics.SummaryRows(js)[i] in Analytics.SummaryRows(js);
      }
    }
  }

  /** `dict.update`: the new weights win, every other key keeps its weight. */
  function Merge(current: map<string, real>, weights: map<string, real>): (m: map<string, real>)
    ensures m.Keys == current.Keys + weights.Keys
    ensures forall k :: k in weights ==> m[k] == weights[k]
    ensures forall k :: k in current && k !in weights ==> m[k] == current[k]
  {
    current + weights
  }

  /** The rules document: its `style_weights` object, if present, and its other members. */
  class Rules {
    var styleWeights: Option<map<string, real>>
    var others: map<string, string>

    constructor(styleWeights: Option<map<string, real>>, others: map<string, string>)
      ensures this.styleWeights == styleWeights && this.others == others
    {
      this.styleWeights := styleWeights;
      this.others := others;
    }

    function CurrentWeights(): (m: map<string, real>)
      reads this
      ensures styleWeights.None? ==> m == map[]
    {
      match styleWeights
      case None => map[]
      case Some(m) => m
    }

    /** `rules.setdefault("style_weights", {})` then `.update(weights)`. */
    method UpdateStyleWeights(weights: map<string, real>)
      modifies this
      ensures styleWeights == Some(Merge(old(CurrentWeights()), weights))
      ensures others == old(others)
    {
      if styleWeights.None? {
        styleWeights := Some(map[]);
      }
      styleWeights := Some(Merge(styleWeights.value, weights));
    }
  }
}
