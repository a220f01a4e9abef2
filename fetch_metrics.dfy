/**
 * analytics/fetch_metrics.py: per-post engagement records keyed by id. The
 * records come either from synthetic sample data or from Buffer updates; they
 * are upserted into the store read back from metrics.json and written out
 * sorted by (day, id). The HTTP pagination, the JSON files and the clock are
 * not part of this model: the fetched updates, the decoded file and the
 * calendar dates are parameters.
 */
module FetchMetrics {
  import opened Text
  import opened Seqs
  import opened Wrappers
  import Sorting
  import Grouping

  /** One record of metrics.json. */
  datatype Metric = Metric(
    id: string, profileId: string, service: string, day: string,
    textLen: nat, clicks: int, likes: int, shares: int, comments: int)

  const Services: seq<string> := ["linkedin", "facebook", "twitter"]

  // ---------------------------------------------------------------------
  // Sample data
  // ---------------------------------------------------------------------

  /**
   * The record for day `offset` (0 = oldest) and service number `idx`.
   * `day` is the ISO date of that day, `days - offset - 1` days before today.
   */
  function SampleRecord(offset: nat, idx: nat, day: string): Metric
    requires idx < 3
  {
    var service := Services[idx];
    var base := (offset + 1) * (idx + 2);
    Metric("sample-" + service + "-" + day, "sample-" + service, service, day,
           140 + idx * 5 + offset, base + 2, base + 5, Max0(base / 3), Max0(base / 4))
  }

  /**
   * With base = (offset + 1)(idx + 2): clicks and likes are base + 2 and
   * base + 5, shares and comments base div 3 and base div 4, and the text
   * length grows by 5 per service and 1 per day from 140.
   */
  lemma SampleRecordFields(offset: nat, idx: nat, day: string)
    requires idx < 3
    ensures var m, base := SampleRecord(offset, idx, day), (offset + 1) * (idx + 2);
      && m.service == Services[idx] && m.day == day
      && m.id == "sample-" + Services[idx] + "-" + day && m.profileId == "sample-" + Services[idx]
      && m.textLen == 140 + 5 * idx + offset
      && m.clicks == base + 2 && m.likes == base + 5
      && m.shares == base / 3 && m.comments == base / 4
      && 0 <= m.comments <= m.shares < m.clicks < m.likes
  {
  }

  /** `max(0, n)` */
  function Max0(n: int): (r: nat)
    ensures n >= 0 ==> r == n
  {
    if n < 0 then 0 else n
  }

  /** The three records of day `offset`, in the order linkedin, facebook, twitter. */
  function DayRecords(offset: nat, day: string): (recs: seq<Metric>)
    ensures |recs| == 3
    ensures forall idx :: 0 <= idx < 3 ==> recs[idx] == SampleRecord(offset, idx, day)
  {
    [SampleRecord(offset, 0, day), SampleRecord(offset, 1, day), SampleRecord(offset, 2, day)]
  }

  /**
   * The sample records of the first `n` of `days` days, day by day and,
   * within a day, service by service.
   */
  function SampleMetrics(days: nat, n: nat, dayBefore: nat -> string): (records: seq<Metric>)
    requires n <= days
    ensures |records| == 3 * n
  {
    if n == 0 then [] else SampleMetrics(days, n - 1, dayBefore) + DayRecords(n - 1, dayBefore(days - n))
  }

  /** The position of service `idx` on day `offset`. */
  function Slot(offset: nat, idx: nat): nat {
    3 * offset + idx
  }

  /** Record `3 * offset + idx` is the one of service `idx` on day `offset`, dated `days - offset - 1` days ago. */
  lemma {:induction false} SampleMetricsAt(days: nat, n: nat, dayBefore: nat -> string, offset: nat, idx: nat)
    requires n <= days && offset < n && idx < 3
    ensures SampleMetrics(days, n, dayBefore)[Slot(offset, idx)] == SampleRecord(offset, idx, dayBefore(days - offset - 1))
  {
    var prev := SampleMetrics(days, n - 1, dayBefore);
    var day := DayRecords(n - 1, dayBefore(days - n));
    assert SampleMetrics(days, n, dayBefore) == prev + day;
    if offset < n - 1 {
      SampleMetricsAt(days, n - 1, dayBefore, offset, idx);
      assert Slot(offset, idx) < |prev|;
    } else {
      assert Slot(offset, idx) == |prev| + idx;
      assert days - offset - 1 == days - n;
    }
  }

  /** `generate_sample_metrics`: the nested loops over days and services. */
  method GenerateSampleMetrics(days: nat, dayBefore: nat -> string) returns (records: seq<Metric>)
    ensures records == SampleMetrics(days, days, dayBefore)
  {
    records := [];
    for offset := 0 to days
      invariant records == SampleMetrics(days, offset, dayBefore)
    {
      var day := dayBefore(days - offset - 1);
      var today := SampleDay(offset, day);
      SampleMetricsStep(days, offset, dayBefore);
      records := records + today;
    }
  }

  /** The inner loop over the three services of one day. */
  method SampleDay(offset: nat, day: string) returns (today: seq<Metric>)
    ensures today == DayRecords(offset, day)
  {
    today := [];
    for idx := 0 to 3
      invariant today == DayRecords(offset, day)[..idx]
    {
      PrefixStep(DayRecords(offset, day), idx);
      today := today + [SampleRecord(offset, idx, day)];
    }
  }

  /** One more day appends that day's three records. */
  lemma SampleMetricsStep(days: nat, offset: nat, dayBefore: nat -> string)
    requires offset < days
    ensures SampleMetrics(days, offset + 1, dayBefore)
         == SampleMetrics(days, offset, dayBefore) + DayRecords(offset, dayBefore(days - offset - 1))
  {
    assert days - (offset + 1) == days - offset - 1;
  }

  // ---------------------------------------------------------------------
  // Normalizing a Buffer update
  // ---------------------------------------------------------------------

  /**
   * The fields of a Buffer update that the normalization reads. A string that
   * is missing, null or empty is "", a count that is missing, null or 0 is 0.
   */
  datatype Update = Update(
    id: string, updateId: string,
    likes: int, favorites: int, favorite: int, shares: int, retweets: int, clicks: int, comments: int,
    sentAt: seq<Stamp>,
    text: string, body: string, profileService: string, service: string)

  /**
   * One of `sent_at`, `updated_at`, `created_at` and `due_at`: missing (or a
   * falsy value that is not a number, such as ""), an epoch time (a number or
   * a bool, since `isinstance(False, int)` holds; zero and `False` are
   * `Epoch(0)`), or some other truthy value.
   */
  datatype Stamp = Missing | Epoch(seconds: int) | Other

  predicate Truthy(t: Stamp) {
    match t
    case Missing => false
    case Epoch(s) => s != 0
    case Other => true
  }

  /** `a or b` on strings: an empty string falls through to the next key. */
  function OrText(a: string, b: string): (r: string)
    ensures a != [] ==> r == a
    ensures a == [] ==> r == b
  {
    if a != [] then a else b
  }

  /** `a or b` on counts: a zero falls through to the next key. */
  function OrCount(a: int, b: int): (r: int)
    ensures a != 0 ==> r == a
    ensures a == 0 ==> r == b
  {
    if a != 0 then a else b
  }

  /**
   * `a or b or c or d`: the first truthy stamp, or the last one when none is
   * truthy; `Missing` only for no stamps at all.
   */
  function FirstStamp(ts: seq<Stamp>): (t: Stamp)
    ensures Truthy(t) <==> exists i :: 0 <= i < |ts| && Truthy(ts[i])
    ensures Truthy(t) ==> exists i :: 0 <= i < |ts| && ts[i] == t && forall j :: 0 <= j < i ==> !Truthy(ts[j])
    ensures ts != [] && (forall i :: 0 <= i < |ts| ==> !Truthy(ts[i])) ==> t == ts[|ts| - 1]
    ensures ts == [] ==> t == Missing
  {
    if ts == [] then Missing
    else if Truthy(ts[0]) || |ts| == 1 then ts[0]
    else
      var t := FirstStamp(ts[1..]);
      assert forall i :: 0 < i < |ts| ==> ts[i] == ts[1..][i - 1];
      t
  }

  /**
   * `normalize_update`. `today` is the UTC date now and `dayOf(t)` the UTC
   * date of epoch time `t`, both as "%Y-%m-%d". `None` is the empty dict.
   */
  function NormalizeUpdate(u: Update, profileId: string, today: string, dayOf: int -> string): (m: Option<Metric>)
    ensures m.None? <==> u.id == [] && u.updateId == []
    ensures m.Some? ==> m.value.id != [] && m.value.id == (if u.id != [] then u.id else u.updateId)
    ensures m.Some? ==> m.value.profileId == profileId
    ensures m.Some? ==> m.value.likes == (if u.likes != 0 then u.likes else if u.favorites != 0 then u.favorites else u.favorite)
    ensures m.Some? ==> m.value.shares == (if u.shares != 0 then u.shares else u.retweets)
    ensures m.Some? ==> m.value.clicks == u.clicks && m.value.comments == u.comments
    ensures m.Some? ==> m.value.textLen == |if u.text != [] then u.text else u.body|
    ensures m.Some? ==> m.value.service != []
    ensures m.Some? && u.profileService == [] && u.service == [] ==> m.value.service == "unknown"
    ensures m.Some? && (u.profileService != [] || u.service != []) ==>
              m.value.service == Lower(if u.profileService != [] then u.profileService else u.service)
    ensures m.Some? ==> m.value.day == match FirstStamp(u.sentAt) case Epoch(t) => dayOf(t) case _ => today
  {
    var updateId := OrText(u.id, u.updateId);
    if updateId == [] then None
    else
      var text := OrText(u.text, u.body);
      var service := Lower(OrText(u.profileService, u.service));
      var day := match FirstStamp(u.sentAt) case Epoch(t) => dayOf(t) case _ => today;
      Some(Metric(updateId, profileId, if service == [] then "unknown" else service, day, |text|,
                  u.clicks, OrCount(u.likes, OrCount(u.favorites, u.favorite)),
                  OrCount(u.shares, u.retweets), u.comments))
  }

  /**
   * With every stamp falsy, `due_at` decides: a zero `due_at` is still a
   * number, so the record is dated at epoch 0 rather than today.
   */
  lemma FalsyDueAtDatesEpoch(u: Update, profileId: string, today: string, dayOf: int -> string)
    requires u.id != [] || u.updateId != []
    requires u.sentAt == [Missing, Missing, Missing, Epoch(0)]
    ensures NormalizeUpdate(u, profileId, today, dayOf).value.day == dayOf(0)
  {
    assert FirstStamp(u.sentAt) == Epoch(0);
  }

  // ---------------------------------------------------------------------
  // The store: a dict from id to record, in insertion order
  // ---------------------------------------------------------------------

  /** The dict's values in insertion order; keys are the records' ids, each listed once. */
  predicate Keyed(store: seq<Metric>) {
    forall i, j :: 0 <= i < j < |store| ==> store[i].id != store[j].id
  }

  function Lookup(store: seq<Metric>, id: string): (m: Option<Metric>)
    ensures m.Some? ==> m.value in store && m.value.id == id
    ensures m.None? <==> forall i :: 0 <= i < |store| ==> store[i].id != id
  {
    if store == [] then None
    else if store[0].id == id then Some(store[0])
    else
      var m := Lookup(store[1..], id);
      assert forall i :: 0 < i < |store| ==> store[i] == store[1..][i - 1];
      m
  }

  /** `store[m["id"]] = m`: an existing key keeps its place, a new one goes last. */
  function Put(store: seq<Metric>, m: Metric): (r: seq<Metric>)
    requires Keyed(store)
    ensures Keyed(r)
    ensures Lookup(r, m.id) == Some(m)
    ensures forall id :: id != m.id ==> Lookup(r, id) == Lookup(store, id)
    ensures |r| == |store| + (if Lookup(store, m.id).None? then 1 else 0)
  {
    if store == [] then [m]
    else if store[0].id == m.id then [m] + store[1..]
    else
      var rest := Put(store[1..], m);
      assert forall i :: 0 < i < |store| ==> store[i] == store[1..][i - 1];
      var r := [store[0]] + rest;
      assert forall i :: 0 < i < |r| ==> r[i] == rest[i - 1];
      assert store[0].id !in set i | 0 <= i < |rest| :: rest[i].id by {
        forall i | 0 <= i < |rest| ensures rest[i].id != store[0].id {
          if rest[i].id != m.id {
            var x := Lookup(rest, rest[i].id);
            assert x.Some?;
            assert Lookup(store[1..], rest[i].id) == x;
          }
        }
      }
      r
  }

  /** Each record with a truthy id, put in order: the last record for an id wins. */
  function PutAll(store: seq<Metric>, ms: seq<Metric>): (r: seq<Metric>)
    requires Keyed(store)
    ensures Keyed(r)
  {
    if ms == [] then store
    else
      var m := ms[|ms| - 1];
      var prev := PutAll(store, ms[..|ms| - 1]);
      if m.id != [] then Put(prev, m) else prev
  }

  /** The last record in `ms` with id `id`. */
  function LastWith(ms: seq<Metric>, id: string): (m: Option<Metric>)
    ensures m.None? <==> forall i :: 0 <= i < |ms| ==> ms[i].id != id
    ensures m.Some? ==> exists i :: 0 <= i < |ms| && ms[i] == m.value && ms[i].id == id &&
                          forall j :: i < j < |ms| ==> ms[j].id != id
  {
    if ms == [] then None
    else if ms[|ms| - 1].id == id then Some(ms[|ms| - 1])
    else
      var init := ms[..|ms| - 1];
      var m := LastWith(init, id);
      assert m.None? <==> forall i :: 0 <= i < |ms| ==> ms[i].id != id by {
        if m.Some? {
          var i :| 0 <= i < |init| && init[i] == m.value && init[i].id == id;
          assert ms[i] == init[i];
        } else {
          forall i | 0 <= i < |ms| ensures ms[i].id != id {
            if i < |init| { assert ms[i] == init[i]; }
          }
        }
      }
      assert m.Some? ==> exists i :: 0 <= i < |ms| && ms[i] == m.value && ms[i].id == id &&
                           forall j :: i < j < |ms| ==> ms[j].id != id by {
        if m.Some? {
          var i :| 0 <= i < |init| && init[i] == m.value && init[i].id == id && forall j :: i < j < |init| ==> init[j].id != id;
          assert ms[i] == init[i];
          forall j | i < j < |ms| ensures ms[j].id != id {
            if j < |init| { assert ms[j] == init[j]; }
          }
        }
      }
      m
  }

  /** After the upserts, an id holds its last record, or what it held before when none had that id. */
  lemma {:induction false} PutAllLastWins(store: seq<Metric>, ms: seq<Metric>, id: string)
    requires Keyed(store) && id != []
    ensures Lookup(PutAll(store, ms), id) == if LastWith(ms, id).Some? then LastWith(ms, id) else Lookup(store, id)
  {
    if ms != [] {
      PutAllLastWins(store, ms[..|ms| - 1], id);
    }
  }

  /** An entry of the decoded metrics.json array: a JSON object, read as a record, or anything else. */
  datatype Item = Object(record: Metric) | NotObject

  function RecordsOf(items: seq<Item>): (ms: seq<Metric>)
    ensures |ms| <= |items|
    ensures forall m :: m in ms ==> Object(m) in items
  {
    if items == [] then []
    else
      var init := RecordsOf(items[..|items| - 1]);
      var it := items[|items| - 1];
      assert forall m :: m in init ==> Object(m) in items by {
        forall m | m in init ensures Object(m) in items {
          assert Object(m) in items[..|items| - 1];
        }
      }
      if it.Object? then init + [it.record] else init
  }

  /** `load_existing`: the objects with a truthy id, keyed by it, the last one for an id winning. */
  method LoadExisting(items: seq<Item>) returns (store: seq<Metric>)
    ensures store == PutAll([], RecordsOf(items))
  {
    store := [];
    for i := 0 to |items|
      invariant store == PutAll([], RecordsOf(items[..i]))
    {
      assert items[..i + 1][..i] == items[..i];
      var entry := items[i];
      if entry.Object? && entry.record.id != [] {
        store := Put(store, entry.record);
      }
    }
    assert items[..|items|] == items;
  }

  /** The normalized updates with an id, in fetch order. */
  function Normalized(updates: seq<Update>, profileId: string, today: string, dayOf: int -> string): (ms: seq<Metric>)
    ensures |ms| <= |updates|
    ensures forall m :: m in ms ==> m.id != [] && m.profileId == profileId
  {
    if updates == [] then []
    else
      var init := Normalized(updates[..|updates| - 1], profileId, today, dayOf);
      var n := NormalizeUpdate(updates[|updates| - 1], profileId, today, dayOf);
      if n.Some? then init + [n.value] else init
  }

  /** Every normalized record of every profile, profile by profile. */
  function AllNormalized(profileIds: seq<string>, fetched: seq<seq<Update>>, today: string, dayOf: int -> string): seq<Metric>
    requires |fetched| == |profileIds|
  {
    if profileIds == [] then []
    else
      AllNormalized(profileIds[..|profileIds| - 1], fetched[..|fetched| - 1], today, dayOf)
        + Normalized(fetched[|fetched| - 1], profileIds[|profileIds| - 1], today, dayOf)
  }

  lemma {:induction false} PutAllAppend(store: seq<Metric>, a: seq<Metric>, b: seq<Metric>)
    requires Keyed(store)
    ensures PutAll(store, a + b) == PutAll(PutAll(store, a), b)
    decreases |b|
  {
    if b == [] {
      assert a + b == a;
    } else {
      assert (a + b)[..|a + b| - 1] == a + b[..|b| - 1];
      PutAllAppend(store, a, b[..|b| - 1]);
    }
  }

  /**
   * The fetch loop of `main`: each profile's updates (`fetched[p]`, already
   * paged through) are normalized and upserted into the existing store.
   */
  method Upsert(existing: seq<Metric>, profileIds: seq<string>, fetched: seq<seq<Update>>, today: string, dayOf: int -> string)
    returns (store: seq<Metric>)
    requires Keyed(existing)
    requires |fetched| == |profileIds|
    ensures store == PutAll(existing, AllNormalized(profileIds, fetched, today, dayOf))
  {
    store := existing;
    for p := 0 to |profileIds|
      invariant store == PutAll(existing, AllNormalized(profileIds[..p], fetched[..p], today, dayOf))
    {
      var before := store;
      var updates := fetched[p];
      for u := 0 to |updates|
        invariant Keyed(before)
        invariant store == PutAll(before, Normalized(updates[..u], profileIds[p], today, dayOf))
      {
        UpsertStep(before, updates, u, profileIds[p], today, dayOf);
        var normalized := NormalizeUpdate(updates[u], profileIds[p], today, dayOf);
        if normalized.Some? {
          store := Put(store, normalized.value);
        }
      }
      assert updates[..|updates|] == updates;
      UpsertProfile(existing, profileIds, fetched, p, today, dayOf);
    }
    assert profileIds[..|profileIds|] == profileIds && fetched[..|fetched|] == fetched;
  }

  lemma UpsertStep(before: seq<Metric>, updates: seq<Update>, u: nat, profileId: string, today: string, dayOf: int -> string)
    requires Keyed(before) && u < |updates|
    ensures var n := NormalizeUpdate(updates[u], profileId, today, dayOf);
      var prev := PutAll(before, Normalized(updates[..u], profileId, today, dayOf));
      PutAll(before, Normalized(updates[..u + 1], profileId, today, dayOf)) == if n.Some? then Put(prev, n.value) else prev
  {
    assert updates[..u + 1][..u] == updates[..u];
    var ms := Normalized(updates[..u], profileId, today, dayOf);
    var n := NormalizeUpdate(updates[u], profileId, today, dayOf);
    if n.Some? {
      assert (ms + [n.value])[..|ms|] == ms;
    }
  }

  lemma UpsertProfile(existing: seq<Metric>, profileIds: seq<string>, fetched: seq<seq<Update>>, p: nat, today: string, dayOf: int -> string)
    requires Keyed(existing) && |fetched| == |profileIds| && p < |profileIds|
    ensures PutAll(existing, AllNormalized(profileIds[..p + 1], fetched[..p + 1], today, dayOf)) ==
            PutAll(PutAll(existing, AllNormalized(profileIds[..p], fetched[..p], today, dayOf)), Normalized(fetched[p], profileIds[p], today, dayOf))
  {
    assert profileIds[..p + 1][..p] == profileIds[..p] && fetched[..p + 1][..p] == fetched[..p];
    PutAllAppend(existing, AllNormalized(profileIds[..p], fetched[..p], today, dayOf), Normalized(fetched[p], profileIds[p], today, dayOf));
  }

  // ---------------------------------------------------------------------
  // Output order
  // ---------------------------------------------------------------------

  /** Python's tuple order on (day, id). */
  predicate DayIdLe(a: Metric, b: Metric) {
    StrLt(a.day, b.day) || (a.day == b.day && StrLe(a.id, b.id))
  }

  lemma DayIdLeTotalPreorder()
    ensures Sorting.TotalPreorder(DayIdLe)
  {
    StrLeFacts();
  }

  /** `write_output`: the records sorted by (day, id). */
  function Output(records: seq<Metric>): seq<Metric> {
    Sorting.SortBy(records, DayIdLe)
  }

  /**
   * The written file holds the same records sorted by (day, id); with
   * distinct ids no two records tie, so each comes strictly before the next.
   */
  lemma OutputFacts(store: seq<Metric>)
    requires Keyed(store)
    ensures multiset(Output(store)) == multiset(store)
    ensures Sorting.SortedBy(Output(store), DayIdLe)
    ensures forall i, j :: 0 <= i < j < |Output(store)| ==> !DayIdLe(Output(store)[j], Output(store)[i])
  {
    var out := Output(store);
    DayIdLeTotalPreorder();
    Sorting.SortBySorted(store, DayIdLe);
    Grouping.PermutationDistinctBy(store, out, IdOf);
    forall i, j | 0 <= i < j < |out| ensures !DayIdLe(out[j], out[i]) {
      assert out[i].id != out[j].id;
      StrLeFacts();
    }
  }

  function IdOf(m: Metric): string {
    m.id
  }

  // ---------------------------------------------------------------------
  // PROFILE_IDS
  // ---------------------------------------------------------------------

  /** `s.split(sep)` */
  function SplitOn(s: string, sep: char): (parts: seq<string>)
    ensures parts != []
    ensures forall i :: 0 <= i < |parts| ==> sep !in parts[i]
    ensures forall i :: 0 <= i < |parts| ==> forall c :: c in parts[i] ==> c in s
    ensures JoinWith(parts, [sep]) == s
  {
    SplitFacts(s, sep);
    Split(s, sep)
  }

  /** The parts of `s` between occurrences of `sep`. */
  function Split(s: string, sep: char): (parts: seq<string>)
    ensures parts != []
  {
    if s == [] then [[]]
    else
      var rest := Split(s[1..], sep);
      if s[0] == sep then [[]] + rest else [[s[0]] + rest[0]] + rest[1..]
  }

  lemma {:induction false} SplitFacts(s: string, sep: char)
    ensures var parts := Split(s, sep);
      && (forall i :: 0 <= i < |parts| ==> sep !in parts[i])
      && (forall i :: 0 <= i < |parts| ==> forall c :: c in parts[i] ==> c in s)
      && JoinWith(parts, [sep]) == s
  {
    if s != [] {
      SplitFacts(s[1..], sep);
      var rest := Split(s[1..], sep);
      if s[0] == sep {
        assert JoinWith([[]] + rest, [sep]) == [] + [sep] + JoinWith(rest, [sep]);
        assert forall i :: 0 < i < |[[]] + rest| ==> ([[]] + rest)[i] == rest[i - 1];
      } else {
        var parts := [[s[0]] + rest[0]] + rest[1..];
        assert forall i :: 0 < i < |parts| ==> parts[i] == rest[i];
        assert JoinWith(parts, [sep]) == s by {
          if |rest| > 1 {
            assert parts[1..] == rest[1..];
            assert JoinWith(rest, [sep]) == rest[0] + [sep] + JoinWith(rest[1..], [sep]);
          }
        }
      }
    }
  }

  /** `[p.strip() for p in env.split(",") if p.strip()]` */
  function ProfileIds(env: string): (ids: seq<string>)
    ensures forall i :: 0 <= i < |ids| ==> IsProfileId(ids[i])
  {
    StrippedNonEmpty(SplitOn(env, ','))
  }

  /** A usable profile id: non-empty, stripped, and free of the separator. */
  predicate IsProfileId(s: string) {
    s != [] && NoOuterSpace(s) && ',' !in s
  }

  predicate AllBlank(parts: seq<string>) {
    forall i :: 0 <= i < |parts| ==> AllSpace(parts[i])
  }

  function StrippedNonEmpty(parts: seq<string>): (ids: seq<string>)
    requires forall i :: 0 <= i < |parts| ==> ',' !in parts[i]
    ensures |ids| <= |parts|
    ensures forall i :: 0 <= i < |ids| ==> IsProfileId(ids[i])
    ensures ids == [] <==> AllBlank(parts)
  {
    StrippedFacts(parts);
    Stripped(parts)
  }

  /** What one field contributes: its stripped self, or nothing when blank. */
  function StrippedPart(p: string): seq<string> {
    if Strip(p) != [] then [Strip(p)] else []
  }

  function Stripped(parts: seq<string>): seq<string> {
    if parts == [] then [] else StrippedPart(parts[0]) + Stripped(parts[1..])
  }

  lemma {:induction false} StrippedFacts(parts: seq<string>)
    requires forall i :: 0 <= i < |parts| ==> ',' !in parts[i]
    ensures var ids := Stripped(parts);
      && |ids| <= |parts|
      && (forall i :: 0 <= i < |ids| ==> IsProfileId(ids[i]))
      && (ids == [] <==> AllBlank(parts))
  {
    if parts != [] {
      StripKeepsOut(parts[0], ',');
      PartsTail(parts);
      StrippedFacts(parts[1..]);
      var p, rest := Strip(parts[0]), Stripped(parts[1..]);
      if p != [] { ProfileIdsCons(p, rest); }
    }
  }

  lemma PartsTail(parts: seq<string>)
    requires parts != []
    requires forall i :: 0 <= i < |parts| ==> ',' !in parts[i]
    ensures forall i :: 0 <= i < |parts[1..]| ==> ',' !in parts[1..][i]
    ensures AllBlank(parts) <==> AllSpace(parts[0]) && AllBlank(parts[1..])
  {
    assert forall i :: 1 <= i < |parts| ==> parts[i] == parts[1..][i - 1];
  }

  lemma ProfileIdsCons(p: string, rest: seq<string>)
    requires IsProfileId(p) && forall i :: 0 <= i < |rest| ==> IsProfileId(rest[i])
    ensures forall i :: 0 <= i < |[p] + rest| ==> IsProfileId(([p] + rest)[i])
  {
    forall i | 0 <= i < |[p] + rest| ensures IsProfileId(([p] + rest)[i]) {
      if i > 0 { assert ([p] + rest)[i] == rest[i - 1]; }
    }
  }

  lemma StripKeepsOut(s: string, c: char)
    requires c !in s
    ensures c !in Strip(s)
  {
    StripIsInfix(s);
    InfixAll(Strip(s), s, x => x != c);
  }

  /** Parts without the separator, as `split(",")` yields them. */
  predicate CommaFree(parts: seq<string>) {
    forall i :: 0 <= i < |parts| ==> ',' !in parts[i]
  }

  lemma CommaFreeAppend(a: seq<string>, b: seq<string>)
    requires CommaFree(a) && CommaFree(b)
    ensures CommaFree(a + b)
  {
    assert forall i :: 0 <= i < |a + b| ==> (a + b)[i] == if i < |a| then a[i] else b[i - |a|];
  }

  /** The filter-map distributes over concatenation. */
  lemma {:induction false} StrippedNonEmptyAppend(a: seq<string>, b: seq<string>)
    requires CommaFree(a) && CommaFree(b)
    ensures CommaFree(a + b)
    ensures StrippedNonEmpty(a + b) == StrippedNonEmpty(a) + StrippedNonEmpty(b)
  {
    CommaFreeAppend(a, b);
    StrippedAppend(a, b);
  }

  lemma {:induction false} StrippedAppend(a: seq<string>, b: seq<string>)
    ensures Stripped(a + b) == Stripped(a) + Stripped(b)
  {
    if a == [] {
      assert a + b == b;
    } else {
      assert (a + b)[0] == a[0] && (a + b)[1..] == a[1..] + b;
      StrippedAppend(a[1..], b);
    }
  }

  /** One part gives its stripped self, or nothing when it is blank. */
  lemma StrippedNonEmptySingle(p: string)
    requires ',' !in p
    ensures StrippedNonEmpty([p]) == if AllSpace(p) then [] else [Strip(p)]
  {
    assert [p][1..] == [];
  }

  /** Splitting at a separator splits the parts list there. */
  lemma {:induction false} SplitOnAppend(a: string, b: string, sep: char)
    ensures SplitOn(a + [sep] + b, sep) == SplitOn(a, sep) + SplitOn(b, sep)
  {
    SplitAppend(a, b, sep);
  }

  lemma {:induction false} SplitAppend(a: string, b: string, sep: char)
    ensures Split(a + [sep] + b, sep) == Split(a, sep) + Split(b, sep)
  {
    var s := a + [sep] + b;
    if a == [] {
      assert s[1..] == b;
    } else {
      assert s[0] == a[0] && s[1..] == a[1..] + [sep] + b;
      SplitAppend(a[1..], b, sep);
    }
  }

  /** Text without the separator is one part. */
  lemma {:induction false} SplitOnSingle(a: string, sep: char)
    requires sep !in a
    ensures SplitOn(a, sep) == [a]
  {
    SplitSingle(a, sep);
  }

  lemma {:induction false} SplitSingle(a: string, sep: char)
    requires sep !in a
    ensures Split(a, sep) == [a]
  {
    if a != [] {
      assert sep !in a[1..] by {
        forall c | c in a[1..] ensures c in a { }
      }
      SplitSingle(a[1..], sep);
      assert [a[0]] + a[1..] == a;
    }
  }

  /**
   * `PROFILE_IDS` is read as its comma-separated fields in order, each
   * stripped, with blank fields dropped: the ids of `a,b` are those of `a`
   * followed by those of `b`, and a field without a comma gives its stripped
   * self, or nothing when blank.
   */
  lemma ProfileIdsFields(a: string, b: string)
    ensures ProfileIds(a + "," + b) == ProfileIds(a) + ProfileIds(b)
    ensures ',' !in a ==> ProfileIds(a) == if AllSpace(a) then [] else [Strip(a)]
  {
    SplitOnAppend(a, b, ',');
    StrippedNonEmptyAppend(SplitOn(a, ','), SplitOn(b, ','));
    if ',' !in a {
      SplitOnSingle(a, ',');
      StrippedNonEmptySingle(a);
    }
  }

  /** What `main` does: write the sample data, or fetch for these profiles. */
  datatype Plan = Sample | Fetch(profileIds: seq<string>)

  /** `main`'s choice; `None` is an unset variable. */
  function PlanOf(token: Option<string>, profileEnv: Option<string>): (p: Plan)
    ensures p.Fetch? ==> p.profileIds != [] && token.Some? && token.value != []
    ensures p.Sample? <==> token.None? || token.value == [] || profileEnv.None? || ProfileIds(profileEnv.value) == []
  {
    if token.None? || token.value == [] || profileEnv.None? then Sample
    else if profileEnv.value == [] then NoProfileIdsInEmpty(); Sample
    else
      var ids := ProfileIds(profileEnv.value);
      if ids == [] then Sample else Fetch(ids)
  }

  lemma NoProfileIdsInEmpty()
    ensures ProfileIds([]) == []
  {
    var parts: seq<string> := [[]];
    assert Split([], ',') == parts;
    assert parts[1..] == [] && Strip(parts[0]) == [];
    assert Stripped(parts) == StrippedPart(parts[0]) + Stripped([]);
  }

  /** A PROFILE_IDS of only commas and blanks takes the sample path. */
  lemma BlankProfileIdsSample(token: string, env: string)
    requires forall i :: 0 <= i < |env| ==> env[i] == ',' || IsSpace(env[i])
    ensures PlanOf(Some(token), Some(env)) == Sample
  {
    var parts := SplitOn(env, ',');
    forall i | 0 <= i < |parts| ensures AllSpace(parts[i]) {
      forall k | 0 <= k < |parts[i]| ensures IsSpace(parts[i][k]) {
        assert parts[i][k] in parts[i];
      }
    }
  }
}
