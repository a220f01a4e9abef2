/**
 * health_check.py: a `HealthCheck` object appends one (name, passed,
 * message) result per check to its `checks` list; `run_all_checks` runs the
 * fixed set of checks and reports whether the whole list is free of
 * failures, and `get_summary` counts the list.
 *
 * What the checks look at is a `System` value: the existing files and their
 * sizes in bytes, the result of parsing rss.xml, the environment, and two
 * parameters for what the clock and `strptime` give (the age of a pubDate)
 * and for the `.1f` / `.2f` float renderings in messages.
 */
module HealthCheck {
  import opened Wrappers
  import opened Text
  import opened Seqs

  datatype CheckResult = CheckResult(name: string, passed: bool, message: string)

  /** An `<item>` of the feed, with the text of its `<pubDate>` child if it has one. */
  datatype Item = Item(pubDate: Option<string>)

  /** The `<channel>`: the tags of its children and its `<item>` children. */
  datatype Channel = Channel(children: seq<string>, items: seq<Item>)

  /** What `ET.parse` gives: an I/O error, a parse error, or the root's `<channel>` if any. */
  datatype Feed = Unreadable(error: string) | Malformed(error: string) | Parsed(channel: Option<Channel>)

  /** The age in hours of a pubDate, or the error `strptime` raises on it. */
  datatype Age = Hours(hours: real) | BadDate(error: string)

  datatype System = System(
    files: map<string, nat>,
    rss: Feed,
    env: map<string, string>,
    ageOf: string -> Age,
    show1: real -> string,
    show2: real -> string)

  /**
   * The parts of a `System` that the real environment ties together: parsing
   * rss.xml fails when the file is missing, and a parsed channel has the
   * shape ElementTree gives it.
   */
  predicate Consistent(sys: System) {
    && ("rss.xml" !in sys.files ==> sys.rss.Unreadable?)
    && (sys.rss.Parsed? && sys.rss.channel.Some? ==> ChannelShape(sys.rss.channel.value))
  }

  const Required: seq<string> := ["title", "link", "description"]
  const BytesPerMb: nat := 1024 * 1024

  // ---------------------------------------------------------------------
  // One check each
  // ---------------------------------------------------------------------

  /** `check_file_exists` */
  function FileExistsResult(found: bool, filePath: string, description: string): CheckResult {
    CheckResult("File: " + description, found, if found then filePath else filePath + " not found")
  }

  /** The required channel elements that are absent, in the order title, link, description. */
  function MissingElements(children: seq<string>): (r: seq<string>)
    ensures forall e :: e in r <==> e in Required && e !in children
  {
    Absent(Required, children)
  }

  function Absent(required: seq<string>, children: seq<string>): (r: seq<string>)
    ensures forall e :: e in r <==> e in required && e !in children
  {
    if required == [] then []
    else (if required[0] in children then [] else [required[0]]) + Absent(required[1..], children)
  }

  /** The missing list is title, link and description filtered in that order. */
  lemma MissingElementsOrder(children: seq<string>)
    ensures MissingElements(children) ==
              (if "title" in children then [] else ["title"]) +
              (if "link" in children then [] else ["link"]) +
              (if "description" in children then [] else ["description"])
  {
    var r1, r2, r3 := Required[1..], Required[1..][1..], Required[1..][1..][1..];
    assert r1 == ["link", "description"] && r2 == ["description"] && r3 == [];
    var a3 := Absent(r2, children);
    assert a3 == (if "description" in children then [] else ["description"]) + Absent(r3, children);
    var a2 := Absent(r1, children);
    assert a2 == (if "link" in children then [] else ["link"]) + a3;
    assert MissingElements(children) == (if "title" in children then [] else ["title"]) + a2;
  }

  /** `repr` of a list of plain strings: `['title', 'link']`. */
  function ListRepr(xs: seq<string>): string {
    "[" + JoinWith(Quoted(xs), ", ") + "]"
  }

  function Quoted(xs: seq<string>): (r: seq<string>)
    ensures |r| == |xs|
  {
    if xs == [] then [] else ["'" + xs[0] + "'"] + Quoted(xs[1..])
  }

  /** `check_rss_valid` */
  function RssValidResult(feed: Feed): (r: CheckResult)
    ensures r.name == "RSS Structure"
  {
    match feed
    case Unreadable(e) => CheckResult("RSS Structure", false, "Unexpected error: " + e)
    case Malformed(e) => CheckResult("RSS Structure", false, "XML parse error: " + e)
    case Parsed(None) => CheckResult("RSS Structure", false, "Missing channel element")
    case Parsed(Some(channel)) =>
      var missing := MissingElements(channel.children);
      if missing != [] then CheckResult("RSS Structure", false, "Missing elements: " + ListRepr(missing))
      else CheckResult("RSS Structure", true, "Valid RSS 2.0 feed")
  }

  /** The feed is valid exactly when it parses, has a channel, and the channel has all three required elements. */
  lemma RssValidPassesIff(feed: Feed)
    ensures RssValidResult(feed).passed <==>
              feed.Parsed? && feed.channel.Some? && forall e :: e in Required ==> e in feed.channel.value.children
  {
    if feed.Parsed? && feed.channel.Some? {
      var missing := MissingElements(feed.channel.value.children);
      if missing != [] {
        assert missing[0] in missing;
      }
    }
  }

  /** `channel.findall("item") if channel else []`: a channel without children is falsy. */
  function ItemsOf(feed: Feed): (items: seq<Item>)
    requires feed.Parsed?
    ensures items != [] ==> feed.channel.Some? && items == feed.channel.value.items
  {
    if feed.channel.Some? && feed.channel.value.children != [] then feed.channel.value.items else []
  }

  /** ElementTree lists the `<item>` children among the channel's children. */
  predicate ChannelShape(c: Channel) {
    c.items != [] ==> "item" in c.children
  }

  /** A channel whose items are among its children yields exactly those items. */
  lemma ItemsOfShaped(feed: Feed)
    requires feed.Parsed? && feed.channel.Some? && ChannelShape(feed.channel.value)
    ensures ItemsOf(feed) == feed.channel.value.items
  {
    if feed.channel.value.items != [] {
      assert feed.channel.value.children != [];
    }
  }

  /** `check_recent_post` */
  function RecentPostResult(feed: Feed, maxHours: int, ageOf: string -> Age, show1: real -> string): (r: CheckResult)
    ensures r.name == "Recent Post"
  {
    if !feed.Parsed? then CheckResult("Recent Post", false, "Error checking post date: " + feed.error)
    else
      var items := ItemsOf(feed);
      if items == [] then CheckResult("Recent Post", false, "No items in feed")
      else
        var pubDate := items[0].pubDate;
        if pubDate.None? || pubDate.value == "" then CheckResult("Recent Post", false, "Missing pubDate")
        else
          match ageOf(pubDate.value)
          case BadDate(e) => CheckResult("Recent Post", false, "Error checking post date: " + e)
          case Hours(h) =>
            if h > maxHours as real then
              CheckResult("Recent Post", false, "Last post is " + show1(h) + " hours old (max: " + IntToString(maxHours) + ")")
            else CheckResult("Recent Post", true, "Last post is " + show1(h) + " hours old")
  }

  /**
   * The recent-post check passes exactly when the first item has a non-empty
   * pubDate whose age is at most `maxHours` (an age equal to the limit passes).
   */
  lemma RecentPostPassesIff(feed: Feed, maxHours: int, ageOf: string -> Age, show1: real -> string)
    ensures RecentPostResult(feed, maxHours, ageOf, show1).passed <==>
              && feed.Parsed?
              && ItemsOf(feed) != []
              && ItemsOf(feed)[0].pubDate.Some?
              && ItemsOf(feed)[0].pubDate.value != ""
              && ageOf(ItemsOf(feed)[0].pubDate.value).Hours?
              && ageOf(ItemsOf(feed)[0].pubDate.value).hours <= maxHours as real
  {
  }

  /** `check_file_size`, with the size in bytes if the file exists. */
  function FileSizeResult(size: Option<nat>, filePath: string, maxMb: nat, description: string, show2: real -> string): (r: CheckResult)
    ensures r.name == "File Size: " + description
  {
    var name := "File Size: " + description;
    match size
    case None => CheckResult(name, false, filePath + " not found")
    case Some(bytes) =>
      var sizeMb := bytes as real / BytesPerMb as real;
      if sizeMb > maxMb as real then
        CheckResult(name, false, show2(sizeMb) + "MB exceeds limit of " + NatToString(maxMb) + "MB")
      else CheckResult(name, true, show2(sizeMb) + "MB (limit: " + NatToString(maxMb) + "MB)")
  }

  /** The size check passes exactly when the file exists with at most `maxMb` MiB (equality passes). */
  lemma FileSizePassesIff(size: Option<nat>, filePath: string, maxMb: nat, description: string, show2: real -> string)
    ensures FileSizeResult(size, filePath, maxMb, description, show2).passed <==>
              size.Some? && size.value <= maxMb * BytesPerMb
  {
    if size.Some? {
      var sizeMb := size.value as real / BytesPerMb as real;
      assert sizeMb * BytesPerMb as real == size.value as real;
      if sizeMb > maxMb as real {
        assert size.value as real > (maxMb * BytesPerMb) as real;
      } else {
        assert size.value as real <= (maxMb * BytesPerMb) as real;
      }
    }
  }

  /** `check_env_var`, with the variable's value if it is set. */
  function EnvVarResult(varName: string, value: Option<string>): (r: CheckResult)
    ensures r.passed <==> value.Some? && value.value != ""
    ensures r.name == "Environment: " + varName
  {
    var isSet := value.Some? && value.value != "";
    CheckResult("Environment: " + varName, isSet, if isSet then "Set" else "Not set")
  }

  function Lookup(env: map<string, string>, key: string): Option<string> {
    if key in env then Some(env[key]) else None
  }

  function SizeOf(files: map<string, nat>, path: string): Option<nat> {
    if path in files then Some(files[path]) else None
  }

  /** `os.getenv("CI")` is truthy: set and non-empty. */
  predicate InCi(sys: System) {
    "CI" in sys.env && sys.env["CI"] != ""
  }

  /** The six file-existence results `run_all_checks` appends first. */
  function FileChecks(sys: System): (rs: seq<CheckResult>)
    ensures |rs| == 6
  {
    [ FileExistsResult("rss.xml" in sys.files, "rss.xml", "Main RSS Feed"),
      FileExistsResult("ops/config.json" in sys.files, "ops/config.json", "Configuration"),
      FileExistsResult("ops/rules.json" in sys.files, "ops/rules.json", "Quality Rules"),
      FileExistsResult("ops/bandit.json" in sys.files, "ops/bandit.json", "Style Weights"),
      FileExistsResult("analytics/fingerprints.json" in sys.files, "analytics/fingerprints.json", "Fingerprints"),
      FileExistsResult("content/seeds_topics.txt" in sys.files, "content/seeds_topics.txt", "Topic Seeds") ]
  }

  /** The feed checks (24 hours) and the two size checks (5 and 10 MiB) that follow. */
  function FeedChecks(sys: System): (rs: seq<CheckResult>)
    ensures |rs| == 4
  {
    [ RssValidResult(sys.rss),
      RecentPostResult(sys.rss, 24, sys.ageOf, sys.show1),
      FileSizeResult(SizeOf(sys.files, "analytics/fingerprints.json"), "analytics/fingerprints.json", 5, "Fingerprints", sys.show2),
      FileSizeResult(SizeOf(sys.files, "rss.xml"), "rss.xml", 10, "RSS Feed", sys.show2) ]
  }

  /** Without rss.xml, both the structure and the recent-post check fail. */
  lemma MissingFeedFails(sys: System)
    requires Consistent(sys) && "rss.xml" !in sys.files
    ensures !FeedChecks(sys)[0].passed && !FeedChecks(sys)[1].passed
  {
  }

  /** The variable whose presence is checked in CI. */
  const ApiKeyVar := "OPENAI_API_KEY"

  /** The API-key check, present only in CI. */
  function EnvChecks(sys: System): (rs: seq<CheckResult>)
    ensures |rs| == if InCi(sys) then 1 else 0
    ensures InCi(sys) ==> rs[0].name == "Environment: " + ApiKeyVar
  {
    if InCi(sys) then [EnvVarResult(ApiKeyVar, Lookup(sys.env, ApiKeyVar))] else []
  }

  /** The results `run_all_checks` appends, in order. */
  function AllResults(sys: System): (rs: seq<CheckResult>)
    ensures |rs| == if InCi(sys) then 11 else 10
    ensures InCi(sys) ==> rs[10].name == "Environment: " + ApiKeyVar
  {
    FileChecks(sys) + FeedChecks(sys) + EnvChecks(sys)
  }


  // ---------------------------------------------------------------------
  // Counting
  // ---------------------------------------------------------------------

  function CountPassed(checks: seq<CheckResult>): (n: nat)
    ensures n <= |checks|
  {
    if checks == [] then 0
    else CountPassed(checks[..|checks| - 1]) + (if checks[|checks| - 1].passed then 1 else 0)
  }

  predicate AllPassed(checks: seq<CheckResult>) {
    forall i :: 0 <= i < |checks| ==> checks[i].passed
  }

  /** Every entry passed exactly when the passes number as many as the entries. */
  lemma {:induction false} CountPassedAll(checks: seq<CheckResult>)
    ensures CountPassed(checks) == |checks| <==> AllPassed(checks)
  {
    if checks != [] {
      var init := checks[..|checks| - 1];
      CountPassedAll(init);
      if AllPassed(checks) {
        assert AllPassed(init) by {
          forall i | 0 <= i < |init| ensures init[i].passed { assert init[i] == checks[i]; }
        }
      } else if AllPassed(init) {
        assert !checks[|checks| - 1].passed by {
          forall i | 0 <= i < |init| ensures checks[i].passed { assert init[i] == checks[i]; }
        }
      }
    }
  }

  /** `sum(1 for _, result, _ in checks if result)` */
  method Passed(checks: seq<CheckResult>) returns (passed: nat)
    ensures passed == CountPassed(checks)
  {
    passed := 0;
    for i := 0 to |checks|
      invariant passed == CountPassed(checks[..i])
    {
      assert checks[..i + 1][..i] == checks[..i];
      if checks[i].passed {
        passed := passed + 1;
      }
    }
    assert checks[..|checks|] == checks;
  }

  datatype Summary = Summary(total: nat, passed: nat, failed: int, successRate: real)

  /** `get_summary` over a results list. */
  function SummaryOf(checks: seq<CheckResult>): Summary {
    var total := |checks|;
    var passed := CountPassed(checks);
    Summary(total, passed, total - passed, if total > 0 then passed as real / total as real * 100.0 else 0.0)
  }

  /**
   * The counts add up, the rate is a percentage, an empty list has rate 0,
   * and a non-empty list has rate 100 exactly when nothing failed.
   */
  lemma SummaryFacts(checks: seq<CheckResult>)
    ensures SummaryOf(checks).passed + SummaryOf(checks).failed == SummaryOf(checks).total == |checks|
    ensures SummaryOf(checks).failed >= 0
    ensures 0.0 <= SummaryOf(checks).successRate <= 100.0
    ensures |checks| == 0 ==> SummaryOf(checks).successRate == 0.0
    ensures |checks| > 0 ==> (SummaryOf(checks).successRate == 100.0 <==> AllPassed(checks))
  {
    CountPassedAll(checks);
    if |checks| > 0 {
      Percentage(CountPassed(checks), |checks|);
    }
  }

  /** A share of a positive whole, as a percentage, lies in [0, 100] and is 100 only for the whole. */
  lemma Percentage(part: nat, whole: nat)
    requires 0 < whole && part <= whole
    ensures 0.0 <= part as real / whole as real * 100.0 <= 100.0
    ensures part as real / whole as real * 100.0 == 100.0 <==> part == whole
  {
    var q := part as real / whole as real;
    assert q * whole as real == part as real;
    assert q <= 1.0;
    if q * 100.0 == 100.0 {
      assert q == 1.0;
    }
  }

  // ---------------------------------------------------------------------
  // The accumulator
  // ---------------------------------------------------------------------

  class HealthCheck {
    var checks: seq<CheckResult>

    constructor()
      ensures checks == []
    {
      checks := [];
    }

    /** `add_result`: one more entry at the end; the earlier ones stay. */
    method AddResult(name: string, passed: bool, message: string)
      modifies this
      ensures checks == old(checks) + [CheckResult(name, passed, message)]
    {
      checks := checks + [CheckResult(name, passed, message)];
    }

    /** Records `r` and returns whether it passed, as every `check_*` does. */
    method Record(r: CheckResult) returns (passed: bool)
      modifies this
      ensures passed == r.passed
      ensures checks == old(checks) + [r]
    {
      AddResult(r.name, r.passed, r.message);
      return r.passed;
    }

    method CheckFileExists(sys: System, filePath: string, description: string) returns (found: bool)
      modifies this
      ensures found <==> filePath in sys.files
      ensures checks == old(checks) + [FileExistsResult(filePath in sys.files, filePath, description)]
    {
      found := Record(FileExistsResult(filePath in sys.files, filePath, description));
    }

    method CheckRssValid(sys: System) returns (valid: bool)
      modifies this
      ensures valid == RssValidResult(sys.rss).passed
      ensures checks == old(checks) + [RssValidResult(sys.rss)]
    {
      valid := Record(RssValidResult(sys.rss));
    }

    method CheckRecentPost(sys: System, maxHours: int) returns (recent: bool)
      modifies this
      ensures recent == RecentPostResult(sys.rss, maxHours, sys.ageOf, sys.show1).passed
      ensures checks == old(checks) + [RecentPostResult(sys.rss, maxHours, sys.ageOf, sys.show1)]
    {
      recent := Record(RecentPostResult(sys.rss, maxHours, sys.ageOf, sys.show1));
    }

    method CheckFileSize(sys: System, filePath: string, maxMb: nat, description: string) returns (small: bool)
      modifies this
      ensures small <==> filePath in sys.files && sys.files[filePath] <= maxMb * BytesPerMb
      ensures checks == old(checks) + [FileSizeResult(SizeOf(sys.files, filePath), filePath, maxMb, description, sys.show2)]
    {
      var r := FileSizeResult(SizeOf(sys.files, filePath), filePath, maxMb, description, sys.show2);
      FileSizePassesIff(SizeOf(sys.files, filePath), filePath, maxMb, description, sys.show2);
      small := Record(r);
    }

    method CheckEnvVar(sys: System, varName: string) returns (isSet: bool)
      modifies this
      ensures isSet <==> varName in sys.env && sys.env[varName] != ""
      ensures checks == old(checks) + [EnvVarResult(varName, Lookup(sys.env, varName))]
    {
      isSet := Record(EnvVarResult(varName, Lookup(sys.env, varName)));
    }

    method RunFileChecks(sys: System)
      modifies this
      ensures checks == old(checks) + FileChecks(sys)
    {
      ghost var before, expected := checks, FileChecks(sys);
      var _ := CheckFileExists(sys, "rss.xml", "Main RSS Feed");
      var _ := CheckFileExists(sys, "ops/config.json", "Configuration");
      var _ := CheckFileExists(sys, "ops/rules.json", "Quality Rules");
      var _ := CheckFileExists(sys, "ops/bandit.json", "Style Weights");
      var _ := CheckFileExists(sys, "analytics/fingerprints.json", "Fingerprints");
      var _ := CheckFileExists(sys, "content/seeds_topics.txt", "Topic Seeds");
      AppendSix(before, expected);
    }

    method RunFeedChecks(sys: System)
      modifies this
      ensures checks == old(checks) + FeedChecks(sys)
    {
      var _ := CheckRssValid(sys);
      var _ := CheckRecentPost(sys, 24);
      var _ := CheckFileSize(sys, "analytics/fingerprints.json", 5, "Fingerprints");
      var _ := CheckFileSize(sys, "rss.xml", 10, "RSS Feed");
    }

    /** `run_all_checks`: true exactly when no entry of the whole list is a failure. */
    method RunAllChecks(sys: System) returns (ok: bool)
      modifies this
      ensures checks == old(checks) + AllResults(sys)
      ensures ok <==> AllPassed(checks)
    {
      RunFileChecks(sys);
      RunFeedChecks(sys);
      ghost var sofar := checks;
      if "CI" in sys.env && sys.env["CI"] != "" {
        var _ := CheckEnvVar(sys, ApiKeyVar);
      }
      assert checks == sofar + EnvChecks(sys);
      Regroup(old(checks), FileChecks(sys), FeedChecks(sys), EnvChecks(sys));
      var total := |checks|;
      var passed := Passed(checks);
      CountPassedAll(checks);
      var failed := total - passed;
      ok := failed == 0;
    }

    /** `get_summary` */
    function GetSummary(): (s: Summary)
      reads this
      ensures s.passed + s.failed == s.total == |checks|
      ensures s.failed == 0 <==> AllPassed(checks)
    {
      CountPassedAll(checks);
      SummaryOf(checks)
    }
  }
}
