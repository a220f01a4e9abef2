/**
 * Post shaping in build_rss.py: the weighted style rotation, emoji counting
 * and padding, X-line sanitising, slugs, the 230-character cap and the layout
 * of the longer description. The model output arrives as a `Payload` value;
 * the clock, the random generator and the marker regex are parameters.
 */
module BuildRss {
  import opened Text
  import opened Seqs

  // ---------------------------------------------------------------------
  // Style rotation
  // ---------------------------------------------------------------------

  datatype StyleKey =
    | TemplateDrop | MythVsFact | MistakeFix | Checklist | DataBite
    | Challenge | HotTake | Caselet | HookLab | SwipeHeadlines

  /** The catalog, in the order the pool is built. */
  const Catalog: seq<StyleKey> :=
    [TemplateDrop, MythVsFact, MistakeFix, Checklist, DataBite,
     Challenge, HotTake, Caselet, HookLab, SwipeHeadlines]

  function KeyName(k: StyleKey): string {
    match k
    case TemplateDrop => "template_drop"
    case MythVsFact => "myth_vs_fact"
    case MistakeFix => "mistake_fix"
    case Checklist => "checklist"
    case DataBite => "data_bite"
    case Challenge => "challenge"
    case HotTake => "hot_take"
    case Caselet => "caselet"
    case HookLab => "hook_lab"
    case SwipeHeadlines => "swipe_headlines"
  }

  function Desc(k: StyleKey): string {
    match k
    case TemplateDrop => "Share a fill-in-the-blank template + 1 tiny example."
    case MythVsFact => "Debunk 1 myth and replace with 1 fact + a quick how-to."
    case MistakeFix => "Name 1 common mistake and show the concise fix."
    case Checklist => "Give a tight 4-item checklist for a narrow task."
    case DataBite => "One stat/number, why it matters, and what to do."
    case Challenge => "Issue a 24\U{2013}48h micro-challenge with clear steps."
    case HotTake => "A contrarian but respectful take with 1 actionable tip."
    case Caselet => "A 1-sentence mini-case: role \U{2192} action \U{2192} result."
    case HookLab => "Provide 3 alternative hooks for the same idea."
    case SwipeHeadlines => "Provide 3 headline angles anyone can reuse."
  }

  /** Position of a style in the catalog. */
  function Rank(k: StyleKey): nat {
    match k
    case TemplateDrop => 0 case MythVsFact => 1 case MistakeFix => 2 case Checklist => 3
    case DataBite => 4 case Challenge => 5 case HotTake => 6 case Caselet => 7
    case HookLab => 8 case SwipeHeadlines => 9
  }

  lemma CatalogRank()
    ensures |Catalog| == 10
    ensures forall i :: 0 <= i < 10 ==> Rank(Catalog[i]) == i
    ensures forall k :: Rank(k) < 10 && Catalog[Rank(k)] == k
  {
  }

  datatype Slot = AM | PM

  /** The Phoenix-time slot: morning before noon. */
  function SlotOf(hour: nat): (s: Slot)
    requires hour < 24
    ensures s == AM <==> hour < 12
  {
    if hour < 12 then AM else PM
  }

  /** `bias.get(key, 0)` for the slot's bias table. */
  function Bias(slot: Slot, k: StyleKey): nat {
    match slot
    case AM => (match k case Checklist => 2 case TemplateDrop => 2 case DataBite => 1 case Caselet => 1 case _ => 0)
    case PM => (match k case HotTake => 2 case Challenge => 2 case MythVsFact => 1
                        case SwipeHeadlines => 1 case HookLab => 1 case _ => 0)
  }

  function Repeat<T>(x: T, n: nat): (r: seq<T>)
    ensures |r| == n
    ensures multiset(r) == multiset{}[x := n]
  {
    if n == 0 then [] else [x] + Repeat(x, n - 1)
  }

  lemma PoolStep(weighted: seq<StyleKey>, slot: Slot, i: nat)
    requires i < |Catalog|
    requires forall k :: multiset(weighted)[k] == if Rank(k) < i then 1 + Bias(slot, k) else 0
    ensures forall k :: multiset(weighted + Repeat(Catalog[i], 1 + Bias(slot, Catalog[i])))[k] ==
                        if Rank(k) < i + 1 then 1 + Bias(slot, k) else 0
  {
    CatalogRank();
    var key := Catalog[i];
    var more := Repeat(key, 1 + Bias(slot, key));
    forall k ensures multiset(weighted + more)[k] == if Rank(k) < i + 1 then 1 + Bias(slot, k) else 0 {
      assert multiset(weighted + more) == multiset(weighted) + multiset(more);
      if Rank(k) == i {
        assert k == key;
      }
    }
  }

  /** Total weight of the first `i` catalog entries. */
  function PoolSize(i: nat, slot: Slot): nat
    requires i <= |Catalog|
  {
    if i == 0 then 0 else PoolSize(i - 1, slot) + 1 + Bias(slot, Catalog[i - 1])
  }

  /** The weighted pool of `choose_style`: each style repeated 1 + bias times. */
  method WeightedPool(slot: Slot) returns (weighted: seq<StyleKey>)
    ensures forall k :: multiset(weighted)[k] == 1 + Bias(slot, k)
    ensures |weighted| == if slot == AM then 16 else 17
  {
    CatalogRank();
    weighted := [];
    for i := 0 to |Catalog|
      invariant forall k :: multiset(weighted)[k] == if Rank(k) < i then 1 + Bias(slot, k) else 0
      invariant |weighted| == PoolSize(i, slot)
    {
      var key := Catalog[i];
      var w := 1 + Bias(slot, key);
      PoolStep(weighted, slot, i);
      weighted := weighted + Repeat(key, w);
    }
    PoolSizes();
  }

  lemma PoolSizes()
    ensures PoolSize(10, AM) == 16 && PoolSize(10, PM) == 17
  {
    PoolSizesFirstHalf();
    assert Catalog[5] == Challenge && Catalog[6] == HotTake && Catalog[7] == Caselet;
    assert Catalog[8] == HookLab && Catalog[9] == SwipeHeadlines;
    assert PoolSize(7, AM) == 12 && PoolSize(7, PM) == 12;
  }

  lemma PoolSizesFirstHalf()
    ensures PoolSize(5, AM) == 10 && PoolSize(5, PM) == 6
  {
    assert Catalog[0] == TemplateDrop && Catalog[1] == MythVsFact && Catalog[2] == MistakeFix;
    assert Catalog[3] == Checklist && Catalog[4] == DataBite;
    assert PoolSize(2, AM) == 4 && PoolSize(2, PM) == 3;
  }

  /** `random.choice(weighted)` with the seeded pick given as an index. */
  method ChooseStyle(slot: Slot, pick: nat) returns (key: string, desc: string)
    requires pick < if slot == AM then 16 else 17
    ensures exists k :: key == KeyName(k) && desc == Desc(k)
  {
    var weighted := WeightedPool(slot);
    var k := weighted[pick];
    key, desc := KeyName(k), Desc(k);
  }

  // ---------------------------------------------------------------------
  // Emoji counting and padding
  // ---------------------------------------------------------------------

  /** The membership tuple of `has_emoji`; two entries are two code points long. */
  const EmojiTuple: seq<string> :=
    ["\U{270D}\U{FE0F}", "\U{2705}", "\U{26A1}", "\U{1F3AF}", "\U{1F525}", "\U{1F31F}",
     "\U{1F4C8}", "\U{1F4BC}", "\U{1F9E0}", "\U{1F4CC}", "\U{1F91D}", "\U{23F1}\U{FE0F}"]

  const EmojiPalette: seq<string> :=
    ["\U{2705}", "\U{1F4AC}", "\U{1F4CC}", "\U{270D}\U{FE0F}", "\U{1F680}", "\U{1F9E0}",
     "\U{1F4BC}", "\U{23F1}\U{FE0F}", "\U{1F4C8}", "\U{1F91D}", "\U{1F50E}", "\U{1F4E3}",
     "\U{1F5C2}\U{FE0F}", "\U{1F9E9}", "\U{1F3AF}", "\U{26A1}", "\U{1F525}", "\U{1F31F}"]

  predicate EmojiLike(c: char) {
    c as int >= 0x1F300 || [c] in EmojiTuple
  }

  /** Only U+2705 and U+26A1 add anything beyond the code-point bound. */
  lemma EmojiLikeExactly(c: char)
    ensures EmojiLike(c) <==> c as int >= 0x1F300 || c == '\U{2705}' || c == '\U{26A1}'
  {
    if [c] in EmojiTuple {
      var i :| 0 <= i < |EmojiTuple| && EmojiTuple[i] == [c];
      assert i != 0 && i != 11;
    }
  }

  /** `has_emoji`: the number of emoji-like characters. */
  function HasEmoji(s: string): (n: nat)
    ensures n <= |s|
  {
    if s == [] then 0 else (if EmojiLike(s[0]) then 1 else 0) + HasEmoji(s[1..])
  }

  lemma {:induction false} HasEmojiAppend(a: string, b: string)
    ensures HasEmoji(a + b) == HasEmoji(a) + HasEmoji(b)
  {
    if a == [] {
      assert a + b == b;
    } else {
      assert (a + b)[1..] == a[1..] + b;
      HasEmojiAppend(a[1..], b);
    }
  }

  /**
   * `add_minimum_emojis` after `random.shuffle(EMOJI_PALETTE)`: only the two
   * entries the shuffle puts first matter, given as the distinct palette
   * positions `first` and `second`. A line short of `needMin` gets the first
   * in front, and the second behind when two or more are missing.
   */
  function AddMinimumEmojis(line: string, first: nat, second: nat, needMin: int): (r: string)
    requires first < |EmojiPalette| && second < |EmojiPalette| && first != second
    ensures HasEmoji(line) >= needMin ==> r == line
    ensures HasEmoji(line) < needMin ==> StartsWith(r, EmojiPalette[first] + " ")
    ensures HasEmoji(line) < needMin ==>
              |r| == |EmojiPalette[first]| + 1 + |line| + (if needMin - HasEmoji(line) == 1 then 0 else 1 + |EmojiPalette[second]|)
    ensures HasEmoji(line) < needMin ==> r[|EmojiPalette[first]| + 1..|EmojiPalette[first]| + 1 + |line|] == line
    ensures needMin - HasEmoji(line) >= 2 ==> EndsWith(r, " " + EmojiPalette[second])
  {
    PadEmojis(line, EmojiPalette[first], EmojiPalette[second], needMin - HasEmoji(line))
  }

  /** `line` with `p0` in front when anything is missing, and `p1` behind when two or more are. */
  function PadEmojis(line: string, p0: string, p1: string, needed: int): (r: string)
    ensures needed <= 0 ==> r == line
    ensures needed > 0 ==> StartsWith(r, p0 + " ")
    ensures needed > 0 ==> |r| == |p0| + 1 + |line| + (if needed == 1 then 0 else 1 + |p1|)
    ensures needed > 0 ==> r[|p0| + 1..|p0| + 1 + |line|] == line
    ensures needed >= 2 ==> EndsWith(r, " " + p1)
  {
    if needed <= 0 then line
    else
      var front := p0 + " " + line;
      assert front[|p0| + 1..|p0| + 1 + |line|] == line;
      if needed == 1 then
        assert front[..|p0 + " "|] == p0 + " ";
        front
      else
        var r := front + " " + p1;
        assert r[..|p0 + " "|] == p0 + " ";
        assert r[|p0| + 1..|p0| + 1 + |line|] == line;
        assert r[|r| - |" " + p1|..] == " " + p1;
        r
  }

  lemma PaddedCount(p0: string, line: string, p1: string)
    ensures HasEmoji(p0 + " " + line) == HasEmoji(p0) + HasEmoji(line)
    ensures HasEmoji(p0 + " " + line + " " + p1) == HasEmoji(p0) + HasEmoji(line) + HasEmoji(p1)
  {
    assert HasEmoji(" ") == 0;
    HasEmojiAppend(p0, " ");
    HasEmojiAppend(p0 + " ", line);
    HasEmojiAppend(p0 + " " + line, " ");
    HasEmojiAppend(p0 + " " + line + " ", p1);
  }

  /**
   * When both emojis it may add are counted, padding reaches the minimum as
   * long as at most two are missing.
   */
  lemma AddMinimumEmojisReaches(line: string, first: nat, second: nat, needMin: int)
    requires first < |EmojiPalette| && second < |EmojiPalette| && first != second
    requires HasEmoji(EmojiPalette[first]) >= 1 && HasEmoji(EmojiPalette[second]) >= 1
    requires needMin - HasEmoji(line) <= 2
    ensures HasEmoji(AddMinimumEmojis(line, first, second, needMin)) >= needMin
  {
    PaddedCount(EmojiPalette[first], line, EmojiPalette[second]);
  }

  /**
   * The two-code-point palette entries are never counted, so a shuffle that
   * puts them first leaves an emoji-free line with no counted emoji at all.
   */
  lemma AddMinimumEmojisCanMiss(line: string)
    requires HasEmoji(line) == 0
    ensures EmojiPalette[3] == "\U{270D}\U{FE0F}" && EmojiPalette[7] == "\U{23F1}\U{FE0F}"
    ensures HasEmoji(AddMinimumEmojis(line, 3, 7, 2)) == 0
  {
    var p0, p1 := EmojiPalette[3], EmojiPalette[7];
    EmojiLikeExactly(p0[0]);
    EmojiLikeExactly(p0[1]);
    EmojiLikeExactly(p1[0]);
    EmojiLikeExactly(p1[1]);
    assert HasEmoji(p0[1..]) == 0;
    assert HasEmoji(p1[1..]) == 0;
    PaddedCount(p0, line, p1);
  }

  // ---------------------------------------------------------------------
  // X-line sanitising
  // ---------------------------------------------------------------------

  /** `[A-Za-z0-9_]` */
  predicate IsTagChar(c: char) {
    'A' <= c <= 'Z' || 'a' <= c <= 'z' || '0' <= c <= '9' || c == '_'
  }

  function TagRunLen(s: string): (n: nat)
    ensures n <= |s|
    ensures n == |s| || !IsTagChar(s[n])
  {
    if s == [] || !IsTagChar(s[0]) then 0 else 1 + TagRunLen(s[1..])
  }

  /** Does `#[A-Za-z0-9_]+` match at the front of `s`? */
  predicate HashtagAt(s: string) {
    |s| >= 2 && s[0] == '#' && IsTagChar(s[1])
  }

  /** `re.sub(r"#[A-Za-z0-9_]+", "", s)` */
  function RemoveHashtags(s: string): (r: string)
    ensures |r| <= |s|
    ensures r == [] || (s != [] && (!IsTagChar(s[0]) ==> !IsTagChar(r[0])))
  {
    if s == [] then []
    else if HashtagAt(s) then RemoveHashtags(s[1 + TagRunLen(s[1..])..])
    else [s[0]] + RemoveHashtags(s[1..])
  }

  /** No `#` directly followed by a letter, digit or underscore. */
  predicate NoHashtag(s: string) {
    forall i :: 0 <= i < |s| - 1 ==> !(s[i] == '#' && IsTagChar(s[i + 1]))
  }

  lemma {:induction false} RemoveHashtagsComplete(s: string)
    ensures NoHashtag(RemoveHashtags(s))
  {
    if s != [] {
      if HashtagAt(s) {
        RemoveHashtagsComplete(s[1 + TagRunLen(s[1..])..]);
      } else {
        RemoveHashtagsComplete(s[1..]);
        var t := RemoveHashtags(s[1..]);
        var r := [s[0]] + t;
        forall k | 0 <= k < |r| - 1 ensures !(r[k] == '#' && IsTagChar(r[k + 1])) {
          if k > 0 { assert r[k] == t[k - 1] && r[k + 1] == t[k]; }
          else if s[0] == '#' { assert s[1..] == [] || !IsTagChar(s[1..][0]); }
        }
      }
    }
  }

  lemma InfixNoHashtag(r: string, s: string)
    requires IsInfix(r, s) && NoHashtag(s)
    ensures NoHashtag(r)
  {
    var i, j :| 0 <= i <= j <= |s| && r == s[i..j];
    forall k | 0 <= k < |r| - 1 ensures !(r[k] == '#' && IsTagChar(r[k + 1])) {
      assert r[k] == s[i + k] && r[k + 1] == s[i + k + 1];
    }
  }

  /** Length of the `https?://\S+` match at the front of `s`, or 0. */
  function UrlLen(s: string): (n: nat)
    ensures n <= |s|
  {
    if StartsWith(s, "https://") && |s| > 8 && !IsSpace(s[8]) then 8 + WordLen(s[8..])
    else if StartsWith(s, "http://") && |s| > 7 && !IsSpace(s[7]) then 7 + WordLen(s[7..])
    else 0
  }

  /** `re.sub(r"https?://\S+", "", s)` */
  function RemoveUrls(s: string): (r: string)
    ensures |r| <= |s|
  {
    if s == [] then []
    else if UrlLen(s) > 0 then RemoveUrls(s[UrlLen(s)..])
    else [s[0]] + RemoveUrls(s[1..])
  }

  /**
   * `sanitize_xline`: markers out, runs of two or more whitespace characters
   * collapsed, then URLs and then hashtags removed, stripping after each pass.
   * The marker regex is the parameter `removeMarkers`.
   */
  function SanitizeXLine(s: string, removeMarkers: string -> string): (r: string)
    ensures NoOuterSpace(r)
    ensures NoHashtag(r)
    ensures |r| <= |removeMarkers(s)|
  {
    var s1 := Strip(SubSpaceRuns(removeMarkers(s), 2));
    var s2 := Strip(RemoveUrls(s1));
    var s3 := RemoveHashtags(s2);
    RemoveHashtagsComplete(s2);
    StripIsInfix(s3);
    InfixNoHashtag(Strip(s3), s3);
    assert |SubSpaceRuns(removeMarkers(s), 2)| <= |removeMarkers(s)| by {
      SubSpaceRunsShorter(removeMarkers(s), 2);
    }
    Strip(s3)
  }

  lemma {:induction false} SubSpaceRunsShorter(s: string, m: nat)
    requires m >= 1
    ensures |SubSpaceRuns(s, m)| <= |s|
  {
    if s != [] {
      if IsSpace(s[0]) {
        SubSpaceRunsShorter(s[SpaceLen(s)..], m);
      } else {
        SubSpaceRunsShorter(s[1..], m);
      }
    }
  }

  lemma {:induction false} RemoveHashtagsSkip(a: string, b: string)
    requires '#' !in a
    ensures RemoveHashtags(a + b) == a + RemoveHashtags(b)
  {
    if a == [] {
      assert a + b == b;
    } else {
      assert (a + b)[0] == a[0] && (a + b)[1..] == a[1..] + b;
      RemoveHashtagsSkip(a[1..], b);
    }
  }

  lemma UrlLenNoH(s: string)
    requires s != [] && s[0] != 'h'
    ensures UrlLen(s) == 0
  {
    assert "https://"[0] == 'h' && "http://"[0] == 'h';
  }

  /** Every URL starts with 'h': a text without one passes the URL pass unchanged. */
  lemma {:induction false} RemoveUrlsNoH(s: string)
    requires forall k :: 0 <= k < |s| ==> s[k] != 'h'
    ensures RemoveUrls(s) == s
  {
    if s != [] {
      UrlLenNoH(s);
      assert forall k :: 0 <= k < |s[1..]| ==> s[1..][k] == s[k + 1];
      RemoveUrlsNoH(s[1..]);
      assert [s[0]] + s[1..] == s;
    }
  }

  /** A text with no dialogue marker in it: the marker pass leaves it alone. */
  function NoMarkers(s: string): string {
    s
  }

  /** The passes of `SanitizeXLine`, one after the other. */
  lemma SanitizeSteps(s: string, removeMarkers: string -> string)
    ensures SanitizeXLine(s, removeMarkers)
         == Strip(RemoveHashtags(Strip(RemoveUrls(Strip(SubSpaceRuns(removeMarkers(s), 2))))))
  {
  }

  /** A string with no whitespace run of two and no outer whitespace passes the first two steps unchanged. */
  lemma CollapseStripUnchanged(s: string)
    requires NoDoubleSpace(s) && NoOuterSpace(s)
    ensures Strip(SubSpaceRuns(s, 2)) == s
  {
    SubSpaceRunsSingles(s);
    StripUnchanged(s);
  }

  lemma UrlPassKeeps()
    ensures RemoveUrls("https:/#a/x") == "https:/#a/x"
  {
    var s := "https:/#a/x";
    assert s[7] == '#' && s[4] == 's';
    assert !StartsWith(s, "https://") && !StartsWith(s, "http://");
    assert UrlLen(s) == 0;
    RemoveUrlsNoH(s[1..]);
    assert s == [s[0]] + s[1..];
  }

  /** A one-character hashtag goes, and the text after it stays. */
  lemma RemoveOneCharTag(c: char, rest: string)
    requires IsTagChar(c) && (rest == [] || !IsTagChar(rest[0]))
    ensures RemoveHashtags(['#', c] + rest) == RemoveHashtags(rest)
  {
    var t := ['#', c] + rest;
    assert HashtagAt(t);
    assert t[1..] == [c] + rest && ([c] + rest)[1..] == rest;
    assert TagRunLen(t[1..]) == 1;
    assert t[2..] == rest;
  }

  /** A text with no '#' passes the hashtag pass unchanged. */
  lemma RemoveHashtagsNone(a: string)
    requires '#' !in a
    ensures RemoveHashtags(a) == a
  {
    RemoveHashtagsSkip(a, []);
    assert a + [] == a;
  }

  lemma HashtagPassJoins()
    ensures RemoveHashtags("https:/#a/x") == "https://x"
  {
    assert "https:/#a/x" == "https:/" + (['#', 'a'] + "/x");
    RemoveHashtagsSkip("https:/", ['#', 'a'] + "/x");
    RemoveOneCharTag('a', "/x");
    RemoveHashtagsNone("/x");
  }

  lemma UrlInputShape()
    ensures NoDoubleSpace("https:/#a/x") && NoOuterSpace("https:/#a/x")
    ensures NoOuterSpace("https://x")
  {
    var s := "https:/#a/x";
    forall k | 0 <= k < |s| ensures !IsSpace(s[k]) {
    }
  }

  /** The hashtag pass can glue a URL back together: no "no URL" guarantee. */
  lemma SanitizeCanLeaveUrl()
    ensures SanitizeXLine("https:/#a/x", NoMarkers) == "https://x"
  {
    var s := "https:/#a/x";
    SanitizeSteps(s, NoMarkers);
    UrlInputShape();
    CollapseStripUnchanged(s);
    UrlPassKeeps();
    StripUnchanged(s);
    HashtagPassJoins();
    StripUnchanged("https://x");
  }

  lemma DoubleSpacePasses()
    ensures RemoveUrls("a #x b") == "a #x b"
    ensures RemoveHashtags("a #x b") == "a  b"
  {
    RemoveUrlsNoH("a #x b");
    assert "a #x b" == "a " + (['#', 'x'] + " b");
    RemoveHashtagsSkip("a ", ['#', 'x'] + " b");
    RemoveOneCharTag('x', " b");
    RemoveHashtagsNone(" b");
  }

  lemma SpaceInputShape()
    ensures NoDoubleSpace("a #x b") && NoOuterSpace("a #x b")
    ensures NoOuterSpace("a  b")
  {
    var s := "a #x b";
    assert !IsSpace(s[0]) && !IsSpace(s[2]) && !IsSpace(s[3]) && !IsSpace(s[5]);
  }

  /** Whitespace is collapsed before hashtags go, so a removed tag leaves two spaces. */
  lemma SanitizeCanLeaveDoubleSpace()
    ensures SanitizeXLine("a #x b", NoMarkers) == "a  b"
  {
    var s := "a #x b";
    SanitizeSteps(s, NoMarkers);
    SpaceInputShape();
    CollapseStripUnchanged(s);
    DoubleSpacePasses();
    StripUnchanged(s);
    StripUnchanged("a  b");
  }

  // ---------------------------------------------------------------------
  // Slugs
  // ---------------------------------------------------------------------

  /** Characters `[^\w\s-]` does not remove. */
  predicate SlugKeep(c: char) {
    IsTagChar(c) || IsSpace(c) || c == '-'
  }

  /** `re.sub(r"[^\w\s-]", "", s)` */
  function KeepSlugChars(s: string): (r: string)
    ensures forall i :: 0 <= i < |r| ==> SlugKeep(r[i])
  {
    if s == [] then [] else (if SlugKeep(s[0]) then [s[0]] else []) + KeepSlugChars(s[1..])
  }

  /** The pass is a filter: it distributes over concatenation... */
  lemma {:induction false} KeepSlugCharsAppend(a: string, b: string)
    ensures KeepSlugChars(a + b) == KeepSlugChars(a) + KeepSlugChars(b)
  {
    if a == [] {
      assert a + b == b;
    } else {
      var ab := a + b;
      assert ab[0] == a[0] && ab[1..] == a[1..] + b;
      var h := if SlugKeep(a[0]) then [a[0]] else [];
      assert KeepSlugChars(ab) == h + KeepSlugChars(a[1..] + b);
      KeepSlugCharsAppend(a[1..], b);
      assert KeepSlugChars(a) == h + KeepSlugChars(a[1..]);
    }
  }

  /** ...and keeps exactly the word characters, whitespace and '-'. */
  lemma KeepSlugCharsOne(c: char)
    ensures KeepSlugChars([c]) == if SlugKeep(c) then [c] else []
  {
    assert [c][1..] == [];
  }

  /** `[\s_-]` */
  predicate IsDashSep(c: char) {
    IsSpace(c) || c == '_' || c == '-'
  }

  function SepLen(s: string): (n: nat)
    ensures n <= |s|
    ensures n == |s| || !IsDashSep(s[n])
  {
    if s == [] || !IsDashSep(s[0]) then 0 else 1 + SepLen(s[1..])
  }

  /** `re.sub(r"[\s_-]+", "-", s)` */
  function DashRuns(s: string): (r: string)
    ensures forall i :: 0 <= i < |r| - 1 ==> !(r[i] == '-' && r[i + 1] == '-')
    ensures (s == [] || !IsDashSep(s[0])) ==> (r == [] || r[0] != '-')
  {
    if s == [] then []
    else if IsDashSep(s[0]) then
      var t := DashRuns(s[SepLen(s)..]);
      var r := "-" + t;
      assert forall i :: 0 < i < |r| ==> r[i] == t[i - 1];
      r
    else
      var t := DashRuns(s[1..]);
      var r := [s[0]] + t;
      assert forall i :: 0 < i < |r| ==> r[i] == t[i - 1];
      r
  }

  /** Every character the dash pass emits is a dash or an input character that is not a separator. */
  lemma {:induction false} DashRunsKeeps(s: string, p: char -> bool)
    requires forall k :: 0 <= k < |s| ==> p(s[k])
    ensures forall i :: 0 <= i < |DashRuns(s)| ==> DashRuns(s)[i] == '-' || (!IsDashSep(DashRuns(s)[i]) && p(DashRuns(s)[i]))
  {
    if s != [] {
      var rest := if IsDashSep(s[0]) then s[SepLen(s)..] else s[1..];
      assert forall k :: 0 <= k < |rest| ==> rest[k] == s[k + |s| - |rest|];
      DashRunsKeeps(rest, p);
      var t := DashRuns(rest);
      assert forall i :: 0 < i < |DashRuns(s)| ==> DashRuns(s)[i] == t[i - 1];
    }
  }

  /** Each separator written as a dash, before adjacent dashes are merged. */
  function SepsToDashes(s: string): (t: string)
    ensures |t| == |s|
    ensures forall i :: 0 <= i < |s| ==> t[i] == if IsDashSep(s[i]) then '-' else s[i]
  {
    seq(|s|, i requires 0 <= i < |s| => if IsDashSep(s[i]) then '-' else s[i])
  }

  /** Merges every run of dashes into one dash; other characters are kept. */
  function MergeDashes(t: string): (r: string)
  {
    if |t| <= 1 then t
    else if t[0] == '-' && t[1] == '-' then MergeDashes(t[1..])
    else [t[0]] + MergeDashes(t[1..])
  }

  /** A run of `n` dashes followed by a non-dash merges to one dash. */
  lemma {:induction false} MergeLeadingDashes(t: string, n: nat)
    requires 1 <= n <= |t|
    requires forall i :: 0 <= i < n ==> t[i] == '-'
    requires n == |t| || t[n] != '-'
    ensures MergeDashes(t) == "-" + MergeDashes(t[n..])
  {
    if n > 1 {
      MergeLeadingDashes(t[1..], n - 1);
      assert t[1..][n - 1..] == t[n..];
    }
  }

  /**
   * The dash pass is the same as writing every `[\s_-]` character as a dash
   * and then merging adjacent dashes: each maximal separator run becomes
   * exactly one dash, and every other character is kept, in order.
   */
  lemma {:induction false} DashRunsMerges(s: string)
    ensures DashRuns(s) == MergeDashes(SepsToDashes(s))
    decreases |s|
  {
    if s != [] {
      var t := SepsToDashes(s);
      if IsDashSep(s[0]) {
        var n := SepLen(s);
        assert forall i :: 0 <= i < n ==> IsDashSep(s[i]) by {
          SepLenRun(s);
        }
        MergeLeadingDashes(t, n);
        assert t[n..] == SepsToDashes(s[n..]);
        DashRunsMerges(s[n..]);
      } else {
        assert t[1..] == SepsToDashes(s[1..]);
        DashRunsMerges(s[1..]);
      }
    }
  }

  lemma {:induction false} SepLenRun(s: string)
    ensures forall i :: 0 <= i < SepLen(s) ==> IsDashSep(s[i])
  {
    if s != [] && IsDashSep(s[0]) {
      SepLenRun(s[1..]);
      assert forall i :: 0 < i < SepLen(s) ==> s[i] == s[1..][i - 1];
    }
  }

  /** The characters of `s` that are not separators, in order. */
  function NonSeps(s: string): (r: string)
  {
    if s == [] then [] else (if IsDashSep(s[0]) then [] else [s[0]]) + NonSeps(s[1..])
  }

  lemma {:induction false} NonSepsSkip(s: string, n: nat)
    requires n <= |s|
    requires forall i :: 0 <= i < n ==> IsDashSep(s[i])
    ensures NonSeps(s) == NonSeps(s[n..])
  {
    if n > 0 {
      NonSepsSkip(s[1..], n - 1);
      assert s[1..][n - 1..] == s[n..];
    }
  }

  /** The dash pass keeps every non-separator character, in order, and adds only dashes. */
  lemma {:induction false} DashRunsKeepsOthers(s: string)
    ensures NonSeps(DashRuns(s)) == NonSeps(s)
    decreases |s|
  {
    if s != [] {
      if IsDashSep(s[0]) {
        var n := SepLen(s);
        SepLenRun(s);
        NonSepsSkip(s, n);
        DashRunsKeepsOthers(s[n..]);
        assert ("-" + DashRuns(s[n..]))[1..] == DashRuns(s[n..]);
      } else {
        DashRunsKeepsOthers(s[1..]);
        assert ([s[0]] + DashRuns(s[1..]))[1..] == DashRuns(s[1..]);
      }
    }
  }

  /** What a slug is made of: lower-case ASCII letters, digits and dashes. */
  predicate SlugChar(c: char) {
    'a' <= c <= 'z' || '0' <= c <= '9' || c == '-'
  }

  /**
   * `slugify(text, n)`: never empty, only `[a-z0-9-]`, no doubled dash, and at
   * most `n` characters unless the "post" fallback applies.
   */
  function Slugify(text: string, n: nat): (r: string)
    ensures r != []
    ensures IsSlugText(r)
    ensures |r| <= n || r == "post"
  {
    var p := SlugCut(SlugBase(text), n);
    if p == [] then PostIsSlugText(); "post" else p
  }

  /** `text[:n]` on slug text. */
  function SlugCut(t: string, n: nat): (p: string)
    requires IsSlugText(t)
    ensures IsSlugText(p) && |p| <= n
  {
    var p := if n <= |t| then t[..n] else t;
    SlugPrefix(t, p);
    p
  }

  lemma PostIsSlugText()
    ensures IsSlugText("post")
  {
    var post := "post";
    assert post[0] == 'p' && post[1] == 'o' && post[2] == 's' && post[3] == 't';
  }

  /** Only `[a-z0-9-]`, and no doubled dash. */
  predicate IsSlugText(t: string) {
    && (forall i :: 0 <= i < |t| ==> SlugChar(t[i]))
    && (forall i :: 0 <= i < |t| - 1 ==> !(t[i] == '-' && t[i + 1] == '-'))
  }

  /** The slug before the cut to `n` characters. */
  function SlugBase(text: string): (t: string)
    ensures IsSlugText(t)
  {
    SlugTextOf(text);
    DashRuns(Lower(Strip(KeepSlugChars(text))))
  }

  /** Before the cut, the dash pass already yields slug text. */
  lemma SlugTextOf(text: string)
    ensures IsSlugText(DashRuns(Lower(Strip(KeepSlugChars(text)))))
  {
    SlugSourceChars(text);
    DashRunsSlugChars(Lower(Strip(KeepSlugChars(text))));
  }

  lemma SlugPrefix(t: string, p: string)
    requires IsSlugText(t)
    requires |p| <= |t| && p == t[..|p|]
    ensures IsSlugText(p)
  {
    assert forall i :: 0 <= i < |p| ==> p[i] == t[i];
  }

  /** What may reach the dash pass: word characters, whitespace and '-', none upper-case. */
  predicate SlugSource(c: char) {
    SlugKeep(c) && !('A' <= c <= 'Z')
  }

  lemma SlugSourceChars(text: string)
    ensures forall i :: 0 <= i < |Lower(Strip(KeepSlugChars(text)))| ==> SlugSource(Lower(Strip(KeepSlugChars(text)))[i])
  {
    var kept := KeepSlugChars(text);
    StrippedKeep(kept);
    LowerKeepsSource(Strip(kept));
  }

  lemma StrippedKeep(kept: string)
    requires forall k :: 0 <= k < |kept| ==> SlugKeep(kept[k])
    ensures forall k :: 0 <= k < |Strip(kept)| ==> SlugKeep(Strip(kept)[k])
  {
    StripIsInfix(kept);
    InfixAll(Strip(kept), kept, SlugKeep);
  }

  lemma LowerKeepsSource(s: string)
    requires forall k :: 0 <= k < |s| ==> SlugKeep(s[k])
    ensures forall i :: 0 <= i < |Lower(s)| ==> SlugSource(Lower(s)[i])
  {
    var l := Lower(s);
    forall i | 0 <= i < |l| ensures SlugSource(l[i]) {
      assert l[i] == LowerChar(s[i]) && SlugKeep(s[i]);
    }
  }

  lemma DashRunsSlugChars(s: string)
    requires forall i :: 0 <= i < |s| ==> SlugSource(s[i])
    ensures forall i :: 0 <= i < |DashRuns(s)| ==> SlugChar(DashRuns(s)[i])
  {
    DashRunsKeeps(s, SlugSource);
  }

  // ---------------------------------------------------------------------
  // The item
  // ---------------------------------------------------------------------

  /** The 230-character cap on the X line, cutting back to a space. */
  function CapXLine(x: string): (r: string)
    ensures |r| <= 230
    ensures |x| <= 230 ==> r == x
    ensures |x| > 230 ==>
              exists p :: r == p + "\U{2026}" && |p| <= 229 && x[..|p|] == p
                        && (' ' !in x[..229] ==> p == x[..229])
                        && (' ' in x[..229] ==> |p| < 229 && x[|p|] == ' ' && ' ' !in x[|p| + 1..229])
  {
    if |x| > 230 then
      var p := BeforeLastSpace(x[..229]);
      assert x[..|p|] == p;
      assert ' ' in x[..229] ==> x[..229][|p| + 1..] == x[|p| + 1..229];
      p + "\U{2026}"
    else x
  }

  /** The fields of the generated post, missing ones as "". */
  datatype Payload = Payload(
    style: string, ctaType: string, xLine: string,
    descTitle: string, descPoints: seq<string>, descCta: string, tags: seq<string>)

  /** `(v or "").strip().lower() or default` */
  function FieldOr(v: string, default: string): (r: string)
    requires default != []
    ensures r != []
    ensures AllSpace(v) ==> r == default
    ensures !AllSpace(v) ==> r == Lower(Strip(v)) && |r| <= |v| && NoOuterSpace(r)
  {
    var s := Lower(Strip(v));
    LowerNoOuterSpace(Strip(v));
    if s == [] then default else s
  }

  const BulletChars: set<char> := {' ', '\U{2022}', '-'}

  predicate Blank(p: string) {
    AllSpace(p)
  }

  /** `[p.strip(" •-") for p in points if p and p.strip()]` */
  function CleanPoints(ps: seq<string>): (r: seq<string>)
    ensures |r| <= |ps|
    ensures forall i :: 0 <= i < |r| ==> BulletFree(r[i])
  {
    CleanedFacts(ps);
    Cleaned(ps)
  }

  /** Neither end of `t` is a ' ', '•' or '-'. */
  predicate BulletFree(t: string) {
    t == [] || (t[0] !in BulletChars && t[|t| - 1] !in BulletChars)
  }

  /** What one point contributes: nothing when blank, else its stripped text. */
  function CleanPoint(p: string): seq<string> {
    if Blank(p) then [] else [StripChars(p, BulletChars)]
  }

  function Cleaned(ps: seq<string>): seq<string> {
    if ps == [] then [] else CleanPoint(ps[0]) + Cleaned(ps[1..])
  }

  lemma {:induction false} CleanedFacts(ps: seq<string>)
    ensures var r := Cleaned(ps);
      && |r| <= |ps|
      && (forall i :: 0 <= i < |r| ==> BulletFree(r[i]))
  {
    if ps != [] {
      CleanedFacts(ps[1..]);
      var h, t := CleanPoint(ps[0]), Cleaned(ps[1..]);
      assert Cleaned(ps) == h + t;
      forall i | 0 <= i < |h + t| ensures BulletFree((h + t)[i]) {
        if i < |h| {
          assert (h + t)[i] == StripChars(ps[0], BulletChars);
        } else {
          assert (h + t)[i] == t[i - |h|];
        }
      }
    }
  }

  /** The comprehension is a filter-map: it distributes over concatenation, one point at a time. */
  lemma {:induction false} CleanPointsAppend(a: seq<string>, b: seq<string>)
    ensures CleanPoints(a + b) == CleanPoints(a) + CleanPoints(b)
  {
    CleanedAppend(a, b);
  }

  lemma {:induction false} CleanedAppend(a: seq<string>, b: seq<string>)
    ensures Cleaned(a + b) == Cleaned(a) + Cleaned(b)
  {
    if a == [] {
      assert a + b == b;
    } else {
      assert (a + b)[0] == a[0] && (a + b)[1..] == a[1..] + b;
      CleanedAppend(a[1..], b);
    }
  }

  /** A blank point is dropped; any other loses its outer ' ', '•' and '-'. */
  lemma CleanPointsOne(p: string)
    ensures CleanPoints([p]) == if Blank(p) then [] else [StripChars(p, BulletChars)]
  {
    assert [p][1..] == [];
    assert Cleaned([p]) == CleanPoint(p) + Cleaned([]);
  }

  function CountNonBlank(ps: seq<string>): nat {
    if ps == [] then 0 else (if Blank(ps[0]) then 0 else 1) + CountNonBlank(ps[1..])
  }

  lemma {:induction false} CleanPointsCount(ps: seq<string>)
    ensures |CleanPoints(ps)| == CountNonBlank(ps)
  {
    if ps != [] { CleanPointsCount(ps[1..]); }
  }

  function NonEmptyOf(ts: seq<string>): (r: seq<string>)
    ensures forall i :: 0 <= i < |r| ==> r[i] != []
  {
    if ts == [] then [] else (if ts[0] != [] then [ts[0]] else []) + NonEmptyOf(ts[1..])
  }

  /** `[t for t in tags if t][:2]` */
  function KeptTags(tags: seq<string>): (r: seq<string>)
    ensures |r| <= 2
    ensures forall i :: 0 <= i < |r| ==> r[i] != []
    ensures |r| == if |NonEmptyOf(tags)| < 2 then |NonEmptyOf(tags)| else 2
    ensures r == NonEmptyOf(tags)[..|r|]
  {
    var ts := NonEmptyOf(tags);
    if |ts| <= 2 then ts else ts[..2]
  }

  function Prefixed(ws: seq<string>, pre: string): (r: seq<string>)
    ensures |r| == |ws|
    ensures forall i :: 0 <= i < |r| ==> r[i] == pre + ws[i]
  {
    if ws == [] then [] else [pre + ws[0]] + Prefixed(ws[1..], pre)
  }

  /** The parts list of `make_item`: a blank entry before each later section. */
  function DescParts(hook: string, bullets: string, cta: string, tagStr: string): seq<string> {
    (if hook != [] then [hook] else [])
    + (if bullets != [] then ["", bullets] else [])
    + (if cta != [] then ["", cta] else [])
    + (if tagStr != [] then ["", tagStr] else [])
  }

  function Description(p: Payload): (d: string)
    ensures NoOuterSpace(d)
  {
    var hook := Strip(p.descTitle);
    var bullets := JoinWith(Prefixed(CleanPoints(p.descPoints), "\U{2022} "), "\n");
    var cta := Strip(p.descCta);
    var tags := KeptTags(p.tags);
    var tagStr := if tags != [] then JoinWith(Prefixed(tags, "#"), " ") else "";
    Strip(JoinWith(DescParts(hook, bullets, cta, tagStr), "\n"))
  }

  /** A blank line before each part after the first. */
  function Pairs(ws: seq<string>): seq<string> {
    if ws == [] then [] else ["", ws[0]] + Pairs(ws[1..])
  }

  lemma {:induction false} JoinPairs(h: string, q: seq<string>)
    ensures JoinWith([h] + Pairs(q), "\n") == JoinWith([h] + q, "\n\n")
    decreases |q|
  {
    if q != [] {
      JoinPairs(q[0], q[1..]);
      var ps := [h] + Pairs(q);
      assert ps == [h, ""] + ([q[0]] + Pairs(q[1..]));
      assert ps[1..] == [""] + ([q[0]] + Pairs(q[1..]));
      assert ps[1..][1..] == [q[0]] + Pairs(q[1..]);
      assert ([h] + q)[1..] == [q[0]] + q[1..];
    } else {
      assert [h] + Pairs(q) == [h] + q;
    }
  }

  lemma NonEmptyOfCons(x: string, rest: seq<string>)
    ensures NonEmptyOf([x] + rest) == (if x != [] then [x] else []) + NonEmptyOf(rest)
  {
    assert ([x] + rest)[1..] == rest;
  }

  lemma {:induction false} PairsAppend(a: seq<string>, b: seq<string>)
    ensures Pairs(a + b) == Pairs(a) + Pairs(b)
  {
    if a == [] {
      assert a + b == b;
    } else {
      assert (a + b)[1..] == a[1..] + b;
      PairsAppend(a[1..], b);
    }
  }

  function Opt(x: string): seq<string> {
    if x != [] then [x] else []
  }

  lemma PairsOpt(x: string)
    ensures Pairs(Opt(x)) == if x != [] then ["", x] else []
  {
    if x != [] {
      assert Pairs([x]) == ["", x] + Pairs([]);
    }
  }

  lemma NonEmptyOfThree(b: string, c: string, t: string)
    ensures NonEmptyOf([b, c, t]) == Opt(b) + (Opt(c) + Opt(t))
  {
    NonEmptyOfCons(t, []);
    NonEmptyOfCons(c, [t]);
    NonEmptyOfCons(b, [c, t]);
    assert [b] + [c, t] == [b, c, t];
    assert [c] + [t] == [c, t];
    assert [t] + [] == [t];
  }

  lemma DescPartsPairs(hook: string, bullets: string, cta: string, tagStr: string)
    ensures DescParts(hook, bullets, cta, tagStr) == Opt(hook) + Pairs(NonEmptyOf([bullets, cta, tagStr]))
  {
    NonEmptyOfThree(bullets, cta, tagStr);
    PairsAppend(Opt(bullets), Opt(cta) + Opt(tagStr));
    PairsAppend(Opt(cta), Opt(tagStr));
    PairsOpt(bullets);
    PairsOpt(cta);
    PairsOpt(tagStr);
    var pb, pc, pt := Pairs(Opt(bullets)), Pairs(Opt(cta)), Pairs(Opt(tagStr));
    assert DescParts(hook, bullets, cta, tagStr) == Opt(hook) + pb + pc + pt;
    Regroup(Opt(hook), pb, pc, pt);
  }

  lemma JoinPairsLead(q: seq<string>)
    requires q != []
    ensures JoinWith(Pairs(q), "\n") == "\n" + JoinWith(q, "\n\n")
  {
    JoinPairs(q[0], q[1..]);
    var ps := Pairs(q);
    assert ps == ["", q[0]] + Pairs(q[1..]);
    assert ps[1..] == [q[0]] + Pairs(q[1..]);
    assert [q[0]] + q[1..] == q;
    assert JoinWith(ps, "\n") == "" + "\n" + JoinWith(ps[1..], "\n");
    assert "" + "\n" == "\n";
  }

  /**
   * The description is the non-empty parts hook, bullets, cta and tags, in
   * that order, separated by one blank line.
   */
  lemma DescriptionLayout(hook: string, bullets: string, cta: string, tagStr: string)
    ensures Strip(JoinWith(DescParts(hook, bullets, cta, tagStr), "\n"))
         == Strip(JoinWith(NonEmptyOf([hook, bullets, cta, tagStr]), "\n\n"))
  {
    DescPartsPairs(hook, bullets, cta, tagStr);
    var q := NonEmptyOf([bullets, cta, tagStr]);
    NonEmptyOfCons(hook, [bullets, cta, tagStr]);
    assert [hook] + [bullets, cta, tagStr] == [hook, bullets, cta, tagStr];
    if hook != [] {
      JoinPairs(hook, q);
    } else if q != [] {
      assert Opt(hook) + Pairs(q) == Pairs(q);
      assert Opt(hook) + q == q;
      JoinPairsLead(q);
      StripLeadingSpace("\n", JoinWith(q, "\n\n"));
    } else {
      assert Opt(hook) + Pairs(q) == [];
    }
  }

  /** The RSS item fields this model keeps; `guidBase` is what the GUID hashes. */
  datatype Item = Item(title: string, description: string, style: string, cta: string, guidBase: string)

  /**
   * `make_item`: the capped, sanitised and padded X line, the description,
   * the categories with their defaults, and the slug-and-stamp GUID base.
   */
  function MakeItem(p: Payload, first: nat, second: nat, removeMarkers: string -> string, stamp: string): (it: Item)
    requires first < |EmojiPalette| && second < |EmojiPalette| && first != second
    ensures |it.title| <= 230
    ensures it.style != [] && it.cta != []
    ensures AllSpace(p.style) ==> it.style == "unspecified"
    ensures AllSpace(p.ctaType) ==> it.cta == "question"
    ensures NoOuterSpace(it.description)
    ensures StartsWith(it.guidBase, Slugify(it.title, 60) + "-")
  {
    var xLine := SanitizeXLine(Strip(p.xLine), removeMarkers);
    var padded := AddMinimumEmojis(xLine, first, second, 2);
    var title := CapXLine(padded);
    var base := Slugify(title, 60) + "-" + stamp;
    assert base[..|Slugify(title, 60) + "-"|] == Slugify(title, 60) + "-";
    Item(title, Description(p), FieldOr(p.style, "unspecified"), FieldOr(p.ctaType, "question"), base)
  }
}
