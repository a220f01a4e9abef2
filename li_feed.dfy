/**
 * scripts/make_li_feed.py: the LinkedIn copy of each feed item. The text is
 * the whitespace-collapsed description (or title) ending in the fixed
 * hashtag suffix, added at most once. The full feed holds every item, the
 * live feed only the first. Tag removal, entity unescaping, SHA-1 and the
 * XML are not part of this model.
 */
module LiFeed {
  import opened Text

  const LiSuffix := "#CareerForward" + " #CareerFocused" + " #CareerForge"
  /** The suffix as `lower()` folds it, the form the comparison uses. */
  const LiSuffixFolded := "#careerforward" + " #careerfocused" + " #careerforge"

  lemma SuffixFolded()
    ensures Lower(LiSuffix) == LiSuffixFolded
  {
    var a, b, c := "#CareerForward", " #CareerFocused", " #CareerForge";
    LowerAppend(a + b, c);
    LowerAppend(a, b);
    FoldedPieces();
  }

  lemma FoldedPieces()
    ensures Lower("#CareerForward") == "#careerforward"
    ensures Lower(" #CareerFocused") == " #careerfocused"
    ensures Lower(" #CareerForge") == " #careerforge"
  {
    FoldedPart("#CareerForward", "#careerforward");
    FoldedPart(" #CareerFocused", " #careerfocused");
    FoldedPart(" #CareerForge", " #careerforge");
  }

  /** Folds one literal piece of the suffix; its only capitals are C and F. */
  lemma FoldedPart(w: string, f: string)
    requires |w| == |f|
    requires forall i :: 0 <= i < |w| ==> f[i] == (if w[i] == 'C' then 'c' else if w[i] == 'F' then 'f' else w[i])
    requires forall i :: 0 <= i < |w| ==> !('A' <= w[i] <= 'Z') || w[i] == 'C' || w[i] == 'F'
    ensures Lower(w) == f
  {
    forall i | 0 <= i < |w| ensures Lower(w)[i] == f[i] {
      assert Lower(w)[i] == LowerChar(w[i]);
    }
  }

  /**
   * The whitespace part of `clean`: `re.sub(r"\s+", " ", s).strip()`. It
   * leaves no run of two whitespace characters and nothing at either end.
   */
  function Clean(s: string): (r: string)
    ensures NoDoubleSpace(r)
    ensures NoOuterSpace(r)
    ensures r == [] <==> AllSpace(SubSpaceRuns(s, 1))
    ensures r == [] <==> AllSpace(s)
  {
    var t := SubSpaceRuns(s, 1);
    SubSpaceRunsAllSpace(s, 1);
    SubSpaceRunsNoDouble(s);
    StripIsInfix(t);
    InfixNoDoubleSpace(Strip(t), t);
    Strip(t)
  }

  /** Whether the text already ends with the suffix, compared case-insensitively. */
  predicate HasSuffix(s: string) {
    EndsWith(Lower(s), LiSuffixFolded)
  }

  /**
   * `li_text`: the stripped description, or the title when the description is
   * empty, with the suffix appended after one space unless it is there already.
   */
  function LiText(title: string, desc: string): (r: string)
    ensures var base := Strip(if desc != [] then desc else title);
            && (HasSuffix(base) ==> r == base)
            && (!HasSuffix(base) && base != [] ==> r == base + " " + LiSuffix)
            && (!HasSuffix(base) && base == [] ==> r == LiSuffix)
    ensures r != [] && NoOuterSpace(r) && HasSuffix(r)
  {
    var base := Strip(if desc != [] then desc else title);
    if HasSuffix(base) then
      assert base != [] by { assert |LiSuffixFolded| > 0; }
      base
    else if base != [] then
      SuffixAfterBase(base);
      base + " " + LiSuffix
    else
      SuffixAlone();
      LiSuffix
  }

  /** The suffix on its own is non-empty, stripped, and ends in itself. */
  lemma SuffixAlone()
    ensures LiSuffix != [] && NoOuterSpace(LiSuffix) && HasSuffix(LiSuffix)
  {
    SuffixAppended([]);
    assert [] + LiSuffix == LiSuffix;
    assert LiSuffix[0] == '#' && LiSuffix[|LiSuffix| - 1] == 'e';
  }

  /** A stripped, non-empty base followed by one space and the suffix needs no further stripping. */
  lemma SuffixAfterBase(base: string)
    requires base != [] && NoOuterSpace(base)
    ensures var t := base + " " + LiSuffix; NoOuterSpace(t) && HasSuffix(t)
  {
    var t := base + " " + LiSuffix;
    assert t[0] == base[0] && t[|t| - 1] == 'e';
    SuffixAppended(base + " ");
    assert base + " " + LiSuffix == (base + " ") + LiSuffix;
  }

  /** Any text followed by the suffix ends with it, case folded or not. */
  lemma SuffixAppended(p: string)
    ensures HasSuffix(p + LiSuffix)
  {
    LowerAppend(p, LiSuffix);
    SuffixFolded();
    var l := Lower(p) + LiSuffixFolded;
    assert l[|l| - |LiSuffixFolded|..] == LiSuffixFolded;
  }

  /** Feeding the LinkedIn text back in as the description returns it unchanged. */
  lemma LiTextIdempotent(title: string, desc: string, otherTitle: string)
    ensures LiText(otherTitle, LiText(title, desc)) == LiText(title, desc)
  {
    var r := LiText(title, desc);
    StripUnchanged(r);
  }

  datatype SourceItem = SourceItem(title: string, description: string, link: string, guid: string)
  datatype LiItem = LiItem(text: string, link: string, guidSource: string)

  /** One item of the LinkedIn feeds; the guid comes from the first non-empty identifying field. */
  function LiItemOf(it: SourceItem): (o: LiItem)
    ensures o.text != [] && HasSuffix(o.text)
    ensures o.link == Strip(it.link)
    ensures IsFirstOf4(o.guidSource, it.guid, o.link, Clean(it.title), Clean(it.description))
  {
    var title, desc := Clean(it.title), Clean(it.description);
    var link := Strip(it.link);
    FirstNonEmptyOf4(it.guid, link, title, desc);
    LiItem(LiText(title, desc), link, FirstNonEmpty([it.guid, link, title, desc]))
  }

  function LiItems(items: seq<SourceItem>): (out: seq<LiItem>)
    ensures |out| == |items|
    ensures forall i :: 0 <= i < |items| ==> out[i] == LiItemOf(items[i])
  {
    seq(|items|, i requires 0 <= i < |items| => LiItemOf(items[i]))
  }

  /** The two feeds: every transformed item in source order, and only the first of them. */
  function Feeds(items: seq<SourceItem>): (feeds: (seq<LiItem>, seq<LiItem>))
    ensures |feeds.0| == |items|
    ensures forall i :: 0 <= i < |items| ==> feeds.0[i] == LiItemOf(items[i])
    ensures |feeds.1| == if items == [] then 0 else 1
    ensures items != [] ==> feeds.1[0] == LiItemOf(items[0])
  {
    var all := LiItems(items);
    (all, all[..if |all| < 1 then |all| else 1])
  }
}
