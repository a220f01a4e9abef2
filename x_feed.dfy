/**
 * scripts/make_x_feed.py: the X-only copy of each feed item. The text is
 * the stamp-free title (or description) cut to the post limit at a word
 * boundary; the GUID is derived from the first non-empty identifying field.
 * HTML cleaning, SHA-1 and the XML are not part of this model.
 */
module XFeed {
  import opened Text
  import BuildRss

  /** Room left for tools that append links to the text. */
  const MaxBody := 240
  /** Whether the link is written into the text itself (it is not: the poster attaches it). */
  const AppendLinkInText := false
  /** The characters a link is assumed to take once shortened. */
  const LinkReserve := 25

  /**
   * `smart_truncate`: text that fits is kept; otherwise it is cut to
   * `limit - 1` characters, back to before the last space of that cut when
   * it has one, and an ellipsis is appended.
   */
  function SmartTruncate(s: string, limit: int): (r: string)
    ensures |s| <= limit ==> r == s
    ensures |s| > limit ==>
              var cut := if limit >= 1 then limit - 1 else 0;
              exists p :: r == p + "\U{2026}" && |p| <= cut && s[..|p|] == p
                        && (' ' !in s[..cut] ==> p == s[..cut])
                        && (' ' in s[..cut] ==> |p| < cut && s[|p|] == ' ' && ' ' !in s[|p| + 1..cut])
    ensures limit >= 1 ==> |r| <= limit
  {
    if |s| <= limit then s
    else
      var cut := if limit >= 1 then limit - 1 else 0;
      var p := BeforeLastSpace(s[..cut]);
      assert s[..|p|] == p;
      assert ' ' in s[..cut] ==> s[..cut][|p| + 1..] == s[|p| + 1..cut];
      p + "\U{2026}"
  }

  /** Truncating what was already truncated to the same positive limit changes nothing. */
  lemma SmartTruncateIdempotent(s: string, limit: int)
    requires limit >= 1
    ensures SmartTruncate(SmartTruncate(s, limit), limit) == SmartTruncate(s, limit)
  {
  }

  /** The X feed and the post generator cut long lines the same way at 230 characters. */
  lemma SmartTruncateAgreesWithCap(x: string)
    ensures SmartTruncate(x, 230) == BuildRss.CapXLine(x)
  {
  }

  /**
   * `strip_stamp`: each stamp pattern is anchored at the end of the text, so
   * its substitution keeps the text before the point where the stamp starts
   * (`stampAt`, |s| when there is none); each pass is followed by `strip()`.
   */
  function StripStamp(s: string, stampAt: seq<string -> nat>): (r: string)
    ensures IsInfix(r, s)
    ensures stampAt != [] ==> NoOuterSpace(r)
    ensures |r| <= |s|
    decreases |stampAt|
  {
    if stampAt == [] then assert s == s[0..|s|]; s
    else
      var at := stampAt[0](s);
      var kept := s[..if at < |s| then at else |s|];
      var t := Strip(kept);
      StripIsInfix(kept);
      assert IsInfix(kept, s) by { assert kept == s[0..|kept|]; }
      InfixTransitive(t, kept, s);
      var r := StripStamp(t, stampAt[1..]);
      InfixTransitive(r, t, s);
      if stampAt[1..] == [] then assert r == t; r else r
  }

  /** A stamp finder that finds nothing in any text. */
  ghost predicate FindsNoStamp(f: string -> nat) {
    forall t :: f(t) >= |t|
  }

  /** Text without any stamp only loses its outer whitespace. */
  lemma {:induction false} StripStampNoStamp(s: string, stampAt: seq<string -> nat>)
    requires stampAt != []
    requires forall k :: 0 <= k < |stampAt| ==> FindsNoStamp(stampAt[k])
    ensures StripStamp(s, stampAt) == Strip(s)
    decreases |stampAt|
  {
    assert FindsNoStamp(stampAt[0]);
    assert s[..|s|] == s;
    if |stampAt| > 1 {
      var rest := stampAt[1..];
      assert forall k :: 0 <= k < |rest| ==> rest[k] == stampAt[k + 1];
      StripStampNoStamp(Strip(s), rest);
      StripUnchanged(Strip(s));
    }
  }

  /** The characters the text may use: all of them, less the reserve when the link is written in. */
  function Limit(link: string): (n: int)
    ensures n == MaxBody
  {
    MaxBody - (if AppendLinkInText && link != [] then LinkReserve else 0)
  }

  datatype XItem = XItem(text: string, link: string, guidSource: string)

  /** The post text for a body: all of it when it fits, else a cut piece of it and an ellipsis. */
  function XText(body: string, link: string): (text: string)
    ensures |text| <= MaxBody
    ensures |body| <= MaxBody ==> text == body
    ensures |body| > MaxBody ==> text != [] && text[|text| - 1] == '\U{2026}' && IsInfix(text[..|text| - 1], body)
  {
    var text := SmartTruncate(body, Limit(link));
    assert |body| > MaxBody ==> IsInfix(text[..|text| - 1], body) by {
      if |body| > MaxBody {
        var p := text[..|text| - 1];
        assert text == p + "\U{2026}";
        assert p == body[0..|p|];
      }
    }
    if AppendLinkInText && link != [] then text + " " + link else text
  }

  /** One item of the X feed, from the title, description, link and guid of the main feed. */
  function XItemOf(rawTitle: string, rawDesc: string, rawLink: string, origGuid: string,
                   stampAt: seq<string -> nat>): (it: XItem)
    ensures var title := StripStamp(rawTitle, stampAt);
            var body := if title != [] then title else StripStamp(rawDesc, stampAt);
            && |it.text| <= MaxBody
            && (|body| <= MaxBody ==> it.text == body)
            && (|body| > MaxBody ==> it.text != [] && it.text[|it.text| - 1] == '\U{2026}' && IsInfix(it.text[..|it.text| - 1], body))
            && IsFirstOf4(it.guidSource, origGuid, it.link, title, StripStamp(rawDesc, stampAt))
    ensures it.link == Strip(rawLink)
  {
    var title := StripStamp(rawTitle, stampAt);
    var desc := StripStamp(rawDesc, stampAt);
    var link := Strip(rawLink);
    FirstNonEmptyOf4(origGuid, link, title, desc);
    XItem(XText(if title != [] then title else desc, link), link, FirstNonEmpty([origGuid, link, title, desc]))
  }
}
