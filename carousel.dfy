/**
 * scripts/make_carousel.py: the title of the newest post and the greedy word
 * wrap that lays each slide's text out in lines. Image rendering is not part
 * of this model.
 */
module Carousel {
  import opened Text
  import opened Seqs
  import Sorting

  const DefaultTitle := "Career Forge"

  // ---------------------------------------------------------------------
  // wrap
  // ---------------------------------------------------------------------

  /** The words of consecutive lines, one after the other. */
  function Flatten(chunks: seq<seq<string>>): seq<string> {
    if chunks == [] then [] else chunks[0] + Flatten(chunks[1..])
  }

  lemma {:induction false} FlattenAppend(a: seq<seq<string>>, c: seq<string>)
    ensures Flatten(a + [c]) == Flatten(a) + c
  {
    if a == [] {
      assert [] + [c] == [c];
    } else {
      assert (a + [c])[1..] == a[1..] + [c];
      FlattenAppend(a[1..], c);
    }
  }

  predicate AllWords(ws: seq<string>) {
    forall k :: 0 <= k < |ws| ==> IsWord(ws[k])
  }

  /** A line of words joined by single spaces is at least as long as its first word. */
  lemma {:induction false} JoinWithFirst(ws: seq<string>, sep: string)
    requires ws != []
    ensures |JoinWith(ws, sep)| >= |ws[0]|
  {
  }

  /** Dropping the last word of a line shortens it. */
  lemma JoinWithInitShorter(ws: seq<string>)
    requires |ws| > 1
    ensures |JoinWith(ws[..|ws| - 1], " ")| < |JoinWith(ws, " ")|
  {
    JoinWithLast(ws[..|ws| - 1], ws[|ws| - 1], " ");
    assert ws == ws[..|ws| - 1] + [ws[|ws| - 1]];
  }

  /** The last space of `j + " " + w`, when `w` has none, is the one before `w`. */
  lemma BeforeLastSpaceOfJoin(j: string, w: string)
    requires ' ' !in w
    ensures BeforeLastSpace(j + " " + w) == j
  {
    var p := j + " " + w;
    assert p[|j|] == ' ';
    assert forall k :: |j| < k < |p| ==> p[k] == w[k - |j| - 1];
    var r := BeforeLastSpace(p);
    assert |r| == |j|;
    assert r == p[..|j|];
  }

  /**
   * The line of several words, its last word removed, is the text before its
   * last space: what "the line without its last word" means on the text.
   */
  lemma DropLastWord(ws: seq<string>)
    requires |ws| > 1 && AllWords(ws)
    ensures ' ' in JoinWith(ws, " ")
    ensures BeforeLastSpace(JoinWith(ws, " ")) == JoinWith(ws[..|ws| - 1], " ")
  {
    var j, last := JoinWith(ws[..|ws| - 1], " "), ws[|ws| - 1];
    JoinSplitLast(ws);
    assert IsWord(last);
    WordHasNoSpace(last);
    BeforeLastSpaceOfJoin(j, last);
    var p := j + " " + last;
    assert p[|j|] == ' ';
  }

  lemma JoinSplitLast(ws: seq<string>)
    requires |ws| > 1
    ensures JoinWith(ws, " ") == JoinWith(ws[..|ws| - 1], " ") + " " + ws[|ws| - 1]
  {
    assert ws == ws[..|ws| - 1] + [ws[|ws| - 1]];
    JoinWithLast(ws[..|ws| - 1], ws[|ws| - 1], " ");
  }

  lemma WordHasNoSpace(w: string)
    requires IsWord(w)
    ensures ' ' !in w
  {
    forall k | 0 <= k < |w| ensures w[k] != ' ' { assert !IsSpace(w[k]); }
  }

  /** What every emitted line satisfies: words, and still short before its last word. */
  predicate LineShape(c: seq<string>, width: int) {
    && c != []
    && AllWords(c)
    && (|c| > 1 ==> |JoinWith(c[..|c| - 1], " ")| < width)
  }

  /** An emitted line is not empty, and without its last word it is shorter than `width`. */
  lemma LineOfShape(c: seq<string>, width: int)
    requires LineShape(c, width)
    ensures JoinWith(c, " ") != []
    ensures ' ' in JoinWith(c, " ") ==> |BeforeLastSpace(JoinWith(c, " "))| < width
  {
    JoinedWordsNotEmpty(c);
    if |c| > 1 {
      DropLastWord(c);
    } else {
      assert IsWord(c[0]);
      WordHasNoSpace(c[0]);
    }
  }

  /** A non-empty line of words is not empty. */
  lemma JoinedWordsNotEmpty(ws: seq<string>)
    requires ws != [] && AllWords(ws)
    ensures JoinWith(ws, " ") != []
  {
    JoinWithFirst(ws, " ");
    assert IsWord(ws[0]);
  }

  /** Joining the lines joins their words: no word is lost, split or reordered. */
  lemma {:induction false} JoinLines(lines: seq<string>, chunks: seq<seq<string>>)
    requires |lines| == |chunks|
    requires forall k :: 0 <= k < |chunks| ==> chunks[k] != [] && lines[k] == JoinWith(chunks[k], " ")
    ensures JoinWith(lines, " ") == JoinWith(Flatten(chunks), " ")
  {
    if |chunks| == 1 {
      assert Flatten(chunks) == chunks[0] + [];
      assert chunks[0] + [] == chunks[0];
    } else if |chunks| > 1 {
      JoinLines(lines[1..], chunks[1..]);
      assert Flatten(chunks[1..]) != [] by {
        assert Flatten(chunks[1..]) == chunks[1] + Flatten(chunks[2..]);
      }
      JoinWithAppend(chunks[0], Flatten(chunks[1..]), " ");
    }
  }

  /** The chunk just closed: long enough, and was still short before its last word. */
  predicate ClosedLine(c: seq<string>, width: int) {
    LineShape(c, width) && |JoinWith(c, " ")| >= width
  }

  /**
   * `wrap`: words are added to the current line until joining it with spaces
   * reaches `width`; the line is then emitted and a new one begun. The last,
   * shorter line is emitted when non-empty.
   */
  method Wrap(text: string, width: int) returns (lines: seq<string>)
    ensures JoinWith(lines, " ") == JoinWith(Words(text), " ")
    ensures forall k :: 0 <= k < |lines| ==> lines[k] != []
    ensures forall k :: 0 <= k < |lines| - 1 ==> |lines[k]| >= width
    ensures forall k :: 0 <= k < |lines| && ' ' in lines[k] ==> |BeforeLastSpace(lines[k])| < width
    ensures lines == [] <==> AllSpace(text)
  {
    var words := Words(text);
    lines := [];
    var line: seq<string> := [];
    ghost var chunks: seq<seq<string>> := [];
    ghost var flat: seq<string> := [];
    for i := 0 to |words|
      invariant flat == Flatten(chunks)
      invariant flat + line == words[..i]
      invariant ClosedLayout(lines, chunks, width)
      invariant AllWords(line)
      invariant line != [] ==> |JoinWith(line, " ")| < width
    {
      var w := words[i];
      PrefixStep(words, i);
      assert flat + (line + [w]) == words[..i + 1];
      AddWord(line, w, width);
      line := line + [w];
      if |JoinWith(line, " ")| >= width {
        FlattenAppend(chunks, line);
        CloseLine(lines, chunks, line, width);
        lines, chunks, flat := lines + [JoinWith(line, " ")], chunks + [line], flat + line;
        line := [];
      }
    }
    assert words[..|words|] == words;
    ghost var last := line;
    ghost var closed := chunks;
    if line != [] {
      FlattenAppend(chunks, line);
      lines := lines + [JoinWith(line, " ")];
      chunks := chunks + [line];
    }
    assert last != [] ==> chunks[..|chunks| - 1] == closed;
    FinishLayout(lines, chunks, last, width);
    LayoutFacts(lines, chunks, width, text);
  }

  /** The lines emitted so far: each the join of its chunk, each closed. */
  ghost predicate ClosedLayout(lines: seq<string>, chunks: seq<seq<string>>, width: int) {
    && |lines| == |chunks|
    && forall k :: 0 <= k < |chunks| ==> lines[k] == JoinWith(chunks[k], " ") && ClosedLine(chunks[k], width)
  }

  lemma CloseLine(lines: seq<string>, chunks: seq<seq<string>>, line: seq<string>, width: int)
    requires ClosedLayout(lines, chunks, width) && ClosedLine(line, width)
    ensures ClosedLayout(lines + [JoinWith(line, " ")], chunks + [line], width)
  {
  }

  /** A word added to a line that was still short keeps the line's shape. */
  lemma AddWord(line: seq<string>, w: string, width: int)
    requires AllWords(line) && IsWord(w)
    requires line != [] ==> |JoinWith(line, " ")| < width
    ensures LineShape(line + [w], width)
  {
    assert (line + [w])[..|line|] == line;
  }

  /** After the loop: the lines emitted, plus the last open line when it is non-empty. */
  lemma FinishLayout(lines: seq<string>, chunks: seq<seq<string>>, last: seq<string>, width: int)
    requires |lines| == |chunks|
    requires last != [] ==> |lines| >= 1 && lines[|lines| - 1] == JoinWith(last, " ") && chunks[|chunks| - 1] == last
    requires last != [] ==> ClosedLayout(lines[..|lines| - 1], chunks[..|chunks| - 1], width)
    requires last != [] ==> AllWords(last) && |JoinWith(last, " ")| < width
    requires last == [] ==> ClosedLayout(lines, chunks, width)
    ensures Layout(lines, chunks, width)
  {
    if last != [] && |last| > 1 {
      JoinWithInitShorter(last);
      assert last[..|last| - 1] + [last[|last| - 1]] == last;
    }
  }

  /** The lines are the chunks of words joined, each shaped as `wrap` emits it. */
  ghost predicate Layout(lines: seq<string>, chunks: seq<seq<string>>, width: int) {
    && |lines| == |chunks|
    && (forall k :: 0 <= k < |chunks| ==> lines[k] == JoinWith(chunks[k], " ") && LineShape(chunks[k], width))
    && (forall k :: 0 <= k < |chunks| - 1 ==> |lines[k]| >= width)
  }

  lemma LayoutFacts(lines: seq<string>, chunks: seq<seq<string>>, width: int, text: string)
    requires Layout(lines, chunks, width) && Flatten(chunks) == Words(text)
    ensures JoinWith(lines, " ") == JoinWith(Words(text), " ")
    ensures forall k :: 0 <= k < |lines| ==> lines[k] != []
    ensures forall k :: 0 <= k < |lines| && ' ' in lines[k] ==> |BeforeLastSpace(lines[k])| < width
    ensures lines == [] <==> AllSpace(text)
  {
    JoinLines(lines, chunks);
    forall k | 0 <= k < |lines| ensures lines[k] != [] && (' ' in lines[k] ==> |BeforeLastSpace(lines[k])| < width) {
      LineOfShape(chunks[k], width);
    }
    WordsEmpty(text);
    if lines != [] {
      assert Flatten(chunks) == chunks[0] + Flatten(chunks[1..]);
    }
  }

  // ---------------------------------------------------------------------
  // latest_title
  // ---------------------------------------------------------------------

  /** A row of posts_features.csv, as far as the title choice needs it; a missing date is "". */
  datatype FeatureRow = FeatureRow(pubDateLocal: string, titleSample: string)

  /** The order of `sort(key=pubDate_local, reverse=True)`: later dates first. */
  predicate Later(a: FeatureRow, b: FeatureRow) {
    StrLe(b.pubDateLocal, a.pubDateLocal)
  }

  lemma LaterTotalPreorder()
    ensures Sorting.TotalPreorder(Later)
  {
    StrLeFacts();
  }

  /**
   * `latest_title`: the title sample of the row with the greatest date, the
   * first such row in file order; the default when there is no file or no row.
   */
  function LatestTitle(fileExists: bool, rows: seq<FeatureRow>): (t: string)
    ensures !fileExists || rows == [] ==> t == DefaultTitle
    ensures fileExists && rows != [] ==>
              exists i :: 0 <= i < |rows| && t == rows[i].titleSample
                && (forall j :: 0 <= j < |rows| ==> StrLe(rows[j].pubDateLocal, rows[i].pubDateLocal))
                && (forall j :: 0 <= j < i ==> rows[j].pubDateLocal != rows[i].pubDateLocal)
  {
    if !fileExists then DefaultTitle
    else
      var sorted := Sorting.SortBy(rows, Later);
      if sorted == [] then DefaultTitle
      else
        LatestIsFirstGreatest(rows);
        sorted[0].titleSample
  }

  lemma LatestIsFirstGreatest(rows: seq<FeatureRow>)
    requires rows != []
    ensures var i := Sorting.FirstLeast(rows, Later);
            && Sorting.SortBy(rows, Later)[0] == rows[i]
            && (forall j :: 0 <= j < |rows| ==> StrLe(rows[j].pubDateLocal, rows[i].pubDateLocal))
            && (forall j :: 0 <= j < i ==> rows[j].pubDateLocal != rows[i].pubDateLocal)
  {
    LaterTotalPreorder();
    Sorting.SortByHead(rows, Later);
    Sorting.FirstLeastIsLeast(rows, Later);
    var i := Sorting.FirstLeast(rows, Later);
    forall j | 0 <= j < i ensures rows[j].pubDateLocal != rows[i].pubDateLocal {
      assert !Later(rows[j], rows[i]);
      StrLeReflexive(rows[j].pubDateLocal);
    }
  }
}
