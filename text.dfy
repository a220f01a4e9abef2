/** Python string built-ins that the scripts rely on, stated over seq<char>. */
module Text {

  /** The characters Python's `str.isspace()` and the regex class `\s` accept. */
  predicate IsSpace(c: char) {
    || c == ' ' || c == '\t' || c == '\n' || c == '\r' || c == '\U{000B}' || c == '\U{000C}'
    || ('\U{001C}' <= c <= '\U{001F}') || c == '\U{0085}' || c == '\U{00A0}' || c == '\U{1680}'
    || ('\U{2000}' <= c <= '\U{200A}') || c == '\U{2028}' || c == '\U{2029}'
    || c == '\U{202F}' || c == '\U{205F}' || c == '\U{3000}'
  }

  predicate AllSpace(s: string) {
    forall i :: 0 <= i < |s| ==> IsSpace(s[i])
  }

  /** No whitespace at either end: what `strip()` leaves. */
  predicate NoOuterSpace(s: string) {
    s == [] || (!IsSpace(s[0]) && !IsSpace(s[|s| - 1]))
  }

  predicate HasSpace(s: string) {
    exists i :: 0 <= i < |s| && IsSpace(s[i])
  }

  /** `s.lstrip()` */
  function TrimStart(s: string): (r: string)
    ensures |r| <= |s| && r == s[|s| - |r|..]
    ensures r == [] || !IsSpace(r[0])
    ensures AllSpace(s[..|s| - |r|])
  {
    if s != [] && IsSpace(s[0]) then
      var t := s[1..];
      var r := TrimStart(t);
      assert t[|t| - |r|..] == s[|s| - |r|..];
      assert AllSpace(s[..|s| - |r|]) by {
        forall i | 0 <= i < |s| - |r| ensures IsSpace(s[i]) {
          if i > 0 { assert s[i] == t[..|t| - |r|][i - 1]; }
        }
      }
      r
    else
      assert s[..0] == [];
      s
  }

  /** `s.rstrip()` */
  function TrimEnd(s: string): (r: string)
    ensures |r| <= |s| && r == s[..|r|]
    ensures r == [] || !IsSpace(r[|r| - 1])
    ensures AllSpace(s[|r|..])
  {
    if s != [] && IsSpace(s[|s| - 1]) then
      var t := s[..|s| - 1];
      var r := TrimEnd(t);
      assert t[..|r|] == s[..|r|];
      assert AllSpace(s[|r|..]) by {
        forall i | 0 <= i < |s| - |r| ensures IsSpace(s[|r|..][i]) {
          if i < |s| - 1 - |r| { assert s[|r|..][i] == t[|r|..][i]; }
        }
      }
      r
    else
      assert s[|s|..] == [];
      s
  }

  /** `s.strip()` */
  function Strip(s: string): (r: string)
    ensures NoOuterSpace(r)
    ensures |r| <= |s|
    ensures r == [] <==> AllSpace(s)
  {
    var t := TrimStart(s);
    var r := TrimEnd(t);
    assert r != [] ==> r[0] == t[0];
    assert r == [] ==> AllSpace(s) by {
      if r == [] {
        assert t == [];
        assert s[..|s|] == s;
      }
    }
    r
  }

  lemma {:induction false} StripUnchanged(s: string)
    requires NoOuterSpace(s)
    ensures Strip(s) == s
  {
  }

  lemma {:induction false} TrimStartLeadingSpace(w: string, s: string)
    requires AllSpace(w)
    ensures TrimStart(w + s) == TrimStart(s)
  {
    if w != [] {
      assert (w + s)[0] == w[0] && IsSpace(w[0]);
      assert (w + s)[1..] == w[1..] + s;
      assert AllSpace(w[1..]) by {
        forall i | 0 <= i < |w| - 1 ensures IsSpace(w[1..][i]) { assert w[1..][i] == w[i + 1]; }
      }
      TrimStartLeadingSpace(w[1..], s);
    } else {
      assert w + s == s;
    }
  }

  /** Leading whitespace never survives `strip()`. */
  lemma StripLeadingSpace(w: string, s: string)
    requires AllSpace(w)
    ensures Strip(w + s) == Strip(s)
  {
    TrimStartLeadingSpace(w, s);
  }

  /** A substring of a stripped string: `strip()` keeps a contiguous run. */
  predicate IsInfix(r: string, s: string) {
    exists i, j :: 0 <= i <= j <= |s| && r == s[i..j]
  }

  lemma StripIsInfix(s: string)
    ensures IsInfix(Strip(s), s)
  {
    var t := TrimStart(s);
    var r := TrimEnd(t);
    var i := |s| - |t|;
    assert r == s[i..i + |r|];
  }

  lemma InfixTransitive(r: string, s: string, t: string)
    requires IsInfix(r, s) && IsInfix(s, t)
    ensures IsInfix(r, t)
  {
    var i, j :| 0 <= i <= j <= |s| && r == s[i..j];
    var a, b :| 0 <= a <= b <= |t| && s == t[a..b];
    SliceOfSlice(t, a, b, i, j);
  }

  /** Dropping the first or the last character leaves a substring. */
  lemma EndsCutAreInfixes(s: string)
    requires s != []
    ensures IsInfix(s[1..], s) && IsInfix(s[..|s| - 1], s)
  {
    assert s[1..] == s[1..|s|];
    assert s[..|s| - 1] == s[0..|s| - 1];
  }

  lemma SliceOfSlice(t: string, a: nat, b: nat, i: nat, j: nat)
    requires a <= b <= |t| && i <= j <= b - a
    ensures t[a..b][i..j] == t[a + i..a + j]
  {
    forall k | 0 <= k < j - i ensures t[a..b][i..j][k] == t[a + i..a + j][k] {
      assert t[a..b][i..j][k] == t[a + i + k];
    }
  }

  /** A character property of `s` holds for every substring of it. */
  lemma InfixAll(r: string, s: string, p: char -> bool)
    requires IsInfix(r, s)
    requires forall k :: 0 <= k < |s| ==> p(s[k])
    ensures forall k :: 0 <= k < |r| ==> p(r[k])
  {
    var i, j :| 0 <= i <= j <= |s| && r == s[i..j];
    assert forall k :: 0 <= k < |r| ==> r[k] == s[i + k];
  }

  /** ASCII case folding of one character. */
  function LowerChar(c: char): char {
    if 'A' <= c <= 'Z' then (c as int + 32) as char else c
  }

  /** `s.lower()` restricted to ASCII letters. */
  function Lower(s: string): (r: string)
    ensures |r| == |s|
    ensures forall i :: 0 <= i < |s| ==> r[i] == LowerChar(s[i])
  {
    seq(|s|, i requires 0 <= i < |s| => LowerChar(s[i]))
  }

  lemma {:induction false} LowerAppend(a: string, b: string)
    ensures Lower(a + b) == Lower(a) + Lower(b)
  {
    var l, la, lb := Lower(a + b), Lower(a), Lower(b);
    assert forall i :: 0 <= i < |l| ==> l[i] == (la + lb)[i];
  }

  /** Case folding never turns a letter into whitespace. */
  lemma LowerNoOuterSpace(s: string)
    requires NoOuterSpace(s)
    ensures NoOuterSpace(Lower(s))
  {
    if s != [] {
      assert Lower(s)[0] == LowerChar(s[0]);
      assert Lower(s)[|s| - 1] == LowerChar(s[|s| - 1]);
    }
  }

  lemma LowerIdempotent(s: string)
    ensures Lower(Lower(s)) == Lower(s)
  {
  }

  function StartsWith(s: string, p: string): bool {
    |p| <= |s| && s[..|p|] == p
  }

  function EndsWith(s: string, p: string): bool {
    |p| <= |s| && s[|s| - |p|..] == p
  }

  /** `s.count(c)` for a one-character needle. */
  function CountChar(s: string, c: char): (n: nat)
    ensures n <= |s|
  {
    if s == [] then 0 else (if s[0] == c then 1 else 0) + CountChar(s[1..], c)
  }

  lemma {:induction false} CountCharAppend(a: string, b: string, c: char)
    ensures CountChar(a + b, c) == CountChar(a, c) + CountChar(b, c)
  {
    if a != [] {
      var ab := a + b;
      assert ab[0] == a[0];
      assert ab[1..] == a[1..] + b;
      CountCharAppend(a[1..], b, c);
      assert CountChar(ab, c) == (if a[0] == c then 1 else 0) + CountChar(ab[1..], c);
    } else {
      assert a + b == b;
    }
  }

  lemma {:induction false} CountCharZero(s: string, c: char)
    ensures CountChar(s, c) == 0 <==> c !in s
  {
    if s != [] {
      CountCharZero(s[1..], c);
      assert c in s <==> s[0] == c || c in s[1..];
    }
  }

  /** Length of the maximal prefix of `s` without whitespace. */
  function WordLen(s: string): (n: nat)
    ensures n <= |s|
    ensures forall i :: 0 <= i < n ==> !IsSpace(s[i])
    ensures n == |s| || IsSpace(s[n])
  {
    if s == [] || IsSpace(s[0]) then 0 else 1 + WordLen(s[1..])
  }

  lemma TrimStartEmpty(s: string)
    ensures TrimStart(s) == [] <==> AllSpace(s)
  {
    var t := TrimStart(s);
    if t == [] {
      assert s[..|s|] == s;
    } else {
      assert s[|s| - |t|] == t[0] && !IsSpace(s[|s| - |t|]);
    }
  }

  /** A word in the sense of `str.split()`: non-empty, no whitespace. */
  predicate IsWord(w: string) {
    w != [] && forall i :: 0 <= i < |w| ==> !IsSpace(w[i])
  }

  /** `s.split()` with no separator: the maximal runs of non-whitespace. */
  function Words(s: string): (ws: seq<string>)
    ensures forall k :: 0 <= k < |ws| ==> IsWord(ws[k])
  {
    if s == [] then []
    else if IsSpace(s[0]) then Words(s[1..])
    else
      var n := WordLen(s);
      var w := s[..n];
      assert IsWord(w) by {
        forall i | 0 <= i < n ensures !IsSpace(w[i]) { assert w[i] == s[i]; }
      }
      [w] + Words(s[n..])
  }

  lemma {:induction false} WordsEmpty(s: string)
    ensures Words(s) == [] <==> AllSpace(s)
  {
    if s != [] {
      WordsEmpty(s[1..]);
      assert AllSpace(s) <==> IsSpace(s[0]) && AllSpace(s[1..]) by {
        if IsSpace(s[0]) && AllSpace(s[1..]) {
          forall i | 0 <= i < |s| ensures IsSpace(s[i]) { if i > 0 { assert s[i] == s[1..][i - 1]; } }
        }
      }
    }
  }

  /** `sep.join(ws)` */
  function JoinWith(ws: seq<string>, sep: string): (r: string)
  {
    if ws == [] then "" else if |ws| == 1 then ws[0] else ws[0] + sep + JoinWith(ws[1..], sep)
  }

  lemma {:induction false} JoinWithAppend(a: seq<string>, b: seq<string>, sep: string)
    requires a != [] && b != []
    ensures JoinWith(a + b, sep) == JoinWith(a, sep) + sep + JoinWith(b, sep)
  {
    if |a| == 1 {
      assert a + b == [a[0]] + b;
    } else {
      assert (a + b)[1..] == a[1..] + b;
      JoinWithAppend(a[1..], b, sep);
    }
  }

  lemma {:induction false} JoinWithLast(a: seq<string>, x: string, sep: string)
    ensures JoinWith(a + [x], sep) == if a == [] then x else JoinWith(a, sep) + sep + x
  {
    if a == [] {
      assert a + [x] == [x];
    } else {
      JoinWithAppend(a, [x], sep);
    }
  }

  /** `str(n)` for a natural number. */
  function NatToString(n: nat): (r: string)
    ensures r != []
    ensures forall i :: 0 <= i < |r| ==> '0' <= r[i] <= '9'
  {
    if n < 10 then [Digit(n)] else NatToString(n / 10) + [Digit(n % 10)]
  }

  function Digit(d: nat): (c: char)
    requires d < 10
    ensures '0' <= c <= '9'
  {
    ('0' as int + d) as char
  }

  /** The value of a string of decimal digits. */
  function ParseNat(s: string): nat
    requires forall i :: 0 <= i < |s| ==> '0' <= s[i] <= '9'
  {
    if s == [] then 0 else 10 * ParseNat(s[..|s| - 1]) + (s[|s| - 1] as int - '0' as int)
  }

  lemma {:induction false} NatToStringRoundTrip(n: nat)
    ensures ParseNat(NatToString(n)) == n
  {
    if n >= 10 {
      var r := NatToString(n);
      assert r[..|r| - 1] == NatToString(n / 10);
      NatToStringRoundTrip(n / 10);
    }
  }

  /** `str(i)` for any integer. */
  function IntToString(i: int): (r: string)
    ensures r != []
  {
    if i < 0 then "-" + NatToString(-i) else NatToString(i)
  }

  /** `f"{n:02d}"` for 0 <= n < 100. */
  function Pad2(n: nat): (r: string)
    requires n < 100
    ensures |r| == 2
    ensures forall i :: 0 <= i < 2 ==> '0' <= r[i] <= '9'
    ensures ParseNat(r) == n
  {
    var r := [Digit(n / 10), Digit(n % 10)];
    ParseTwoDigits(r);
    r
  }

  lemma ParseTwoDigits(r: string)
    requires |r| == 2 && '0' <= r[0] <= '9' && '0' <= r[1] <= '9'
    ensures ParseNat(r) == 10 * (r[0] as int - '0' as int) + (r[1] as int - '0' as int)
  {
    var h := r[..1];
    assert h[..0] == [] && h[0] == r[0];
    assert ParseNat(h) == 10 * ParseNat(h[..0]) + (h[0] as int - '0' as int);
    assert ParseNat(r) == 10 * ParseNat(h) + (r[1] as int - '0' as int);
  }

  /** `a or b or ...` over strings: the first non-empty one, or "" when all are empty. */
  function FirstNonEmpty(xs: seq<string>): (r: string)
    ensures r == [] <==> forall i :: 0 <= i < |xs| ==> xs[i] == []
    ensures r != [] ==> exists i :: 0 <= i < |xs| && r == xs[i] && forall j :: 0 <= j < i ==> xs[j] == []
  {
    if xs == [] then []
    else if xs[0] != [] then xs[0]
    else
      var r := FirstNonEmpty(xs[1..]);
      assert forall i :: 0 < i < |xs| ==> xs[i] == xs[1..][i - 1];
      r
  }

  /** `g` is what `a or b or c or d` gives: the first non-empty of the four, else `d`. */
  predicate IsFirstOf4(g: string, a: string, b: string, c: string, d: string) {
    && (a != [] ==> g == a)
    && (a == [] && b != [] ==> g == b)
    && (a == [] && b == [] && c != [] ==> g == c)
    && (a == [] && b == [] && c == [] ==> g == d)
  }

  lemma FirstNonEmptyOf4(a: string, b: string, c: string, d: string)
    ensures IsFirstOf4(FirstNonEmpty([a, b, c, d]), a, b, c, d)
  {
    var xs := [a, b, c, d];
    assert xs[1..] == [b, c, d] && [b, c, d][1..] == [c, d] && [c, d][1..] == [d] && [d][1..] == [];
    if a == [] {
      assert FirstNonEmpty(xs) == FirstNonEmpty([b, c, d]);
      if b == [] {
        assert FirstNonEmpty([b, c, d]) == FirstNonEmpty([c, d]);
        if c == [] {
          assert FirstNonEmpty([c, d]) == FirstNonEmpty([d]);
        }
      }
    }
  }

  /** `s.strip(chars)`: strips only the characters in `cs`. */
  function StripChars(s: string, cs: set<char>): (r: string)
    ensures |r| <= |s|
    ensures r == [] || (r[0] !in cs && r[|r| - 1] !in cs)
    ensures IsInfix(r, s)
  {
    if s == [] then assert s[0..0] == []; []
    else if s[0] in cs then
      var r := StripChars(s[1..], cs);
      EndsCutAreInfixes(s);
      InfixTransitive(r, s[1..], s);
      r
    else if s[|s| - 1] in cs then
      var r := StripChars(s[..|s| - 1], cs);
      EndsCutAreInfixes(s);
      InfixTransitive(r, s[..|s| - 1], s);
      r
    else
      assert s == s[0..|s|];
      s
  }

  /** The index of the last `' '` in `p`, or -1: what `p.rsplit(" ", 1)` splits at. */
  function LastSpace(p: string): (k: int)
    ensures -1 <= k < |p|
    ensures k >= 0 ==> p[k] == ' '
    ensures forall j :: k < j < |p| ==> p[j] != ' '
  {
    if p == [] then -1 else if p[|p| - 1] == ' ' then |p| - 1 else LastSpace(p[..|p| - 1])
  }

  /** `p.rsplit(" ", 1)[0]`: the text before the last space, or all of `p` when it has none. */
  function BeforeLastSpace(p: string): (r: string)
    ensures |r| <= |p| && r == p[..|r|]
    ensures ' ' in p ==> |r| < |p| && p[|r|] == ' ' && ' ' !in p[|r| + 1..]
    ensures ' ' !in p ==> r == p
  {
    var k := LastSpace(p);
    if k < 0 then p
    else
      p[..k]
  }

  /** No two adjacent whitespace characters. */
  predicate NoDoubleSpace(s: string) {
    forall i :: 0 <= i < |s| - 1 ==> !(IsSpace(s[i]) && IsSpace(s[i + 1]))
  }

  lemma InfixNoDoubleSpace(r: string, s: string)
    requires IsInfix(r, s) && NoDoubleSpace(s)
    ensures NoDoubleSpace(r)
  {
    var i, j :| 0 <= i <= j <= |s| && r == s[i..j];
    forall k | 0 <= k < |r| - 1 ensures !(IsSpace(r[k]) && IsSpace(r[k + 1])) {
      assert r[k] == s[i + k] && r[k + 1] == s[i + k + 1];
    }
  }

  /** Length of the whitespace run at the front of `s`. */
  function SpaceLen(s: string): (n: nat)
    ensures n <= |s|
    ensures forall i :: 0 <= i < n ==> IsSpace(s[i])
    ensures n == |s| || !IsSpace(s[n])
  {
    if s == [] || !IsSpace(s[0]) then 0 else 1 + SpaceLen(s[1..])
  }

  /**
   * `re.sub(r"\s{m,}", " ", s)` for m >= 1: every maximal whitespace run of
   * length at least `m` becomes one space, shorter runs stay as they are.
   */
  function SubSpaceRuns(s: string, m: nat): (r: string)
    requires m >= 1
    ensures r == [] || (s != [] && IsSpace(r[0]) == IsSpace(s[0]))
  {
    if s == [] then []
    else if IsSpace(s[0]) then
      var n := SpaceLen(s);
      (if n >= m then " " else s[..n]) + SubSpaceRuns(s[n..], m)
    else [s[0]] + SubSpaceRuns(s[1..], m)
  }

  /** With no two whitespace characters side by side, `re.sub(r"\s{2,}", " ", s)` changes nothing. */
  lemma {:induction false} SubSpaceRunsSingles(s: string)
    requires NoDoubleSpace(s)
    ensures SubSpaceRuns(s, 2) == s
  {
    if s != [] {
      if IsSpace(s[0]) && |s| > 1 {
        assert !IsSpace(s[1]) && s[1..][0] == s[1];
      }
      assert NoDoubleSpace(s[1..]) by {
        forall k | 0 <= k < |s| - 2 ensures !(IsSpace(s[1..][k]) && IsSpace(s[1..][k + 1])) {
          assert s[1..][k] == s[k + 1] && s[1..][k + 1] == s[k + 2];
        }
      }
      SubSpaceRunsSingles(s[1..]);
      assert s == s[..1] + s[1..];
    }
  }

  lemma AllSpaceAppend(a: string, b: string)
    ensures AllSpace(a + b) <==> AllSpace(a) && AllSpace(b)
  {
    assert forall i :: 0 <= i < |a + b| ==> (a + b)[i] == if i < |a| then a[i] else b[i - |a|];
    if AllSpace(a + b) {
      assert forall i :: 0 <= i < |b| ==> b[i] == (a + b)[|a| + i];
    }
  }

  /** Collapsing whitespace runs leaves all-whitespace text all-whitespace, and nothing else. */
  lemma {:induction false} SubSpaceRunsAllSpace(s: string, m: nat)
    requires m >= 1
    ensures AllSpace(SubSpaceRuns(s, m)) <==> AllSpace(s)
    decreases |s|
  {
    if s != [] {
      if IsSpace(s[0]) {
        var n := SpaceLen(s);
        var run := if n >= m then " " else s[..n];
        assert AllSpace(run) && AllSpace(s[..n]);
        SubSpaceRunsAllSpace(s[n..], m);
        AllSpaceAppend(run, SubSpaceRuns(s[n..], m));
        AllSpaceAppend(s[..n], s[n..]);
        assert s == s[..n] + s[n..];
      } else {
        assert SubSpaceRuns(s, m)[0] == s[0];
      }
    }
  }

  /** `re.sub(r"\s+", " ", s)` leaves no two whitespace characters side by side. */
  lemma {:induction false} SubSpaceRunsNoDouble(s: string)
    ensures NoDoubleSpace(SubSpaceRuns(s, 1))
  {
    if s != [] {
      if IsSpace(s[0]) {
        var n := SpaceLen(s);
        SubSpaceRunsNoDouble(s[n..]);
        var t := SubSpaceRuns(s[n..], 1);
        assert t == [] || !IsSpace(t[0]);
        var r := " " + t;
        forall k | 0 <= k < |r| - 1 ensures !(IsSpace(r[k]) && IsSpace(r[k + 1])) {
          if k > 0 { assert r[k] == t[k - 1] && r[k + 1] == t[k]; }
        }
      } else {
        SubSpaceRunsNoDouble(s[1..]);
        var t := SubSpaceRuns(s[1..], 1);
        var r := [s[0]] + t;
        forall k | 0 <= k < |r| - 1 ensures !(IsSpace(r[k]) && IsSpace(r[k + 1])) {
          if k > 0 { assert r[k] == t[k - 1] && r[k + 1] == t[k]; }
        }
      }
    }
  }

  /** Python's `a <= b` on str: lexicographic by code point. */
  predicate StrLe(a: string, b: string) {
    a == [] || (b != [] && (a[0] < b[0] || (a[0] == b[0] && StrLe(a[1..], b[1..]))))
  }

  /** Python's `a < b` on str. */
  predicate StrLt(a: string, b: string) {
    StrLe(a, b) && a != b
  }

  lemma {:induction false} StrLeTotal(a: string, b: string)
    ensures StrLe(a, b) || StrLe(b, a)
  {
    if a != [] && b != [] && a[0] == b[0] {
      StrLeTotal(a[1..], b[1..]);
    }
  }

  lemma {:induction false} StrLeTransitive(a: string, b: string, c: string)
    requires StrLe(a, b) && StrLe(b, c)
    ensures StrLe(a, c)
  {
    if a != [] && b != [] && c != [] && a[0] == b[0] == c[0] {
      StrLeTransitive(a[1..], b[1..], c[1..]);
    }
  }

  lemma {:induction false} StrLeAntisymmetric(a: string, b: string)
    requires StrLe(a, b) && StrLe(b, a)
    ensures a == b
  {
    if a != [] && b != [] {
      StrLeAntisymmetric(a[1..], b[1..]);
      assert a == [a[0]] + a[1..] && b == [b[0]] + b[1..];
    }
  }

  lemma StrLeReflexive(a: string)
    ensures StrLe(a, a)
  {
  }

  /** Both orders on strings that the scripts sort by are total preorders. */
  lemma StrLeFacts()
    ensures forall a, b :: StrLe(a, b) || StrLe(b, a)
    ensures forall a, b, c :: StrLe(a, b) && StrLe(b, c) ==> StrLe(a, c)
    ensures forall a, b :: StrLe(a, b) && StrLe(b, a) ==> a == b
  {
    forall a, b ensures StrLe(a, b) || StrLe(b, a) { StrLeTotal(a, b); }
    forall a, b, c | StrLe(a, b) && StrLe(b, c) ensures StrLe(a, c) { StrLeTransitive(a, b, c); }
    forall a, b | StrLe(a, b) && StrLe(b, a) ensures a == b { StrLeAntisymmetric(a, b); }
  }
}
