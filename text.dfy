/**
  * The Python `str` operations the pipeline code relies on, over `seq<char>`:
  * `strip`, `lower`, `split()` (whitespace), `split(sep)`, `split(sep, 1)`,
  * `splitlines`, `join`, `startswith`, `in`, `replace` and `int(...)`.
  */
module Text {
  import opened Wrappers

  /** Python's `str.isspace` for one character: what `split()` and `strip()` drop. */
  predicate IsSpace(c: char) {
    || ('\t' <= c <= '\r')
    || ('\U{1C}' <= c <= ' ')
    || c == '\U{85}' || c == '\U{A0}' || c == '\U{1680}'
    || ('\U{2000}' <= c <= '\U{200A}')
    || c == '\U{2028}' || c == '\U{2029}' || c == '\U{202F}' || c == '\U{205F}' || c == '\U{3000}'
  }

  /** The characters at which `str.splitlines` breaks a line. */
  predicate IsLineBreak(c: char) {
    || ('\n' <= c <= '\r')
    || ('\U{1C}' <= c <= '\U{1E}')
    || c == '\U{85}' || c == '\U{2028}' || c == '\U{2029}'
  }

  predicate NoSpaceAtEnds(s: string) {
    s == [] || (!IsSpace(s[0]) && !IsSpace(s[|s| - 1]))
  }

  // ---------------------------------------------------------------- strip

  /** The number of whitespace characters `s` starts with. */
  function LeadingSpaces(s: string): (k: nat)
    ensures k <= |s|
  {
    if |s| > 0 && IsSpace(s[0]) then 1 + LeadingSpaces(s[1..]) else 0
  }

  lemma {:induction false} LeadingSpacesFacts(s: string)
    ensures var k := LeadingSpaces(s);
      && (k < |s| ==> !IsSpace(s[k]))
      && forall i :: 0 <= i < k ==> IsSpace(s[i])
  {
    if |s| > 0 && IsSpace(s[0]) {
      LeadingSpacesFacts(s[1..]);
    }
  }

  /** Where the whitespace `s` ends with begins. */
  function TrailingStart(s: string): (k: nat)
    ensures k <= |s|
  {
    if |s| > 0 && IsSpace(s[|s| - 1]) then TrailingStart(s[..|s| - 1]) else |s|
  }

  lemma {:induction false} TrailingStartFacts(s: string)
    ensures var k := TrailingStart(s);
      && (k > 0 ==> !IsSpace(s[k - 1]))
      && forall i :: k <= i < |s| ==> IsSpace(s[i])
  {
    if |s| > 0 && IsSpace(s[|s| - 1]) {
      TrailingStartFacts(s[..|s| - 1]);
    }
  }

  /** Python's `s.lstrip()`. */
  function TrimStart(s: string): string {
    s[LeadingSpaces(s)..]
  }

  /** Python's `s.rstrip()`. */
  function TrimEnd(s: string): string {
    s[..TrailingStart(s)]
  }

  /** Python's `s.strip()`. */
  function Strip(s: string): (r: string)
    ensures |r| <= |s|
  {
    TrimEnd(TrimStart(s))
  }

  lemma StripEmpty(s: string)
    ensures Strip(s) == [] <==> forall i :: 0 <= i < |s| ==> IsSpace(s[i])
  {
    var k := LeadingSpaces(s);
    var t := s[k..];
    LeadingSpacesFacts(s);
    TrailingStartFacts(t);
    if Strip(s) == [] {
      assert TrailingStart(t) == 0;
      assert k == |s|;
    }
  }

  /** `s.strip()` neither starts nor ends with whitespace, is empty exactly when `s` is
      all whitespace, and is what is left of `s` once its leading and trailing
      whitespace are cut off. */
  lemma StripFacts(s: string)
    ensures var r := Strip(s);
      && NoSpaceAtEnds(r)
      && (r == [] <==> forall i :: 0 <= i < |s| ==> IsSpace(s[i]))
      && r == s[LeadingSpaces(s)..LeadingSpaces(s) + |r|]
  {
    var k := LeadingSpaces(s);
    var t := s[k..];
    var r := t[..TrailingStart(t)];
    LeadingSpacesFacts(s);
    TrailingStartFacts(t);
    assert r == s[k..k + |r|];
    if r != [] {
      assert r[0] == s[k];
    }
    StripEmpty(s);
  }

  lemma StripIdentity(s: string)
    requires NoSpaceAtEnds(s)
    ensures Strip(s) == s
  {
  }

  // ---------------------------------------------------------------- lower

  function LowerChar(c: char): (d: char)
    ensures IsSpace(d) == IsSpace(c)
  {
    if 'A' <= c <= 'Z' then (c as int + 32) as char else c
  }

  /** Python's `s.lower()` on ASCII letters. */
  function Lower(s: string): (r: string)
    ensures |r| == |s| && forall i :: 0 <= i < |s| ==> r[i] == LowerChar(s[i])
  {
    seq(|s|, i requires 0 <= i < |s| => LowerChar(s[i]))
  }

  // ---------------------------------------------------------------- split() on whitespace

  /** The index of the first whitespace character of `s`, or `|s|`. */
  function WordEnd(s: string): (k: nat)
    ensures k <= |s| && (k < |s| ==> IsSpace(s[k]))
    ensures forall i :: 0 <= i < k ==> !IsSpace(s[i])
    ensures s != [] && !IsSpace(s[0]) ==> k > 0
  {
    if s == [] || IsSpace(s[0]) then 0 else 1 + WordEnd(s[1..])
  }

  predicate IsWord(w: string) {
    w != [] && forall i :: 0 <= i < |w| ==> !IsSpace(w[i])
  }

  /** Python's `s.split()`: the maximal runs of non-whitespace characters, in order. */
  function Words(s: string): (r: seq<string>)
    ensures forall w :: w in r ==> IsWord(w)
    decreases |s|
  {
    if s == [] then []
    else if IsSpace(s[0]) then Words(s[1..])
    else
      var k := WordEnd(s);
      [s[..k]] + Words(s[k..])
  }

  function WordCount(s: string): nat {
    |Words(s)|
  }

  lemma WordEndAppend(x: string, y: string)
    requires WordEnd(x) < |x|
    ensures WordEnd(x + y) == WordEnd(x)
    decreases |x|
  {
    if x != [] && !IsSpace(x[0]) {
      assert (x + y)[1..] == x[1..] + y;
      WordEndAppend(x[1..], y);
    }
  }

  lemma WordEndAppendSpace(x: string, y: string)
    requires forall i :: 0 <= i < |x| ==> !IsSpace(x[i])
    requires y == [] || IsSpace(y[0])
    ensures WordEnd(x + y) == |x|
    decreases |x|
  {
    if x != [] {
      assert (x + y)[1..] == x[1..] + y;
      WordEndAppendSpace(x[1..], y);
    }
  }

  /** Splitting at a whitespace boundary: the words of `x + y` are those of `x` followed by
      those of `y` whenever whitespace separates them (or one side is empty). */
  lemma {:induction false} WordsAppend(x: string, y: string)
    requires x == [] || y == [] || IsSpace(x[|x| - 1]) || IsSpace(y[0])
    ensures Words(x + y) == Words(x) + Words(y)
    decreases |x|, 1
  {
    if x == [] {
      assert x + y == y;
    } else if IsSpace(x[0]) {
      assert (x + y)[1..] == x[1..] + y;
      WordsAppend(x[1..], y);
    } else if WordEnd(x) < |x| {
      WordsAppendInner(x, y);
    } else if y == [] {
      assert x + y == x;
    } else {
      WordsAppendLast(x, y);
    }
  }

  lemma {:induction false} WordsAppendInner(x: string, y: string)
    requires x != [] && !IsSpace(x[0]) && WordEnd(x) < |x|
    requires y == [] || IsSpace(x[|x| - 1]) || IsSpace(y[0])
    ensures Words(x + y) == Words(x) + Words(y)
    decreases |x|, 0
  {
    var k := WordEnd(x);
    WordEndAppend(x, y);
    assert (x + y)[..k] == x[..k];
    assert (x + y)[k..] == x[k..] + y;
    WordsAppend(x[k..], y);
  }

  lemma {:induction false} WordsAppendLast(x: string, y: string)
    requires x != [] && !IsSpace(x[0]) && WordEnd(x) == |x|
    requires y != [] && IsSpace(y[0])
    ensures Words(x + y) == Words(x) + Words(y)
  {
    var k := |x|;
    WordEndAppendSpace(x, y);
    assert (x + y)[..k] == x;
    assert (x + y)[k..] == y;
    assert x[..k] == x && x[k..] == [];
    assert Words(x) == [x] + Words([]);
  }

  lemma WordsAllSpace(s: string)
    requires forall i :: 0 <= i < |s| ==> IsSpace(s[i])
    ensures Words(s) == []
    decreases |s|
  {
    if s != [] {
      WordsAllSpace(s[1..]);
    }
  }

  /** Appending a comma glues it to the last word: the word count does not change. */
  lemma {:induction false} WordCountAppendComma(x: string)
    requires x != [] && !IsSpace(x[|x| - 1])
    ensures WordCount(x + ", ") == WordCount(x)
    decreases |x|
  {
    if IsSpace(x[0]) {
      assert (x + ", ")[1..] == x[1..] + ", ";
      WordCountAppendComma(x[1..]);
    } else {
      var k := WordEnd(x);
      if k < |x| {
        WordEndAppend(x, ", ");
        assert (x + ", ")[..k] == x[..k];
        assert (x + ", ")[k..] == x[k..] + ", ";
        WordCountAppendComma(x[k..]);
      } else {
        WordEndAppendSpace(x + ",", " ");
        assert x + ", " == (x + ",") + " ";
        assert (x + ", ")[k + 1..] == " ";
        assert (x + ", ")[..k + 1] == x + ",";
        WordsAllSpace(" ");
        assert x[k..] == [];
      }
    }
  }

  // ---------------------------------------------------------------- join

  /** Python's `sep.join(parts)`. */
  function Join(parts: seq<string>, sep: string): string {
    if |parts| == 0 then ""
    else if |parts| == 1 then parts[0]
    else parts[0] + sep + Join(parts[1..], sep)
  }

  lemma {:induction false} JoinAppend(a: seq<string>, b: seq<string>, sep: string)
    requires a != [] && b != []
    ensures Join(a + b, sep) == Join(a, sep) + sep + Join(b, sep)
    decreases |a|
  {
    if |a| == 1 {
      assert (a + b)[1..] == b;
    } else {
      assert (a + b)[1..] == a[1..] + b;
      JoinAppend(a[1..], b, sep);
    }
  }

  /** Text that starts and ends with a non-blank character. */
  predicate IsTrimmedText(t: string) {
    t != [] && !IsSpace(t[0]) && !IsSpace(t[|t| - 1])
  }

  function SumWordCounts(texts: seq<string>): nat {
    if texts == [] then 0 else WordCount(texts[0]) + SumWordCounts(texts[1..])
  }

  lemma SumWordCountsAppend(a: seq<string>, b: seq<string>)
    ensures SumWordCounts(a + b) == SumWordCounts(a) + SumWordCounts(b)
  {
    if a != [] {
      assert (a + b)[1..] == a[1..] + b;
      SumWordCountsAppend(a[1..], b);
    } else {
      assert a + b == b;
    }
  }

  /** Joining stripped, non-blank texts with ", " neither merges nor splits words. */
  lemma {:induction false} WordCountJoinComma(texts: seq<string>)
    requires texts != []
    requires forall t :: t in texts ==> IsTrimmedText(t)
    ensures WordCount(Join(texts, ", ")) == SumWordCounts(texts)
    ensures IsTrimmedText(Join(texts, ", "))
    decreases |texts|
  {
    assert texts[0] in texts;
    if |texts| > 1 {
      var rest := Join(texts[1..], ", ");
      forall t | t in texts[1..] ensures IsTrimmedText(t) {
        assert t in texts;
      }
      WordCountJoinComma(texts[1..]);
      var x := texts[0] + ", ";
      assert Join(texts, ", ") == x + rest;
      WordsAppend(x, rest);
      WordCountAppendComma(texts[0]);
      assert SumWordCounts(texts) == WordCount(texts[0]) + SumWordCounts(texts[1..]);
      assert (x + rest)[0] == texts[0][0];
      assert (x + rest)[|x + rest| - 1] == rest[|rest| - 1];
    }
  }

  // ---------------------------------------------------------------- normalised text

  /** `" ".join(s.lower().split())`: lower-cased, whitespace runs collapsed, trimmed. */
  function Normalize(s: string): string {
    Join(Words(Lower(s)), " ")
  }

  lemma {:induction false} WordsTrimStart(s: string)
    ensures Words(TrimStart(s)) == Words(s)
    decreases |s|
  {
    if |s| > 0 && IsSpace(s[0]) {
      assert TrimStart(s) == TrimStart(s[1..]);
      WordsTrimStart(s[1..]);
    }
  }

  lemma WordsTrimEnd(s: string)
    ensures Words(TrimEnd(s)) == Words(s)
  {
    var r := TrimEnd(s);
    TrailingStartFacts(s);
    var tail := s[|r|..];
    assert s == r + tail;
    WordsAllSpace(tail);
    WordsAppend(r, tail);
  }

  lemma {:induction false} LeadingSpacesLower(s: string)
    ensures LeadingSpaces(Lower(s)) == LeadingSpaces(s)
    decreases |s|
  {
    if |s| > 0 {
      assert Lower(s)[1..] == Lower(s[1..]);
      LeadingSpacesLower(s[1..]);
    }
  }

  lemma {:induction false} TrailingStartLower(s: string)
    ensures TrailingStart(Lower(s)) == TrailingStart(s)
    decreases |s|
  {
    if |s| > 0 {
      assert Lower(s)[..|s| - 1] == Lower(s[..|s| - 1]);
      TrailingStartLower(s[..|s| - 1]);
    }
  }

  lemma LowerTrimStart(s: string)
    ensures Lower(TrimStart(s)) == TrimStart(Lower(s))
  {
    LeadingSpacesLower(s);
  }

  lemma LowerTrimEnd(s: string)
    ensures Lower(TrimEnd(s)) == TrimEnd(Lower(s))
  {
    TrailingStartLower(s);
  }

  /** Stripping does not change the normalised form. */
  lemma {:induction false} NormalizeStrip(s: string)
    ensures Normalize(Strip(s)) == Normalize(s)
  {
    var t := TrimStart(s);
    LowerTrimStart(s);
    LowerTrimEnd(t);
    WordsTrimEnd(TrimStart(Lower(s)));
    WordsTrimStart(Lower(s));
  }

  // ---------------------------------------------------------------- split(sep)

  /** Python's `s.split(c)` for a one-character separator. */
  function SplitOn(s: string, c: char): (r: seq<string>)
    ensures |r| >= 1
    ensures forall p :: p in r ==> c !in p
  {
    if s == [] then [""]
    else
      var rest := SplitOn(s[1..], c);
      if s[0] == c then [""] + rest else [[s[0]] + rest[0]] + rest[1..]
  }

  /** Joining the pieces back with the separator gives the original text. */
  lemma {:induction false} JoinSplitOn(s: string, c: char)
    ensures Join(SplitOn(s, c), [c]) == s
  {
    if s != [] {
      var rest := SplitOn(s[1..], c);
      JoinSplitOn(s[1..], c);
      if s[0] == c {
        assert ([""] + rest)[1..] == rest;
      } else if |rest| > 1 {
        assert ([[s[0]] + rest[0]] + rest[1..])[1..] == rest[1..];
      }
    }
  }

  /** Splitting a join at a separator that no part contains gives the parts back. */
  lemma {:induction false} SplitOnJoin(parts: seq<string>, c: char)
    requires parts != []
    requires forall p :: p in parts ==> c !in p
    ensures SplitOn(Join(parts, [c]), c) == parts
    decreases |parts|
  {
    if |parts| == 1 {
      SplitOnNoSep(parts[0], c);
    } else {
      SplitOnJoin(parts[1..], c);
      SplitOnPrefix(parts[0], Join(parts[1..], [c]), c);
    }
  }

  lemma SplitOnNoSep(s: string, c: char)
    requires c !in s
    ensures SplitOn(s, c) == [s]
  {
    if s != [] {
      SplitOnNoSep(s[1..], c);
      assert s[0] != c;
      assert [s[0]] + s[1..] == s;
    }
  }

  lemma {:induction false} SplitOnPrefix(p: string, t: string, c: char)
    requires c !in p
    ensures SplitOn(p + [c] + t, c) == [p] + SplitOn(t, c)
    decreases |p|
  {
    if p == [] {
      assert (p + [c] + t)[1..] == t;
    } else {
      assert (p + [c] + t)[1..] == p[1..] + [c] + t;
      assert (p + [c] + t)[0] == p[0] && p[0] != c;
      SplitOnPrefix(p[1..], t, c);
      assert [p[0]] + p[1..] == p;
    }
  }

  /** The index of the first occurrence of `c` in `s`. */
  function IndexOf(s: string, c: char): (i: nat)
    requires c in s
    ensures i < |s| && s[i] == c && c !in s[..i]
  {
    if s[0] == c then 0 else 1 + IndexOf(s[1..], c)
  }

  /** Python's `s.split(c, 1)`: cut at the first separator, if any. */
  function SplitOnce(s: string, c: char): (r: seq<string>)
    ensures c !in s ==> r == [s]
    ensures c in s ==> |r| == 2 && c !in r[0] && s == r[0] + [c] + r[1]
  {
    if c in s then
      var i := IndexOf(s, c);
      assert s == s[..i] + [c] + s[i + 1..];
      [s[..i], s[i + 1..]]
    else [s]
  }

  // ---------------------------------------------------------------- splitlines

  function LineEnd(s: string): (k: nat)
    ensures k <= |s| && (k < |s| ==> IsLineBreak(s[k]))
    ensures forall i :: 0 <= i < k ==> !IsLineBreak(s[i])
  {
    if s == [] || IsLineBreak(s[0]) then 0 else 1 + LineEnd(s[1..])
  }

  predicate NoLineBreaks(s: string) {
    forall i :: 0 <= i < |s| ==> !IsLineBreak(s[i])
  }

  /** Python's `s.splitlines()`: "\r\n" counts as one break and no empty last line is produced. */
  function SplitLines(s: string): (r: seq<string>)
    ensures forall line :: line in r ==> NoLineBreaks(line)
    decreases |s|
  {
    if s == [] then []
    else
      var k := LineEnd(s);
      if k == |s| then [s]
      else
        var next := if s[k] == '\r' && k + 1 < |s| && s[k + 1] == '\n' then k + 2 else k + 1;
        [s[..k]] + SplitLines(s[next..])
  }

  /** Lines without breaks, joined by "\n", split back into themselves (the last one must
      not be empty, since `splitlines` drops a trailing empty line). */
  lemma {:induction false} SplitLinesJoin(lines: seq<string>)
    requires forall k :: 0 <= k < |lines| ==> lines[k] != [] && NoLineBreaks(lines[k])
    ensures SplitLines(Join(lines, "\n")) == lines
    decreases |lines|
  {
    if |lines| == 1 {
      assert LineEnd(lines[0]) == |lines[0]|;
    } else if |lines| > 1 {
      var l := lines[0];
      var rest := Join(lines[1..], "\n");
      var s := l + "\n" + rest;
      assert Join(lines, "\n") == s;
      LineEndAt(s, |l|);
      assert s[..|l|] == l && s[|l| + 1..] == rest;
      SplitLinesJoin(lines[1..]);
    }
  }

  lemma {:induction false} LineEndAt(s: string, k: nat)
    requires k < |s| && IsLineBreak(s[k]) && forall i :: 0 <= i < k ==> !IsLineBreak(s[i])
    ensures LineEnd(s) == k
    decreases k
  {
    if k > 0 {
      LineEndAt(s[1..], k - 1);
    }
  }

  lemma JoinFirst(parts: seq<string>, sep: string)
    requires parts != [] && parts[0] != []
    ensures Join(parts, sep) != [] && Join(parts, sep)[0] == parts[0][0]
  {
  }

  lemma {:induction false} JoinLast(parts: seq<string>, sep: string)
    requires parts != [] && parts[|parts| - 1] != []
    ensures var j := Join(parts, sep); j != [] && j[|j| - 1] == parts[|parts| - 1][|parts[|parts| - 1]| - 1]
    decreases |parts|
  {
    if |parts| > 1 {
      JoinLast(parts[1..], sep);
    }
  }

  // ---------------------------------------------------------------- prefixes, infixes, replace

  predicate StartsWith(s: string, p: string) {
    |p| <= |s| && s[..|p|] == p
  }

  /** Python's `p in s` for strings. */
  predicate Contains(s: string, p: string)
    decreases |s|
  {
    StartsWith(s, p) || (s != [] && Contains(s[1..], p))
  }

  lemma {:induction false} ContainsAt(s: string, p: string, i: nat)
    requires i + |p| <= |s| && s[i..i + |p|] == p
    ensures Contains(s, p)
    decreases i
  {
    if i > 0 {
      assert s[1..][i - 1..i - 1 + |p|] == s[i..i + |p|];
      ContainsAt(s[1..], p, i - 1);
    }
  }

  /** Python's `s.replace(pat, rep)`: left to right, non-overlapping. */
  function Replace(s: string, pat: string, rep: string): string
    requires pat != []
    decreases |s|
  {
    if |s| < |pat| then s
    else if s[..|pat|] == pat then rep + Replace(s[|pat|..], pat, rep)
    else [s[0]] + Replace(s[1..], pat, rep)
  }

  /** Replacing one character by another works character by character. */
  lemma {:induction false} ReplaceChar(s: string, a: char, b: char)
    ensures |Replace(s, [a], [b])| == |s|
    ensures forall i :: 0 <= i < |s| ==> Replace(s, [a], [b])[i] == (if s[i] == a then b else s[i])
  {
    if s != [] {
      ReplaceChar(s[1..], a, b);
    }
  }

  /** Text without an occurrence of the pattern is left alone. */
  lemma {:induction false} ReplaceAbsent(s: string, pat: string, rep: string)
    requires pat != [] && !Contains(s, pat)
    ensures Replace(s, pat, rep) == s
    decreases |s|
  {
    if |s| >= |pat| {
      ReplaceAbsent(s[1..], pat, rep);
    }
  }

  // ---------------------------------------------------------------- integers

  predicate IsDigit(c: char) {
    '0' <= c <= '9'
  }

  predicate AllDigits(s: string) {
    forall i :: 0 <= i < |s| ==> IsDigit(s[i])
  }

  function DigitsValue(s: string): nat
    requires AllDigits(s)
  {
    if s == [] then 0 else 10 * DigitsValue(s[..|s| - 1]) + (s[|s| - 1] as int - '0' as int)
  }

  /** Python's `int(s)` for an optional sign followed by ASCII decimal digits,
      surrounded by optional whitespace; anything else raises ValueError (None here). */
  function ParseInt(s: string): Option<int> {
    var t := Strip(s);
    if |t| > 0 && (t[0] == '-' || t[0] == '+') then
      var d := t[1..];
      if d != [] && AllDigits(d) then
        var v: int := DigitsValue(d);
        Some(if t[0] == '-' then -v else v)
      else None
    else if t != [] && AllDigits(t) then Some(DigitsValue(t))
    else None
  }

  function DigitChar(d: nat): (c: char)
    requires d < 10
    ensures IsDigit(c) && c as int - '0' as int == d
  {
    ('0' as int + d) as char
  }

  /** Python's `str(n)` for a natural number. */
  function NatToString(n: nat): (r: string)
    ensures r != [] && AllDigits(r)
  {
    if n < 10 then [DigitChar(n)] else NatToString(n / 10) + [DigitChar(n % 10)]
  }

  /** Python's `str(i)` for an integer. */
  function IntToString(i: int): string {
    if i < 0 then "-" + NatToString(-i) else NatToString(i)
  }

  lemma {:induction false} NatToStringValue(n: nat)
    ensures DigitsValue(NatToString(n)) == n
  {
    if n >= 10 {
      var r := NatToString(n);
      assert r[..|r| - 1] == NatToString(n / 10);
      NatToStringValue(n / 10);
    }
  }

  /** `int(str(i)) == i`. */
  lemma {:induction false} ParseIntToString(i: int)
    ensures ParseInt(IntToString(i)) == Some(i)
  {
    var n: nat := if i < 0 then -i else i;
    var digits := NatToString(n);
    NatToStringValue(n);
    var s := IntToString(i);
    assert IsDigit(digits[0]) && IsDigit(digits[|digits| - 1]);
    if i < 0 {
      assert s == "-" + digits;
      assert s[0] == '-' && s[|s| - 1] == digits[|digits| - 1];
      StripIdentity(s);
      assert s[1..] == digits;
    } else {
      assert s == digits;
      StripIdentity(s);
    }
  }

  lemma IntToStringNoComma(i: int)
    ensures ',' !in IntToString(i)
  {
    var n: nat := if i < 0 then -i else i;
    var digits := NatToString(n);
    assert forall k :: 0 <= k < |digits| ==> IsDigit(digits[k]);
  }
}
