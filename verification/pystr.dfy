/** The Python `str` operations the services build their parsers from, with the
    exact CPython semantics the parsers depend on: the whitespace set of
    `strip()`/`split()`, left-to-right non-overlapping `split(sep)`, and the
    lower-casing used for keyword comparisons. */
module PyStr {
  import opened Results

  /** `c.isspace()`: the 29 code points CPython treats as whitespace. */
  predicate IsSpace(c: char) {
    || ('\t' <= c <= '\r')
    || ('\U{1C}' <= c <= ' ')
    || c == '\U{85}' || c == '\U{A0}' || c == '\U{1680}'
    || ('\U{2000}' <= c <= '\U{200A}')
    || c == '\U{2028}' || c == '\U{2029}' || c == '\U{202F}' || c == '\U{205F}'
    || c == '\U{3000}'
  }

  predicate AllSpace(s: string) {
    forall i :: 0 <= i < |s| ==> IsSpace(s[i])
  }

  predicate NoSpace(s: string) {
    forall i :: 0 <= i < |s| ==> !IsSpace(s[i])
  }

  /** `s` has no whitespace at either end: the shape of every `strip()` result. */
  predicate IsStripped(s: string) {
    |s| == 0 || (!IsSpace(s[0]) && !IsSpace(s[|s| - 1]))
  }

  /** `s.lstrip()`. */
  function LStrip(s: string): (r: string)
    ensures |r| <= |s| && r == s[|s| - |r|..]
    ensures AllSpace(s[..|s| - |r|])
    ensures |r| > 0 ==> !IsSpace(r[0])
  {
    if |s| > 0 && IsSpace(s[0]) then LStrip(s[1..]) else s
  }

  /** `s.rstrip()`. */
  function RStrip(s: string): (r: string)
    ensures |r| <= |s| && r == s[..|r|]
    ensures AllSpace(s[|r|..])
    ensures |r| > 0 ==> !IsSpace(r[|r| - 1])
  {
    if |s| > 0 && IsSpace(s[|s| - 1]) then
      var r := RStrip(s[..|s| - 1]);
      assert s[|r|..] == s[..|s| - 1][|r|..] + [s[|s| - 1]];
      r
    else s
  }

  /** `s.strip()`: the text between the leading and the trailing whitespace. */
  function Strip(s: string): (r: string)
    ensures IsStripped(r)
    ensures |r| <= |s|
    ensures r == "" <==> AllSpace(s)
  {
    var t := LStrip(s);
    var r := RStrip(t);
    assert |r| > 0 ==> r[0] == t[0];
    assert r == "" ==> AllSpace(s) by {
      if r == "" {
        assert AllSpace(t);
        assert s == s[..|s| - |t|] + t;
      }
    }
    r
  }

  lemma LStripSpacePrefix(w: string, x: string)
    requires AllSpace(w)
    ensures LStrip(w + x) == LStrip(x)
  {
    if |w| > 0 {
      assert (w + x)[1..] == w[1..] + x;
      LStripSpacePrefix(w[1..], x);
    } else {
      assert w + x == x;
    }
  }

  lemma RStripSpaceSuffix(x: string, w: string)
    requires AllSpace(w)
    ensures RStrip(x + w) == RStrip(x)
  {
    if |w| > 0 {
      assert (x + w)[..|x + w| - 1] == x + w[..|w| - 1];
      RStripSpaceSuffix(x, w[..|w| - 1]);
    } else {
      assert x + w == x;
    }
  }

  lemma LStripAppend(x: string, w: string)
    requires !AllSpace(x)
    ensures LStrip(x + w) == LStrip(x) + w
  {
    if IsSpace(x[0]) {
      assert (x + w)[1..] == x[1..] + w;
      LStripAppend(x[1..], w);
    }
  }

  /** An all-whitespace text strips to nothing from the left. */
  lemma {:induction false} LStripAllSpace(s: string)
    requires AllSpace(s)
    ensures LStrip(s) == ""
  {
    if |s| > 0 {
      LStripAllSpace(s[1..]);
    }
  }

  /** Whitespace around a text never changes what `strip()` returns. */
  lemma StripSurrounded(w1: string, x: string, w2: string)
    requires AllSpace(w1) && AllSpace(w2)
    ensures Strip(w1 + x + w2) == Strip(x)
  {
    var s := w1 + x + w2;
    assert s == w1 + (x + w2);
    LStripSpacePrefix(w1, x + w2);
    if AllSpace(x) {
      forall i | 0 <= i < |x + w2|
        ensures IsSpace((x + w2)[i])
      {
        if i < |x| {
          assert (x + w2)[i] == x[i];
        } else {
          assert (x + w2)[i] == w2[i - |x|];
        }
      }
      LStripAllSpace(x + w2);
      LStripAllSpace(x);
    } else {
      LStripAppend(x, w2);
      RStripSpaceSuffix(LStrip(x), w2);
    }
  }

  /** `strip()` leaves an already stripped text alone. */
  lemma StripIdentity(x: string)
    requires IsStripped(x)
    ensures Strip(x) == x
  {
  }

  /** A word after one space, followed by whitespace, strips to the word. */
  lemma StripSpacedWord(w: string, w2: string)
    requires |w| > 0 && NoSpace(w) && AllSpace(w2)
    ensures Strip(" " + w + w2) == w
  {
    StripSurrounded(" ", w, w2);
    StripIdentity(w);
  }

  /** `sep` occurs in `s` starting at index `i`. */
  predicate OccursAt(s: string, sep: string, i: int) {
    0 <= i && i + |sep| <= |s| && s[i..i + |sep|] == sep
  }

  function FindFrom(s: string, sep: string, from: nat): (r: Option<nat>)
    requires |sep| > 0
    ensures r.Some? ==> from <= r.value && OccursAt(s, sep, r.value)
    ensures forall j :: from <= j && (r.None? || j < r.value) ==> !OccursAt(s, sep, j)
    decreases |s| - from
  {
    if from + |sep| > |s| then None
    else if s[from..from + |sep|] == sep then Some(from)
    else FindFrom(s, sep, from + 1)
  }

  /** `s.find(sep)` for a non-empty `sep`, with None for Python's -1. */
  function Find(s: string, sep: string): (r: Option<nat>)
    requires |sep| > 0
    ensures r.Some? ==> OccursAt(s, sep, r.value)
    ensures forall j :: 0 <= j && (r.None? || j < r.value) ==> !OccursAt(s, sep, j)
  {
    FindFrom(s, sep, 0)
  }

  /** `sep in s` for a non-empty `sep`. */
  predicate Contains(s: string, sep: string)
    requires |sep| > 0
    ensures Contains(s, sep) <==> exists i :: OccursAt(s, sep, i)
  {
    Find(s, sep).Some?
  }

  /** `s.split(sep)` for a non-empty `sep`: the pieces between successive
      non-overlapping occurrences, found left to right. */
  function Split(s: string, sep: string): (parts: seq<string>)
    requires |sep| > 0
    ensures |parts| >= 1
    ensures |parts| >= 2 <==> Find(s, sep).Some?
    decreases |s|
  {
    match Find(s, sep)
    case None => [s]
    case Some(i) => [s[..i]] + Split(s[i + |sep|..], sep)
  }

  /** `sep.join(parts)`. */
  function Join(parts: seq<string>, sep: string): string
  {
    if |parts| == 0 then ""
    else if |parts| == 1 then parts[0]
    else parts[0] + sep + Join(parts[1..], sep)
  }

  /** The first character of `sep` does not occur again in it, so two occurrences
      of `sep` can never overlap. */
  predicate FirstCharUnique(sep: string)
    requires |sep| > 0
  {
    sep[0] !in sep[1..]
  }

  /** Where `x` holds no `sep` and cannot form one together with the `sep` that
      follows it, the first occurrence in `x + sep + y` is right after `x`. */
  lemma FindAfterFree(x: string, sep: string, y: string)
    requires |sep| > 0
    requires !Contains(x, sep)
    requires FirstCharUnique(sep) || |x| == 0 || x[|x| - 1] !in sep
    ensures Find(x + sep + y, sep) == Some(|x|)
  {
    var s := x + sep + y;
    assert s[|x|..|x| + |sep|] == sep;
    assert OccursAt(s, sep, |x|);
    forall j | 0 <= j < |x|
      ensures !OccursAt(s, sep, j)
    {
      if j + |sep| <= |x| {
        assert s[j..j + |sep|] == x[j..j + |sep|];
        assert !OccursAt(x, sep, j);
      } else if FirstCharUnique(sep) {
        var k := |x| - j;
        assert sep[1..][k - 1] == sep[k];
        assert s[j..j + |sep|][k] == s[|x|] == sep[0];
      } else {
        var k := |x| - 1 - j;
        assert s[j..j + |sep|][k] == x[|x| - 1];
      }
    }
  }

  /** Consequence for `split`: the first piece is `x`, the rest is `y` split. */
  lemma SplitAfterFree(x: string, sep: string, y: string)
    requires |sep| > 0
    requires !Contains(x, sep)
    requires FirstCharUnique(sep) || |x| == 0 || x[|x| - 1] !in sep
    ensures Split(x + sep + y, sep) == [x] + Split(y, sep)
  {
    var s := x + sep + y;
    FindAfterFree(x, sep, y);
    assert s[..|x|] == x;
    assert s[|x| + |sep|..] == y;
  }

  /** When no occurrence of `sep` in `x + y` starts inside `x`, the first
      occurrence is the first one in `y`, shifted by `|x|`. */
  lemma FindShift(x: string, y: string, sep: string)
    requires |sep| > 0
    requires forall j :: 0 <= j < |x| ==> !OccursAt(x + y, sep, j)
    ensures Find(x + y, sep).None? <==> Find(y, sep).None?
    ensures Find(y, sep).Some? ==> Find(x + y, sep) == Some(|x| + Find(y, sep).value)
  {
    var s := x + y;
    forall j | |x| <= j
      ensures OccursAt(s, sep, j) <==> OccursAt(y, sep, j - |x|)
    {
      if j + |sep| <= |s| {
        assert s[j..j + |sep|] == y[j - |x|..j - |x| + |sep|];
      }
    }
    if Find(s, sep).Some? {
      var k := Find(s, sep).value;
      assert OccursAt(y, sep, k - |x|);
    }
    if Find(y, sep).Some? {
      var i := Find(y, sep).value;
      assert OccursAt(s, sep, |x| + i);
    }
  }

  /** No occurrence of `sep` can start inside a text lacking `sep`'s first
      character, so the first occurrence in `x + y` is the first one in `y`. */
  lemma FindSkip(x: string, y: string, sep: string)
    requires |sep| > 0
    requires sep[0] !in x
    ensures Find(x + y, sep).None? <==> Find(y, sep).None?
    ensures Find(y, sep).Some? ==> Find(x + y, sep) == Some(|x| + Find(y, sep).value)
  {
    var s := x + y;
    forall j | 0 <= j < |x|
      ensures !OccursAt(s, sep, j)
    {
      if j + |sep| <= |s| {
        assert s[j..j + |sep|][0] == x[j];
      }
    }
    FindShift(x, y, sep);
  }

  /** `split` on `x + y` where `x` lacks the separator's first character: `x`
      is glued to the front of the first piece of `y`. */
  lemma SplitSkip(x: string, y: string, sep: string)
    requires |sep| > 0
    requires sep[0] !in x
    ensures Split(x + y, sep) == [x + Split(y, sep)[0]] + Split(y, sep)[1..]
  {
    FindSkip(x, y, sep);
    SplitGlue(x, y, sep);
  }

  /** Where the first occurrence in `x + y` is the first one in `y`, shifted,
      `x` is glued to the front of the first piece of `y`. */
  lemma SplitGlue(x: string, y: string, sep: string)
    requires |sep| > 0
    requires Find(x + y, sep).None? <==> Find(y, sep).None?
    requires Find(y, sep).Some? ==> Find(x + y, sep) == Some(|x| + Find(y, sep).value)
    ensures Split(x + y, sep) == [x + Split(y, sep)[0]] + Split(y, sep)[1..]
  {
    match Find(y, sep)
    case None =>
      assert Split(x + y, sep) == [x + y];
    case Some(i) =>
      SplitGlueAt(x, y, sep, i);
  }

  lemma SplitGlueAt(x: string, y: string, sep: string, i: nat)
    requires |sep| > 0
    requires Find(y, sep) == Some(i) && Find(x + y, sep) == Some(|x| + i)
    ensures Split(x + y, sep) == [x + Split(y, sep)[0]] + Split(y, sep)[1..]
  {
    var s := x + y;
    var k := |x| + i;
    var rest := y[i + |sep|..];
    SplitAt(y, sep, i);
    SplitAt(s, sep, k);
    assert s[k + |sep|..] == rest;
    assert s[..k] == x + y[..i];
  }

  /** One step of `split`: the piece before the first occurrence, then the rest split. */
  lemma SplitAt(s: string, sep: string, k: nat)
    requires |sep| > 0 && Find(s, sep) == Some(k)
    ensures k + |sep| <= |s|
    ensures Split(s, sep) == [s[..k]] + Split(s[k + |sep|..], sep)
  {
  }

  /** No occurrence of `sep` can span the seam between `x` and `y`. */
  predicate NoStraddle(x: string, y: string, sep: string) {
    |x| == 0 || |y| == 0 || x[|x| - 1] !in sep || y[0] !in sep
  }

  /** Where `x` holds no `sep` and none spans the seam, the first occurrence
      in `x + y` is the first one in `y`. */
  lemma FindPrefix(x: string, y: string, sep: string)
    requires |sep| > 0
    requires !Contains(x, sep) && NoStraddle(x, y, sep)
    ensures Find(x + y, sep).None? <==> Find(y, sep).None?
    ensures Find(y, sep).Some? ==> Find(x + y, sep) == Some(|x| + Find(y, sep).value)
  {
    var s := x + y;
    forall j | 0 <= j < |x|
      ensures !OccursAt(s, sep, j)
    {
      if j + |sep| <= |x| {
        assert s[j..j + |sep|] == x[j..j + |sep|];
        assert !OccursAt(x, sep, j);
      } else if j + |sep| <= |s| {
        assert s[j..j + |sep|][|x| - 1 - j] == x[|x| - 1];
        assert s[j..j + |sep|][|x| - j] == y[0];
      }
    }
    FindShift(x, y, sep);
  }

  /** `split` on `x + y` where `x` is free of `sep` and nothing spans the
      seam: `x` is glued to the front of the first piece of `y`. */
  lemma SplitPrefix(x: string, y: string, sep: string)
    requires |sep| > 0
    requires !Contains(x, sep) && NoStraddle(x, y, sep)
    ensures Split(x + y, sep) == [x + Split(y, sep)[0]] + Split(y, sep)[1..]
  {
    FindPrefix(x, y, sep);
    SplitGlue(x, y, sep);
  }

  /** The second piece of `split` is unaffected by a free prefix. */
  lemma SplitSecond(x: string, y: string, sep: string)
    requires |sep| > 0
    requires !Contains(x, sep) && NoStraddle(x, y, sep)
    ensures |Split(x + y, sep)| >= 2 <==> |Split(y, sep)| >= 2
    ensures |Split(y, sep)| >= 2 ==> Split(x + y, sep)[1] == Split(y, sep)[1]
  {
    SplitPrefix(x, y, sep);
  }

  /** A text free of `sep` splits into itself alone. */
  lemma SplitFree(s: string, sep: string)
    requires |sep| > 0 && !Contains(s, sep)
    ensures Split(s, sep) == [s]
  {
  }

  /** A text that starts with `sep` splits into an empty first piece. */
  lemma SplitAtStart(sep: string, y: string)
    requires |sep| > 0
    ensures Split(sep + y, sep) == [""] + Split(y, sep)
  {
    NotContainsMissingChar("", sep, sep[0]);
    SplitAfterFree("", sep, y);
    assert "" + sep + y == sep + y;
  }

  /** The first piece of `split` holds no separator. */
  lemma SplitHeadFree(s: string, sep: string)
    requires |sep| > 0
    ensures !Contains(Split(s, sep)[0], sep)
  {
    match Find(s, sep)
    case None =>
    case Some(i) =>
      var h := s[..i];
      assert Split(s, sep)[0] == h;
      forall j | 0 <= j && j + |sep| <= |h|
        ensures !OccursAt(h, sep, j)
      {
        assert h[j..j + |sep|] == s[j..j + |sep|];
        assert !OccursAt(s, sep, j);
      }
  }

  /** Nor does the second piece. */
  lemma SplitSecondFree(s: string, sep: string)
    requires |sep| > 0 && |Split(s, sep)| >= 2
    ensures !Contains(Split(s, sep)[1], sep)
  {
    var i := Find(s, sep).value;
    assert Split(s, sep)[1] == Split(s[i + |sep|..], sep)[0];
    SplitHeadFree(s[i + |sep|..], sep);
  }

  /** A suffix of a text free of `sep` is free of it. */
  lemma SuffixFree(x: string, k: nat, sep: string)
    requires |sep| > 0 && k <= |x| && !Contains(x, sep)
    ensures !Contains(x[k..], sep)
  {
    var y := x[k..];
    forall j | 0 <= j && j + |sep| <= |y|
      ensures !OccursAt(y, sep, j)
    {
      assert y[j..j + |sep|] == x[k + j..k + j + |sep|];
      assert !OccursAt(x, sep, k + j);
    }
  }

  /** A text that ends with `sep` contains it. */
  lemma EndsWithContains(x: string, sep: string)
    requires |sep| > 0 && EndsWith(x, sep)
    ensures Contains(x, sep)
  {
    assert OccursAt(x, sep, |x| - |sep|);
  }

  /** Two texts free of `sep` stay free of it when nothing spans the seam. */
  lemma AppendFree(a: string, b: string, sep: string)
    requires |sep| > 0
    requires !Contains(a, sep) && !Contains(b, sep) && NoStraddle(a, b, sep)
    ensures !Contains(a + b, sep)
  {
    var s := a + b;
    forall i | 0 <= i && i + |sep| <= |s|
      ensures !OccursAt(s, sep, i)
    {
      if i + |sep| <= |a| {
        assert s[i..i + |sep|] == a[i..i + |sep|];
        assert !OccursAt(a, sep, i);
      } else if i >= |a| {
        assert s[i..i + |sep|] == b[i - |a|..i - |a| + |sep|];
        assert !OccursAt(b, sep, i - |a|);
      } else {
        assert s[i..i + |sep|][|a| - 1 - i] == a[|a| - 1];
        assert s[i..i + |sep|][|a| - i] == b[0];
      }
    }
  }

  /** A text without some character of `sep` contains no `sep`. */
  lemma NotContainsMissingChar(s: string, sep: string, c: char)
    requires |sep| > 0
    requires c in sep && c !in s
    ensures !Contains(s, sep)
  {
    var k :| 0 <= k < |sep| && sep[k] == c;
    forall i | 0 <= i && i + |sep| <= |s|
      ensures !OccursAt(s, sep, i)
    {
      assert s[i..i + |sep|][k] == s[i + k];
    }
  }

  /** `split` undoes `join` when no part holds the separator. */
  lemma {:induction false} SplitJoin(parts: seq<string>, sep: string)
    requires |sep| > 0 && FirstCharUnique(sep)
    requires |parts| >= 1
    requires forall i :: 0 <= i < |parts| ==> !Contains(parts[i], sep)
    ensures Split(Join(parts, sep), sep) == parts
  {
    if |parts| > 1 {
      SplitJoin(parts[1..], sep);
      SplitAfterFree(parts[0], sep, Join(parts[1..], sep));
      assert parts == [parts[0]] + parts[1..];
    }
  }

  /** A one-character text contains the character as a one-character separator
      exactly when `in` says so. */
  lemma ContainsChar(s: string, c: char)
    ensures Contains(s, [c]) <==> c in s
  {
    if c in s {
      var i :| 0 <= i < |s| && s[i] == c;
      assert s[i..i + 1] == [c];
      assert OccursAt(s, [c], i);
    }
    if Contains(s, [c]) {
      var i :| OccursAt(s, [c], i);
      assert s[i] == s[i..i + 1][0];
    }
  }

  /** The longest whitespace-free prefix of `t`. */
  function TakeWord(t: string): (w: string)
    ensures |w| <= |t| && w == t[..|w|] && NoSpace(w)
    ensures |w| < |t| ==> IsSpace(t[|w|])
  {
    if |t| == 0 || IsSpace(t[0]) then "" else [t[0]] + TakeWord(t[1..])
  }

  /** `s.split()[0]`: the first maximal run of non-whitespace characters; None
      where Python raises IndexError because `s` is all whitespace. */
  function FirstWord(s: string): (r: Option<string>)
    ensures r.None? <==> AllSpace(s)
    ensures r.Some? ==> |r.value| > 0 && NoSpace(r.value)
  {
    var t := LStrip(s);
    assert t == "" ==> s[..|s| - |t|] == s;
    assert t != "" ==> t[0] == s[|s| - |t|];
    if t == "" then None else Some(TakeWord(t))
  }

  lemma {:induction false} TakeWordPrefix(w: string, rest: string)
    requires NoSpace(w)
    requires |rest| == 0 || IsSpace(rest[0])
    ensures TakeWord(w + rest) == w
  {
    if |w| > 0 {
      assert (w + rest)[1..] == w[1..] + rest;
      TakeWordPrefix(w[1..], rest);
      assert w == [w[0]] + w[1..];
    } else {
      assert w + rest == rest;
    }
  }

  /** The first word is the run of non-whitespace characters that follows the
      leading whitespace and stops at whitespace or at the end. */
  lemma FirstWordAfterSpaces(w1: string, w: string, rest: string)
    requires AllSpace(w1) && |w| > 0 && NoSpace(w)
    requires |rest| == 0 || IsSpace(rest[0])
    ensures FirstWord(w1 + w + rest) == Some(w)
  {
    assert w1 + w + rest == w1 + (w + rest);
    LStripSpacePrefix(w1, w + rest);
    assert LStrip(w + rest) == w + rest;
    TakeWordPrefix(w, rest);
  }

  /** The first word ends at or before any whitespace character. */
  lemma {:induction false} WordBeforeSpace(t: string, m: nat)
    requires m < |t| && IsSpace(t[m])
    ensures |TakeWord(t)| <= m
    decreases m
  {
    if m > 0 && !IsSpace(t[0]) {
      assert t[1..][m - 1] == t[m];
      WordBeforeSpace(t[1..], m - 1);
    }
  }

  lemma PrefixSplit(t: string, k: nat, m: nat)
    requires k <= m <= |t|
    ensures t[..m] == t[..k] + t[k..m]
  {
  }

  /** Cutting trailing whitespace off a text never changes its first word. */
  lemma TakeWordSpaceTail(t: string, m: nat)
    requires m <= |t| && AllSpace(t[m..])
    ensures TakeWord(t[..m]) == TakeWord(t)
  {
    var w := TakeWord(t);
    if m < |t| {
      assert t[m..][0] == t[m];
      WordBeforeSpace(t, m);
      var gap := t[|w|..m];
      assert |gap| == 0 || gap[0] == t[|w|];
      TakeWordPrefix(w, gap);
      PrefixSplit(t, |w|, m);
    } else {
      assert t[..m] == t;
    }
  }

  /** `strip()` before `split()[0]` changes nothing: the first word of the
      stripped text is the first word of the text. */
  lemma StripFirstWord(s: string)
    ensures FirstWord(Strip(s)) == FirstWord(s)
  {
    var t := LStrip(s);
    var r := RStrip(t);
    if |t| > 0 {
      assert s[|s| - |t|] == t[0];
      assert Strip(s) == r;
      assert r[0] == t[0];
      assert LStrip(r) == r;
      TakeWordSpaceTail(t, |r|);
    }
  }

  /** `c.lower()` as far as it matters here: ASCII letters, and U+212A KELVIN
      SIGN, the one non-ASCII code point whose lower case is ASCII. */
  function LowerChar(c: char): char {
    if 'A' <= c <= 'Z' then (c as int + 32) as char
    else if c == '\U{212A}' then 'k'
    else c
  }

  /** `s.lower()`, code point by code point. */
  function Lower(s: string): (r: string)
    ensures |r| == |s|
    ensures forall i :: 0 <= i < |s| ==> r[i] == LowerChar(s[i])
  {
    seq(|s|, i requires 0 <= i < |s| => LowerChar(s[i]))
  }

  /** `s.startswith(p)`. */
  predicate StartsWith(s: string, p: string) {
    |p| <= |s| && s[..|p|] == p
  }

  /** `s.endswith(p)`. */
  predicate EndsWith(s: string, p: string) {
    |p| <= |s| && s[|s| - |p|..] == p
  }
}
