/** The parts of Python's `str` behaviour the pipeline relies on, written out
    over `seq<char>`: whitespace (`str.isspace`, which is also what the regex
    class `\s` matches on `str` patterns), `strip()`, the whitespace collapse
    `re.sub(r"\s+", " ", s)`, the slice `s[:n]`, `lower()`, the substring
    operator `in`, and the length of the UTF-8 encoding. */
module PyStr {

  /** `c.isspace()`: the characters Python treats as whitespace. */
  predicate IsSpace(c: char) {
    || c == ' '
    || ('\U{9}' <= c <= '\U{D}')
    || ('\U{1C}' <= c <= '\U{1F}')
    || c == '\U{85}'
    || c == '\U{A0}'
    || c == '\U{1680}'
    || ('\U{2000}' <= c <= '\U{200A}')
    || c == '\U{2028}'
    || c == '\U{2029}'
    || c == '\U{202F}'
    || c == '\U{205F}'
    || c == '\U{3000}'
  }

  ghost predicate AllSpace(s: string) {
    forall i :: 0 <= i < |s| ==> IsSpace(s[i])
  }

  /** The only whitespace character present is the plain space. */
  ghost predicate OnlyPlainSpaces(s: string) {
    forall i :: 0 <= i < |s| && IsSpace(s[i]) ==> s[i] == ' '
  }

  /** No two whitespace characters are adjacent. */
  ghost predicate NoSpaceRuns(s: string) {
    forall i :: 0 < i < |s| && IsSpace(s[i]) ==> !IsSpace(s[i - 1])
  }

  /** What `re.sub(r"\s+", " ", s)` produces: single plain spaces only. */
  ghost predicate Collapsed(s: string) {
    OnlyPlainSpaces(s) && NoSpaceRuns(s)
  }

  /** Neither starts nor ends with whitespace. */
  ghost predicate Trimmed(s: string) {
    |s| > 0 ==> !IsSpace(s[0]) && !IsSpace(s[|s| - 1])
  }

  /** The shape of `re.sub(r"\s+", " ", s).strip()`. */
  ghost predicate IsNormal(s: string) {
    Collapsed(s) && Trimmed(s)
  }

  /** The non-whitespace characters of `s`, in order. */
  function NonSpace(s: string): (r: string)
    ensures |r| <= |s|
    ensures forall i :: 0 <= i < |r| ==> !IsSpace(r[i])
  {
    if |s| == 0 then ""
    else if IsSpace(s[0]) then NonSpace(s[1..])
    else [s[0]] + NonSpace(s[1..])
  }

  /** Length of the maximal whitespace prefix. */
  function LeadingSpaces(s: string): (n: nat)
    ensures n <= |s|
    ensures AllSpace(s[..n])
    ensures n < |s| ==> !IsSpace(s[n])
  {
    if |s| > 0 && IsSpace(s[0]) then
      var m := LeadingSpaces(s[1..]);
      assert s[..1 + m] == [s[0]] + s[1..][..m];
      1 + m
    else 0
  }

  /** Length of the maximal whitespace suffix. */
  function TrailingSpaces(s: string): (n: nat)
    ensures n <= |s|
    ensures AllSpace(s[|s| - n..])
    ensures n < |s| ==> !IsSpace(s[|s| - n - 1])
  {
    if |s| > 0 && IsSpace(s[|s| - 1]) then
      var t := s[..|s| - 1];
      var m := TrailingSpaces(t);
      AllSpaceAppend(t[|t| - m..], [s[|s| - 1]]);
      assert s[|s| - (1 + m)..] == t[|t| - m..] + [s[|s| - 1]];
      1 + m
    else 0
  }

  lemma AllSpaceAppend(a: string, b: string)
    requires AllSpace(a) && AllSpace(b)
    ensures AllSpace(a + b)
  {
  }

  /** `s.strip()`: `s` without its maximal leading and trailing whitespace. */
  function Strip(s: string): (r: string)
    ensures Trimmed(r)
    ensures LeadingSpaces(s) + |r| <= |s|
    ensures r == s[LeadingSpaces(s)..LeadingSpaces(s) + |r|]
    ensures AllSpace(s[..LeadingSpaces(s)])
    ensures AllSpace(s[LeadingSpaces(s) + |r|..])
  {
    var a := LeadingSpaces(s);
    var t := s[a..];
    var b := TrailingSpaces(t);
    var r := t[..|t| - b];
    assert t[|t| - b..] == s[a + |r|..];
    assert |r| > 0 ==> r[0] == s[a] && r[|r| - 1] == t[|t| - b - 1];
    r
  }

  /** `re.sub(r"\s+", " ", s)`: every maximal whitespace run becomes one space. */
  function CollapseSpaces(s: string): (r: string)
    ensures Collapsed(r)
    ensures |r| <= |s|
    ensures |s| > 0 ==> |r| > 0 && r[0] == (if IsSpace(s[0]) then ' ' else s[0])
    decreases |s|
  {
    if |s| == 0 then ""
    else if IsSpace(s[0]) then " " + CollapseSpaces(s[LeadingSpaces(s)..])
    else [s[0]] + CollapseSpaces(s[1..])
  }

  /** `re.sub(r"\s+", " ", s).strip()`. */
  function Normalize(s: string): (r: string)
    ensures IsNormal(r)
    ensures |r| <= |s|
  {
    var c := CollapseSpaces(s);
    var r := Strip(c);
    SliceOfCollapsed(c, LeadingSpaces(c), LeadingSpaces(c) + |r|);
    r
  }

  lemma SliceOfCollapsed(s: string, i: nat, j: nat)
    requires i <= j <= |s|
    requires Collapsed(s)
    ensures Collapsed(s[i..j])
  {
    var t := s[i..j];
    forall k | 0 < k < |t| && IsSpace(t[k])
      ensures !IsSpace(t[k - 1])
    {
      assert t[k] == s[i + k] && t[k - 1] == s[i + k - 1];
    }
  }

  lemma {:induction false} NonSpaceAppend(a: string, b: string)
    ensures NonSpace(a + b) == NonSpace(a) + NonSpace(b)
    decreases |a|
  {
    if |a| > 0 {
      assert (a + b)[1..] == a[1..] + b;
      NonSpaceAppend(a[1..], b);
    } else {
      assert a + b == b;
    }
  }

  lemma {:induction false} NonSpaceOfSpaces(s: string)
    requires AllSpace(s)
    ensures NonSpace(s) == ""
    decreases |s|
  {
    if |s| > 0 {
      NonSpaceOfSpaces(s[1..]);
    }
  }

  /** The whitespace collapse loses no visible character. */
  lemma {:induction false} CollapseKeepsContent(s: string)
    ensures NonSpace(CollapseSpaces(s)) == NonSpace(s)
    decreases |s|
  {
    if |s| > 0 {
      if IsSpace(s[0]) {
        var n := LeadingSpaces(s);
        CollapseKeepsContent(s[n..]);
        NonSpaceAppend(" ", CollapseSpaces(s[n..]));
        assert s == s[..n] + s[n..];
        NonSpaceAppend(s[..n], s[n..]);
        NonSpaceOfSpaces(s[..n]);
      } else {
        CollapseKeepsContent(s[1..]);
        NonSpaceAppend([s[0]], CollapseSpaces(s[1..]));
      }
    }
  }

  /** `strip()` removes whitespace only. */
  lemma StripKeepsContent(s: string)
    ensures NonSpace(Strip(s)) == NonSpace(s)
  {
    var a := LeadingSpaces(s);
    var r := Strip(s);
    assert s == s[..a] + r + s[a + |r|..];
    NonSpaceAppend(s[..a] + r, s[a + |r|..]);
    NonSpaceAppend(s[..a], r);
    NonSpaceOfSpaces(s[..a]);
    NonSpaceOfSpaces(s[a + |r|..]);
  }

  /** Normalisation keeps every visible character, in order. */
  lemma NormalizeKeepsContent(s: string)
    ensures NonSpace(Normalize(s)) == NonSpace(s)
  {
    CollapseKeepsContent(s);
    StripKeepsContent(CollapseSpaces(s));
  }

  lemma {:induction false} CollapseFixesCollapsed(s: string)
    requires Collapsed(s)
    ensures CollapseSpaces(s) == s
    decreases |s|
  {
    if |s| > 0 {
      SliceOfCollapsed(s, 1, |s|);
      CollapseFixesCollapsed(s[1..]);
      if IsSpace(s[0]) {
        assert |s| > 1 ==> !IsSpace(s[1]);
        assert LeadingSpaces(s) == 1;
        assert s == " " + s[1..];
      }
    }
  }

  lemma StripFixesTrimmed(s: string)
    requires Trimmed(s)
    ensures Strip(s) == s
  {
  }

  /** A string already in normal form is left alone, so normalising twice is
      the same as normalising once. */
  lemma NormalizeFixesNormal(s: string)
    requires IsNormal(s)
    ensures Normalize(s) == s
  {
    CollapseFixesCollapsed(s);
    StripFixesTrimmed(s);
  }

  lemma NormalizeIdempotent(s: string)
    ensures Normalize(Normalize(s)) == Normalize(s)
  {
    NormalizeFixesNormal(Normalize(s));
  }

  lemma {:induction false} LeadingSpacesOfRun(w: string, b: string)
    requires AllSpace(w)
    requires |b| > 0 ==> !IsSpace(b[0])
    ensures LeadingSpaces(w + b) == |w|
    decreases |w|
  {
    if |w| > 0 {
      assert (w + b)[1..] == w[1..] + b;
      LeadingSpacesOfRun(w[1..], b);
    } else {
      assert w + b == b;
    }
  }

  lemma {:induction false} LeadingSpacesAppend(x: string, y: string)
    requires LeadingSpaces(x) < |x|
    ensures LeadingSpaces(x + y) == LeadingSpaces(x)
    decreases |x|
  {
    if IsSpace(x[0]) {
      assert (x + y)[1..] == x[1..] + y;
      LeadingSpacesAppend(x[1..], y);
    }
  }

  lemma CollapseOfSpaceHead(s: string)
    requires |s| > 0 && IsSpace(s[0])
    ensures CollapseSpaces(s) == " " + CollapseSpaces(s[LeadingSpaces(s)..])
  {
  }

  lemma CollapseOfCharHead(s: string)
    requires |s| > 0 && !IsSpace(s[0])
    ensures CollapseSpaces(s) == [s[0]] + CollapseSpaces(s[1..])
  {
  }

  lemma CollapseRunAtStart(w: string, b: string)
    requires |w| > 0 && AllSpace(w)
    requires |b| > 0 ==> !IsSpace(b[0])
    ensures CollapseSpaces(w + b) == " " + CollapseSpaces(b)
  {
    LeadingSpacesOfRun(w, b);
    assert (w + b)[|w|..] == b;
    CollapseOfSpaceHead(w + b);
  }

  lemma CollapseAppendCharHead(a: string, x: string)
    requires |a| > 0 && !IsSpace(a[0])
    ensures CollapseSpaces(a + x) == [a[0]] + CollapseSpaces(a[1..] + x)
  {
    assert (a + x)[1..] == a[1..] + x;
  }

  lemma CollapseAppendSpaceHead(a: string, x: string)
    requires |a| > 0 && IsSpace(a[0]) && LeadingSpaces(a) < |a|
    ensures CollapseSpaces(a + x) == " " + CollapseSpaces(a[LeadingSpaces(a)..] + x)
  {
    LeadingSpacesAppend(a, x);
    assert (a + x)[LeadingSpaces(a)..] == a[LeadingSpaces(a)..] + x;
  }

  lemma ConsAppend(h: string, p: string, y: string)
    ensures h + (p + y) == (h + p) + y
  {
  }

  lemma CollapseRunAfterChar(a: string, x: string, y: string)
    requires |a| > 0 && !IsSpace(a[0])
    requires CollapseSpaces(a[1..] + x) == CollapseSpaces(a[1..]) + y
    ensures CollapseSpaces(a + x) == CollapseSpaces(a) + y
  {
    CollapseAppendCharHead(a, x);
    CollapseOfCharHead(a);
    ConsAppend([a[0]], CollapseSpaces(a[1..]), y);
  }

  lemma CollapseRunAfterSpaces(a: string, x: string, y: string)
    requires |a| > 0 && IsSpace(a[0]) && LeadingSpaces(a) < |a|
    requires CollapseSpaces(a[LeadingSpaces(a)..] + x) == CollapseSpaces(a[LeadingSpaces(a)..]) + y
    ensures CollapseSpaces(a + x) == CollapseSpaces(a) + y
  {
    CollapseAppendSpaceHead(a, x);
    CollapseOfSpaceHead(a);
    ConsAppend(" ", CollapseSpaces(a[LeadingSpaces(a)..]), y);
  }

  lemma {:induction false} CollapseRunAfter(a: string, w: string, b: string)
    requires |a| > 0 ==> !IsSpace(a[|a| - 1])
    requires |w| > 0 && AllSpace(w)
    requires |b| > 0 ==> !IsSpace(b[0])
    ensures CollapseSpaces(a + (w + b)) == CollapseSpaces(a) + (" " + CollapseSpaces(b))
    decreases |a|
  {
    if |a| == 0 {
      assert a + (w + b) == w + b;
      CollapseRunAtStart(w, b);
    } else if !IsSpace(a[0]) {
      CollapseRunAfter(a[1..], w, b);
      CollapseRunAfterChar(a, w + b, " " + CollapseSpaces(b));
    } else {
      LeadingSpacesBeforeLast(a);
      CollapseRunAfter(a[LeadingSpaces(a)..], w, b);
      CollapseRunAfterSpaces(a, w + b, " " + CollapseSpaces(b));
    }
  }

  lemma LeadingSpacesBeforeLast(a: string)
    requires |a| > 0 && !IsSpace(a[|a| - 1])
    ensures LeadingSpaces(a) < |a|
  {
  }

  /** Each maximal whitespace run becomes exactly one space: a run `w`
      between text `a` that does not end in whitespace and text `b` that
      does not start with it collapses to a single " ", and the two sides
      collapse on their own. */
  lemma CollapseRun(a: string, w: string, b: string)
    requires |a| > 0 ==> !IsSpace(a[|a| - 1])
    requires |w| > 0 && AllSpace(w)
    requires |b| > 0 ==> !IsSpace(b[0])
    ensures CollapseSpaces(a + w + b) == CollapseSpaces(a) + " " + CollapseSpaces(b)
  {
    CollapseRunAfter(a, w, b);
    ConsAppend(a, w, b);
    ConsAppend(CollapseSpaces(a), " ", CollapseSpaces(b));
  }

  /** Two normal texts separated by any whitespace run normalise to the two
      texts joined by one space: whitespace between words is kept as a
      single space, never dropped. */
  lemma NormalizeJoinsWords(a: string, w: string, b: string)
    requires IsNormal(a) && IsNormal(b) && |a| > 0 && |b| > 0
    requires |w| > 0 && AllSpace(w)
    ensures Normalize(a + w + b) == a + " " + b
  {
    CollapseRun(a, w, b);
    CollapseFixesCollapsed(a);
    CollapseFixesCollapsed(b);
    var c := a + " " + b;
    assert c[0] == a[0] && c[|c| - 1] == b[|b| - 1];
    StripFixesTrimmed(c);
  }

  /** Python `s[:n]` for any integer `n`, negative `n` counting from the end. */
  function PyPrefix(s: string, n: int): (r: string)
    ensures |r| <= |s| && r == s[..|r|]
    ensures 0 <= n ==> |r| == if n < |s| then n else |s|
    ensures n < 0 ==> |r| == if |s| + n < 0 then 0 else |s| + n
  {
    if 0 <= n then (if n < |s| then s[..n] else s)
    else (if |s| + n < 0 then "" else s[..|s| + n])
  }

  const Ellipsis: char := '\U{2026}'

  /** `s[:n] + ("…" if len(s) > n else "")`. */
  function Ellipsize(s: string, n: nat): (r: string)
    ensures |r| <= n + 1
    ensures |r| == n + 1 <==> |s| > n
    ensures |s| <= n ==> r == s
    ensures |s| > n ==> r[..n] == s[..n] && r[n] == Ellipsis
  {
    PyPrefix(s, n) + (if |s| > n then [Ellipsis] else "")
  }

  /** Whether `p` is a prefix of `s` (`s.startswith(p)`). */
  predicate StartsWith(s: string, p: string) {
    |p| <= |s| && s[..|p|] == p
  }

  /** `sub in text`. */
  predicate Contains(text: string, sub: string)
    decreases |text|
  {
    StartsWith(text, sub) || (|text| > 0 && Contains(text[1..], sub))
  }

  /** `sub` occurs in `text` starting at index `i`. */
  ghost predicate OccursAt(text: string, sub: string, i: nat) {
    i + |sub| <= |text| && text[i..i + |sub|] == sub
  }

  /** `sub in text` holds exactly when `sub` occurs at some position of `text`. */
  lemma {:induction false} ContainsIff(text: string, sub: string)
    ensures Contains(text, sub) <==> exists i: nat :: OccursAt(text, sub, i)
    decreases |text|
  {
    if |text| > 0 {
      ContainsIff(text[1..], sub);
      if Contains(text[1..], sub) {
        var i: nat :| OccursAt(text[1..], sub, i);
        assert OccursAt(text, sub, i + 1);
      }
      if StartsWith(text, sub) {
        assert OccursAt(text, sub, 0);
      }
      if exists i: nat :: OccursAt(text, sub, i) {
        var i: nat :| OccursAt(text, sub, i);
        if i > 0 {
          assert OccursAt(text[1..], sub, i - 1);
        }
      }
    } else {
      if exists i: nat :: OccursAt(text, sub, i) {
        assert sub == "";
      }
      if StartsWith(text, sub) {
        assert OccursAt(text, sub, 0);
      }
    }
  }

  /** An occurrence inside a part is an occurrence inside the whole. */
  lemma ContainsInContext(a: string, b: string, c: string, sub: string)
    requires Contains(b, sub)
    ensures Contains(a + b + c, sub)
  {
    ContainsIff(b, sub);
    var i: nat :| OccursAt(b, sub, i);
    assert (a + b + c)[|a| + i..|a| + i + |sub|] == sub;
    assert OccursAt(a + b + c, sub, |a| + i);
    ContainsIff(a + b + c, sub);
  }

  /** `any(w in text for w in words)`. */
  predicate AnyIn(words: seq<string>, text: string) {
    if |words| == 0 then false
    else Contains(text, words[0]) || AnyIn(words[1..], text)
  }

  lemma {:induction false} AnyInIff(words: seq<string>, text: string)
    ensures AnyIn(words, text) <==> exists i :: 0 <= i < |words| && Contains(text, words[i])
    decreases |words|
  {
    if |words| > 0 {
      AnyInIff(words[1..], text);
      if exists i :: 0 <= i < |words| && Contains(text, words[i]) {
        var i :| 0 <= i < |words| && Contains(text, words[i]);
        if i > 0 {
          assert words[1..][i - 1] == words[i];
        }
      }
      if AnyIn(words[1..], text) {
        var i :| 0 <= i < |words[1..]| && Contains(text, words[1..][i]);
        assert words[i + 1] == words[1..][i];
      }
    }
  }

  lemma AnyInContext(words: seq<string>, a: string, b: string, c: string)
    requires AnyIn(words, b)
    ensures AnyIn(words, a + b + c)
  {
    AnyInIff(words, b);
    var i :| 0 <= i < |words| && Contains(b, words[i]);
    ContainsInContext(a, b, c, words[i]);
    AnyInIff(words, a + b + c);
  }

  predicate IsAsciiUpper(c: char) {
    'A' <= c <= 'Z'
  }

  function LowerChar(c: char): char {
    if IsAsciiUpper(c) then (c as int + 32) as char else c
  }

  /** `s.lower()` on the ASCII letters. */
  function Lower(s: string): (r: string)
    ensures |r| == |s|
    ensures forall i :: 0 <= i < |r| ==> !IsAsciiUpper(r[i])
    ensures forall i :: 0 <= i < |s| && !IsAsciiUpper(s[i]) ==> r[i] == s[i]
    ensures forall i :: 0 <= i < |s| && IsAsciiUpper(s[i]) ==> r[i] as int == s[i] as int + 32
  {
    seq(|s|, i requires 0 <= i < |s| => LowerChar(s[i]))
  }

  /** A string holding an upper-case ASCII letter never occurs in lower-cased text. */
  lemma LowerTextHasNoUpper(text: string, sub: string, k: nat)
    requires k < |sub| && IsAsciiUpper(sub[k])
    ensures !Contains(Lower(text), sub)
  {
    var t := Lower(text);
    forall i: nat | i + |sub| <= |t|
      ensures !OccursAt(t, sub, i)
    {
      assert t[i..i + |sub|][k] == t[i + k] != sub[k];
    }
    ContainsIff(t, sub);
  }

  /** Bytes of `c` in UTF-8. */
  function Utf8Width(c: char): nat {
    if c < '\U{80}' then 1
    else if c < '\U{800}' then 2
    else if c < '\U{10000}' then 3
    else 4
  }

  /** `len(s.encode("utf-8"))`. */
  function Utf8Length(s: string): (n: nat)
    ensures |s| <= n <= 4 * |s|
  {
    if |s| == 0 then 0 else Utf8Width(s[0]) + Utf8Length(s[1..])
  }

  /** Python `xs[:n]` for a non-negative `n`, on any list. */
  function Take<T>(xs: seq<T>, n: nat): (r: seq<T>)
    ensures |r| == if n < |xs| then n else |xs|
    ensures r == xs[..|r|]
  {
    if n < |xs| then xs[..n] else xs
  }

  /** `sep.join(parts)`. */
  function Join(sep: string, parts: seq<string>): string {
    if |parts| == 0 then ""
    else if |parts| == 1 then parts[0]
    else parts[0] + sep + Join(sep, parts[1..])
  }
}
