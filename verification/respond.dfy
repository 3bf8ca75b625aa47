/** `respond_node` (`src/respond_node.py`): score the candidates, pick up to
    three, classify their significance, draft a summary, post it for
    approval, wait for the decision and record the snapshot only when it is
    approved. The language model, the chat transport and the snapshot store
    are outside the model: the stage receives their outcomes. */
module Respond {
  import opened Optional
  import opened PyStr
  import opened State
  import opened Tools

  // ---------------------------------------------------------------------
  // Relevance score
  // ---------------------------------------------------------------------

  /** Commercial-signal vocabulary. */
  const Commercial: seq<string> :=
    ["price", "pricing", "plan", "feature", "new", "launch", "release", "changelog", "package", "tier", "trial"]

  /** Customer-segment vocabulary, exactly as written: "SMB" is upper-case and
      is compared with lower-cased text, so it never matches. */
  const Segment: seq<string> :=
    ["enterprise", "startup", "SMB", "case study", "integration", "salesforce", "hubspot", "zendesk", "segment", "snowflake"]

  /** The segment vocabulary without its dead entry. */
  const SegmentWithoutSmb: seq<string> :=
    ["enterprise", "startup", "case study", "integration", "salesforce", "hubspot", "zendesk", "segment", "snowflake"]

  const ScoreThreshold := 2
  const MaxPicked := 3

  /** The text a candidate is scored on: title and evidence, lower-cased. */
  function ScoreText(c: Candidate): string {
    Lower(c.title + " " + c.evidence)
  }

  function LowerAll(words: seq<string>): (r: seq<string>)
    ensures |r| == |words|
    ensures forall i :: 0 <= i < |words| ==> r[i] == Lower(words[i])
  {
    seq(|words|, i requires 0 <= i < |words| => Lower(words[i]))
  }

  predicate KeywordRule(c: Candidate, keywords: seq<string>) {
    AnyIn(LowerAll(keywords), ScoreText(c))
  }

  predicate CommercialRule(c: Candidate) {
    AnyIn(Commercial, ScoreText(c))
  }

  predicate SegmentRule(c: Candidate) {
    AnyIn(Segment, ScoreText(c))
  }

  function Point(b: bool): nat {
    if b then 1 else 0
  }

  /** `_score_candidate`: one point for each rule that fires. */
  function Score(c: Candidate, keywords: seq<string>): (s: int)
    ensures 0 <= s <= 3
    ensures s == 0 <==> !KeywordRule(c, keywords) && !CommercialRule(c) && !SegmentRule(c)
    ensures s == 3 <==> KeywordRule(c, keywords) && CommercialRule(c) && SegmentRule(c)
    ensures s >= ScoreThreshold <==>
              || (KeywordRule(c, keywords) && CommercialRule(c))
              || (KeywordRule(c, keywords) && SegmentRule(c))
              || (CommercialRule(c) && SegmentRule(c))
  {
    Point(KeywordRule(c, keywords)) + Point(CommercialRule(c)) + Point(SegmentRule(c))
  }

  /** The keyword rule is case-insensitive substring search: it fires exactly
      when some keyword, lower-cased, occurs in the lower-cased title + " " +
      evidence. */
  lemma KeywordRuleIff(c: Candidate, keywords: seq<string>)
    ensures KeywordRule(c, keywords) <==>
            exists i :: 0 <= i < |keywords| && Contains(Lower(c.title + " " + c.evidence), Lower(keywords[i]))
  {
    AnyInIff(LowerAll(keywords), ScoreText(c));
  }

  lemma {:induction false} LowerIdempotent(s: string)
    ensures Lower(Lower(s)) == Lower(s)
  {
    var l := Lower(s);
    forall i | 0 <= i < |l| ensures Lower(l)[i] == l[i] {
      assert !IsAsciiUpper(l[i]);
    }
  }

  /** Upper- or lower-case keywords score alike. */
  lemma KeywordCaseIgnored(c: Candidate, keywords: seq<string>)
    ensures Score(c, LowerAll(keywords)) == Score(c, keywords)
  {
    var a := LowerAll(LowerAll(keywords));
    forall i | 0 <= i < |keywords| ensures a[i] == LowerAll(keywords)[i] {
      LowerIdempotent(keywords[i]);
    }
    assert a == LowerAll(keywords);
  }

  /** Dropping a word that does not occur leaves `any(w in text ...)` as it was. */
  lemma AnyInDrop(words: seq<string>, k: nat, text: string)
    requires k < |words| && !Contains(text, words[k])
    ensures AnyIn(words, text) <==> AnyIn(words[..k] + words[k + 1..], text)
  {
    var rest := words[..k] + words[k + 1..];
    AnyInIff(words, text);
    AnyInIff(rest, text);
    if AnyIn(words, text) {
      var i :| 0 <= i < |words| && Contains(text, words[i]);
      var j := if i < k then i else i - 1;
      assert rest[j] == words[i];
    }
    if AnyIn(rest, text) {
      var j :| 0 <= j < |rest| && Contains(text, rest[j]);
      var i := if j < k then j else j + 1;
      assert words[i] == rest[j];
    }
  }

  /** "SMB" never contributes: the segment rule fires exactly as it would
      without it. */
  lemma SmbNeverMatches(c: Candidate)
    ensures SegmentRule(c) <==> AnyIn(SegmentWithoutSmb, ScoreText(c))
  {
    LowerTextHasNoUpper(c.title + " " + c.evidence, "SMB", 0);
    assert Segment[2] == "SMB";
    assert Segment[..2] + Segment[3..] == SegmentWithoutSmb by {
      var d := Segment[..2] + Segment[3..];
      forall i | 0 <= i < |d| ensures d[i] == SegmentWithoutSmb[i] {
        if i < 2 { assert d[i] == Segment[i]; } else { assert d[i] == Segment[i + 1]; }
      }
    }
    AnyInDrop(Segment, 2, ScoreText(c));
  }

  // ---------------------------------------------------------------------
  // Stable sort by a key, descending
  // ---------------------------------------------------------------------

  ghost predicate SortedDesc<T>(s: seq<T>, key: T -> int) {
    forall i, j :: 0 <= i < j < |s| ==> key(s[i]) >= key(s[j])
  }

  /** The elements of `s` whose key is `v`, in order. */
  function KeyIs<T>(s: seq<T>, key: T -> int, v: int): (r: seq<T>)
    ensures |r| <= |s|
    ensures forall i :: 0 <= i < |r| ==> key(r[i]) == v
  {
    if |s| == 0 then [] else (if key(s[0]) == v then [s[0]] else []) + KeyIs(s[1..], key, v)
  }

  /** The elements of `s` whose key is at least `k`, in order. */
  function KeyAtLeast<T>(s: seq<T>, key: T -> int, k: int): (r: seq<T>)
    ensures |r| <= |s|
    ensures forall i :: 0 <= i < |r| ==> key(r[i]) >= k
  {
    if |s| == 0 then []
    else
      var rest := KeyAtLeast(s[1..], key, k);
      if key(s[0]) >= k then [s[0]] + rest else rest
  }

  /** Put `x` in front of the first element whose key does not exceed its own. */
  function Insert<T>(x: T, t: seq<T>, key: T -> int): (r: seq<T>)
    ensures |r| == |t| + 1
    ensures multiset(r) == multiset{x} + multiset(t)
    decreases |t|
  {
    if |t| == 0 then [x]
    else if key(x) >= key(t[0]) then [x] + t
    else
      assert t == [t[0]] + t[1..];
      [t[0]] + Insert(x, t[1..], key)
  }

  lemma {:induction false} InsertSorted<T>(x: T, t: seq<T>, key: T -> int)
    requires SortedDesc(t, key)
    ensures SortedDesc(Insert(x, t, key), key)
    decreases |t|
  {
    if |t| > 0 && key(x) < key(t[0]) {
      InsertSorted(x, t[1..], key);
      var r' := Insert(x, t[1..], key);
      var r := [t[0]] + r';
      assert Insert(x, t, key) == r;
      forall j | 0 <= j < |r'| ensures key(t[0]) >= key(r'[j]) {
        assert r'[j] in multiset{x} + multiset(t[1..]);
        if r'[j] != x {
          assert r'[j] in t[1..];
        }
      }
    }
  }

  function Keep<T>(y: T, key: T -> int, v: int): seq<T> {
    if key(y) == v then [y] else []
  }

  lemma KeyIsCons<T>(y: T, s: seq<T>, key: T -> int, v: int)
    ensures KeyIs([y] + s, key, v) == Keep(y, key, v) + KeyIs(s, key, v)
  {
    assert ([y] + s)[1..] == s;
  }

  lemma {:induction false} InsertKeepsTies<T>(x: T, t: seq<T>, key: T -> int, v: int)
    ensures KeyIs(Insert(x, t, key), key, v) == KeyIs([x] + t, key, v)
    decreases |t|
  {
    if |t| > 0 && key(x) < key(t[0]) {
      var r' := Insert(x, t[1..], key);
      calc {
        KeyIs(Insert(x, t, key), key, v);
        KeyIs([t[0]] + r', key, v);
        { KeyIsCons(t[0], r', key, v); }
        Keep(t[0], key, v) + KeyIs(r', key, v);
        { InsertKeepsTies(x, t[1..], key, v); }
        Keep(t[0], key, v) + KeyIs([x] + t[1..], key, v);
        { KeyIsCons(x, t[1..], key, v); }
        Keep(t[0], key, v) + (Keep(x, key, v) + KeyIs(t[1..], key, v));
        Keep(x, key, v) + (Keep(t[0], key, v) + KeyIs(t[1..], key, v));
        { KeyIsCons(t[0], t[1..], key, v); assert t == [t[0]] + t[1..]; }
        Keep(x, key, v) + KeyIs(t, key, v);
        { KeyIsCons(x, t, key, v); }
        KeyIs([x] + t, key, v);
      }
    }
  }

  /** A stable sort, highest key first: `sorted(s, key=key, reverse=True)`.
      Python's sort is stable also in reverse, so elements with equal keys
      keep their input order. */
  function SortDesc<T>(s: seq<T>, key: T -> int): (r: seq<T>)
    ensures |r| == |s|
    ensures multiset(r) == multiset(s)
    ensures SortedDesc(r, key)
    decreases |s|
  {
    if |s| == 0 then []
    else
      var rest := SortDesc(s[1..], key);
      InsertSorted(s[0], rest, key);
      assert s == [s[0]] + s[1..];
      Insert(s[0], rest, key)
  }

  /** The sort is stable: for every key value, the elements with that key
      come out in the order they went in. */
  lemma {:induction false} SortDescKeepsTies<T>(s: seq<T>, key: T -> int, v: int)
    ensures KeyIs(SortDesc(s, key), key, v) == KeyIs(s, key, v)
    decreases |s|
  {
    if |s| > 0 {
      var rest := SortDesc(s[1..], key);
      calc {
        KeyIs(SortDesc(s, key), key, v);
        KeyIs(Insert(s[0], rest, key), key, v);
        { InsertKeepsTies(s[0], rest, key, v); }
        KeyIs([s[0]] + rest, key, v);
        { KeyIsCons(s[0], rest, key, v); }
        Keep(s[0], key, v) + KeyIs(rest, key, v);
        { SortDescKeepsTies(s[1..], key, v); }
        Keep(s[0], key, v) + KeyIs(s[1..], key, v);
        { KeyIsCons(s[0], s[1..], key, v); assert s == [s[0]] + s[1..]; }
        KeyIs(s, key, v);
      }
    }
  }

  lemma {:induction false} KeyAtLeastOfSortedIsPrefix<T>(s: seq<T>, key: T -> int, k: int)
    requires SortedDesc(s, key)
    ensures KeyAtLeast(s, key, k) == s[..|KeyAtLeast(s, key, k)|]
    decreases |s|
  {
    if |s| > 0 {
      var rest := KeyAtLeast(s[1..], key, k);
      if key(s[0]) >= k {
        KeyAtLeastOfSortedIsPrefix(s[1..], key, k);
        assert rest == s[1..][..|rest|];
        assert [s[0]] + rest == s[..1 + |rest|];
      } else {
        KeyAtLeastNoneBelow(s, key, k);
      }
    }
  }

  lemma {:induction false} KeyAtLeastNoneBelow<T>(s: seq<T>, key: T -> int, k: int)
    requires forall i :: 0 <= i < |s| ==> key(s[i]) < k
    ensures KeyAtLeast(s, key, k) == []
    decreases |s|
  {
    if |s| > 0 {
      KeyAtLeastNoneBelow(s[1..], key, k);
    }
  }

  lemma {:induction false} KeyAtLeastFindsMember<T>(s: seq<T>, key: T -> int, k: int, x: T)
    requires x in s && key(x) >= k
    ensures |KeyAtLeast(s, key, k)| > 0
    decreases |s|
  {
    if key(s[0]) < k {
      KeyAtLeastFindsMember(s[1..], key, k, x);
    }
  }

  lemma {:induction false} KeyIsOfKeyAtLeast<T>(s: seq<T>, key: T -> int, k: int, v: int)
    ensures KeyIs(KeyAtLeast(s, key, k), key, v) == if v >= k then KeyIs(s, key, v) else []
    decreases |s|
  {
    if |s| > 0 {
      KeyIsOfKeyAtLeast(s[1..], key, k, v);
      if key(s[0]) >= k {
        assert ([s[0]] + KeyAtLeast(s[1..], key, k))[1..] == KeyAtLeast(s[1..], key, k);
      }
    }
  }

  lemma {:induction false} KeyIsOfPrefix<T>(s: seq<T>, key: T -> int, n: nat, v: int)
    requires n <= |s|
    ensures KeyIs(s[..n], key, v) <= KeyIs(s, key, v)
    decreases |s|
  {
    if n > 0 {
      KeyIsOfPrefix(s[1..], key, n - 1, v);
      assert s[..n][1..] == s[1..][..n - 1];
    }
  }

  lemma PrefixMultiset<T>(s: seq<T>, n: nat)
    requires n <= |s|
    ensures multiset(s[..n]) <= multiset(s)
  {
    assert s == s[..n] + s[n..];
  }

  // ---------------------------------------------------------------------
  // Top elements by a key
  // ---------------------------------------------------------------------

  /** The elements stably sorted by `key`, highest first; of those with key
      at least `k`, the first `max`; if there are none and `force` is set,
      the first `max` of the sorted list whatever their key. */
  function Top<T>(s: seq<T>, key: T -> int, k: int, max: nat, force: bool): seq<T> {
    var sorted := SortDesc(s, key);
    var picked := Take(KeyAtLeast(sorted, key, k), max);
    if |picked| == 0 && force && |s| > 0 then Take(sorted, max) else picked
  }

  /** The top elements are always a prefix of the sorted list. */
  lemma TopIsSortedPrefix<T>(s: seq<T>, key: T -> int, k: int, max: nat, force: bool)
    ensures var sorted := SortDesc(s, key);
            var top := Top(s, key, k, max, force);
            |top| <= |sorted| && top == sorted[..|top|]
  {
    var sorted := SortDesc(s, key);
    var qualified := KeyAtLeast(sorted, key, k);
    KeyAtLeastOfSortedIsPrefix(sorted, key, k);
    var picked := Take(qualified, max);
    assert picked == sorted[..|picked|] by {
      assert picked == qualified[..|picked|];
    }
  }

  lemma TopBounded<T>(s: seq<T>, key: T -> int, k: int, max: nat, force: bool)
    ensures |Top(s, key, k, max, force)| <= max
    ensures multiset(Top(s, key, k, max, force)) <= multiset(s)
  {
    TopIsSortedPrefix(s, key, k, max, force);
    PrefixMultiset(SortDesc(s, key), |Top(s, key, k, max, force)|);
  }

  lemma TopOrdered<T>(s: seq<T>, key: T -> int, k: int, max: nat, force: bool)
    ensures SortedDesc(Top(s, key, k, max, force), key)
  {
    TopIsSortedPrefix(s, key, k, max, force);
  }

  lemma TopKeepsTies<T>(s: seq<T>, key: T -> int, k: int, max: nat, force: bool, v: int)
    ensures KeyIs(Top(s, key, k, max, force), key, v) <= KeyIs(s, key, v)
  {
    TopIsSortedPrefix(s, key, k, max, force);
    KeyIsOfPrefix(SortDesc(s, key), key, |Top(s, key, k, max, force)|, v);
    SortDescKeepsTies(s, key, v);
  }

  lemma TopThreshold<T>(s: seq<T>, key: T -> int, k: int, max: nat, force: bool, x: T)
    requires x in s && key(x) >= k && max > 0
    ensures var top := Top(s, key, k, max, force);
            |top| > 0 && forall j :: 0 <= j < |top| ==> key(top[j]) >= k
  {
    var sorted := SortDesc(s, key);
    assert x in multiset(sorted);
    KeyAtLeastFindsMember(sorted, key, k, x);
  }

  lemma TopEmptyIff<T>(s: seq<T>, key: T -> int, k: int, max: nat, force: bool)
    requires max > 0
    ensures |Top(s, key, k, max, force)| == 0 <==>
            (forall i :: 0 <= i < |s| ==> key(s[i]) < k) && (!force || |s| == 0)
  {
    if exists i :: 0 <= i < |s| && key(s[i]) >= k {
      var i :| 0 <= i < |s| && key(s[i]) >= k;
      TopThreshold(s, key, k, max, force, s[i]);
    } else {
      var sorted := SortDesc(s, key);
      forall j | 0 <= j < |sorted| ensures key(sorted[j]) < k {
        assert sorted[j] in multiset(s);
      }
      KeyAtLeastNoneBelow(sorted, key, k);
    }
  }

  lemma KeyAtLeastCons<T>(y: T, s: seq<T>, key: T -> int, k: int)
    ensures |KeyAtLeast([y] + s, key, k)| == Point(key(y) >= k) + |KeyAtLeast(s, key, k)|
  {
    assert ([y] + s)[1..] == s;
  }

  lemma {:induction false} InsertKeepsCount<T>(x: T, t: seq<T>, key: T -> int, k: int)
    ensures |KeyAtLeast(Insert(x, t, key), key, k)| == |KeyAtLeast([x] + t, key, k)|
    decreases |t|
  {
    if |t| > 0 && key(x) < key(t[0]) {
      var r' := Insert(x, t[1..], key);
      assert Insert(x, t, key) == [t[0]] + r';
      KeyAtLeastCons(t[0], r', key, k);
      InsertKeepsCount(x, t[1..], key, k);
      KeyAtLeastCons(x, t[1..], key, k);
      KeyAtLeastCons(x, t, key, k);
      assert t == [t[0]] + t[1..];
      KeyAtLeastCons(t[0], t[1..], key, k);
    }
  }

  /** Sorting keeps the number of elements whose key is at least `k`. */
  lemma {:induction false} SortKeepsCount<T>(s: seq<T>, key: T -> int, k: int)
    ensures |KeyAtLeast(SortDesc(s, key), key, k)| == |KeyAtLeast(s, key, k)|
    decreases |s|
  {
    if |s| > 0 {
      var rest := SortDesc(s[1..], key);
      InsertKeepsCount(s[0], rest, key, k);
      KeyAtLeastCons(s[0], rest, key, k);
      SortKeepsCount(s[1..], key, k);
      assert s == [s[0]] + s[1..];
      KeyAtLeastCons(s[0], s[1..], key, k);
    }
  }

  function Min(a: nat, b: nat): nat {
    if a < b then a else b
  }

  /** How many elements are on top: `max` of those with key at least `k`
      when there are any, otherwise `max` of all of them when forced. */
  lemma TopCount<T>(s: seq<T>, key: T -> int, k: int, max: nat, force: bool)
    ensures var n := |KeyAtLeast(s, key, k)|;
            |Top(s, key, k, max, force)| == if n > 0 then Min(max, n) else if force then Min(max, |s|) else 0
  {
    SortKeepsCount(s, key, k);
  }

  // ---------------------------------------------------------------------
  // Selection
  // ---------------------------------------------------------------------

  function ScoreKey(keywords: seq<string>): Candidate -> int {
    c => Score(c, keywords)
  }

  /** Top candidates: the candidates stably sorted by score, highest first;
      those scoring at least 2, at most three of them; if there are none and
      `force_post` is set, the first three of the sorted list whatever their
      score. The source sorts (candidate, score) pairs on the score, which
      orders the candidates the same way. */
  function Select(cands: seq<Candidate>, keywords: seq<string>, forcePost: bool): seq<Candidate> {
    Top(cands, ScoreKey(keywords), ScoreThreshold, MaxPicked, forcePost)
  }

  /** The candidates with score `v`, in input order. */
  function ScoringExactly(cands: seq<Candidate>, keywords: seq<string>, v: int): seq<Candidate> {
    KeyIs(cands, ScoreKey(keywords), v)
  }

  /** The candidates scoring 2 or more, in input order. */
  function Qualifying(cands: seq<Candidate>, keywords: seq<string>): seq<Candidate> {
    KeyAtLeast(cands, ScoreKey(keywords), ScoreThreshold)
  }

  /** The selection is the head of the stably sorted candidates: three of
      them when at least three score 2 or more, otherwise all that do; when
      none does, three (or all) of them under `force_post`, and none
      without it. */
  lemma SelectBounded(cands: seq<Candidate>, keywords: seq<string>, forcePost: bool)
    ensures var picked := Select(cands, keywords, forcePost);
            picked == SortDesc(cands, ScoreKey(keywords))[..|picked|]
    ensures var n := |Qualifying(cands, keywords)|;
            |Select(cands, keywords, forcePost)| ==
              if n > 0 then Min(MaxPicked, n) else if forcePost then Min(MaxPicked, |cands|) else 0
    ensures multiset(Select(cands, keywords, forcePost)) <= multiset(cands)
  {
    TopIsSortedPrefix(cands, ScoreKey(keywords), ScoreThreshold, MaxPicked, forcePost);
    TopCount(cands, ScoreKey(keywords), ScoreThreshold, MaxPicked, forcePost);
    TopBounded(cands, ScoreKey(keywords), ScoreThreshold, MaxPicked, forcePost);
  }

  /** Highest score first. */
  lemma SelectOrdered(cands: seq<Candidate>, keywords: seq<string>, forcePost: bool)
    ensures var picked := Select(cands, keywords, forcePost);
            forall i, j :: 0 <= i < j < |picked| ==> Score(picked[i], keywords) >= Score(picked[j], keywords)
  {
    TopOrdered(cands, ScoreKey(keywords), ScoreThreshold, MaxPicked, forcePost);
  }

  /** Among candidates of equal score, the selection holds the earliest ones,
      in input order. */
  lemma SelectKeepsTies(cands: seq<Candidate>, keywords: seq<string>, forcePost: bool, v: int)
    ensures ScoringExactly(Select(cands, keywords, forcePost), keywords, v) <= ScoringExactly(cands, keywords, v)
  {
    TopKeepsTies(cands, ScoreKey(keywords), ScoreThreshold, MaxPicked, forcePost, v);
  }

  /** When any candidate scores 2 or more, the selection is non-empty and
      holds only such candidates. */
  lemma SelectThreshold(cands: seq<Candidate>, keywords: seq<string>, forcePost: bool, i: nat)
    requires i < |cands| && Score(cands[i], keywords) >= ScoreThreshold
    ensures var picked := Select(cands, keywords, forcePost);
            |picked| > 0 && forall j :: 0 <= j < |picked| ==> Score(picked[j], keywords) >= ScoreThreshold
  {
    TopThreshold(cands, ScoreKey(keywords), ScoreThreshold, MaxPicked, forcePost, cands[i]);
  }

  /** Nothing is selected exactly when no candidate scores 2 or more and the
      `force_post` fallback does not apply (it is off, or there are no
      candidates at all). */
  lemma SelectEmptyIff(cands: seq<Candidate>, keywords: seq<string>, forcePost: bool)
    ensures |Select(cands, keywords, forcePost)| == 0 <==>
            (forall i :: 0 <= i < |cands| ==> Score(cands[i], keywords) < ScoreThreshold) && (!forcePost || |cands| == 0)
  {
    TopEmptyIff(cands, ScoreKey(keywords), ScoreThreshold, MaxPicked, forcePost);
  }

  // ---------------------------------------------------------------------
  // Significance
  // ---------------------------------------------------------------------

  /** Vocabulary that makes a selection highly significant. */
  const HighSignal: seq<string> := ["pricing", "price", "plan", "enterprise", "launch", "new feature"]

  /** What one picked candidate contributes to the significance text. */
  function ItemText(c: Candidate): string {
    c.title + " " + c.evidence
  }

  function ItemTexts(items: seq<Candidate>): (r: seq<string>)
    ensures |r| == |items|
    ensures forall i :: 0 <= i < |items| ==> r[i] == ItemText(items[i])
  {
    seq(|items|, i requires 0 <= i < |items| => ItemText(items[i]))
  }

  /** The item texts joined with single spaces, lower-cased. */
  function SignificanceText(items: seq<Candidate>): string {
    Lower(Join(" ", ItemTexts(items)))
  }

  /** `_significance`: nothing picked is low; a high-signal word anywhere in
      the joined text is high; otherwise two or more items are medium and a
      single item is low. */
  function Classify(items: seq<Candidate>): (r: Significance)
    ensures |items| == 0 ==> r == Low
    ensures r == High <==> |items| > 0 && AnyIn(HighSignal, SignificanceText(items))
    ensures r == Medium <==> |items| >= 2 && !AnyIn(HighSignal, SignificanceText(items))
    ensures r == Low <==> |items| < 2 && (|items| == 0 || !AnyIn(HighSignal, SignificanceText(items)))
  {
    if |items| == 0 then Low
    else if AnyIn(HighSignal, SignificanceText(items)) then High
    else if |items| >= 2 then Medium
    else Low
  }

  lemma LowerAppend(a: string, b: string)
    ensures Lower(a + b) == Lower(a) + Lower(b)
  {
  }

  lemma {:induction false} LowerJoin(sep: string, parts: seq<string>)
    ensures Lower(Join(sep, parts)) == Join(Lower(sep), LowerAll(parts))
    decreases |parts|
  {
    if |parts| >= 2 {
      LowerJoin(sep, parts[1..]);
      LowerAppend(parts[0] + sep, Join(sep, parts[1..]));
      LowerAppend(parts[0], sep);
      assert LowerAll(parts[1..]) == LowerAll(parts)[1..];
    }
  }

  /** A word found in one part is found in the joined string. */
  lemma {:induction false} JoinContainsPart(sep: string, parts: seq<string>, k: nat, w: string)
    requires k < |parts| && Contains(parts[k], w)
    ensures Contains(Join(sep, parts), w)
    decreases |parts|
  {
    if |parts| >= 2 {
      if k == 0 {
        ContainsInContext("", parts[0], sep + Join(sep, parts[1..]), w);
        assert "" + parts[0] + (sep + Join(sep, parts[1..])) == Join(sep, parts);
      } else {
        JoinContainsPart(sep, parts[1..], k - 1, w);
        ContainsInContext(parts[0] + sep, Join(sep, parts[1..]), "", w);
        assert parts[0] + sep + Join(sep, parts[1..]) + "" == Join(sep, parts);
      }
    }
  }

  lemma {:induction false} JoinAppend(sep: string, a: seq<string>, b: seq<string>)
    requires |a| > 0 && |b| > 0
    ensures Join(sep, a + b) == Join(sep, a) + sep + Join(sep, b)
    decreases |a|
  {
    if |a| >= 2 {
      JoinAppend(sep, a[1..], b);
      assert (a + b)[1..] == a[1..] + b;
    } else {
      assert (a + b)[1..] == b;
    }
  }

  /** A high-signal word in any single picked item (title or evidence, any
      case) makes the selection highly significant. */
  lemma MentionIsHigh(items: seq<Candidate>, k: nat, w: string)
    requires k < |items| && w in HighSignal
    requires Contains(Lower(ItemText(items[k])), w)
    ensures Classify(items) == High
  {
    var texts := ItemTexts(items);
    LowerJoin(" ", texts);
    JoinContainsPart(Lower(" "), LowerAll(texts), k, w);
    var i :| 0 <= i < |HighSignal| && HighSignal[i] == w;
    AnyInIff(HighSignal, SignificanceText(items));
  }

  lemma AnyInLowerPrefix(words: seq<string>, a: string, b: string)
    requires AnyIn(words, Lower(a))
    ensures AnyIn(words, Lower(a + b))
  {
    LowerAppend(a, b);
    AnyInContext(words, "", Lower(a), Lower(b));
    assert "" + Lower(a) + Lower(b) == Lower(a + b);
  }

  /** Picking more items never lowers a high significance. */
  lemma HighStaysHigh(items: seq<Candidate>, more: seq<Candidate>)
    requires Classify(items) == High
    ensures Classify(items + more) == High
  {
    if |more| > 0 {
      var a := Join(" ", ItemTexts(items));
      var b := Join(" ", ItemTexts(more));
      assert ItemTexts(items + more) == ItemTexts(items) + ItemTexts(more);
      JoinAppend(" ", ItemTexts(items), ItemTexts(more));
      assert a + " " + b == a + (" " + b);
      AnyInLowerPrefix(HighSignal, a, " " + b);
    } else {
      assert items + more == items;
    }
  }

  lemma JoinPair(sep: string, a: string, b: string)
    ensures Join(sep, [a, b]) == a + sep + b
  {
    assert [a, b][1..] == [b];
  }

  const Phrase := "new feature"

  lemma LowerPhrase()
    ensures Lower(Phrase) == Phrase
  {
    assert forall i :: 0 <= i < |Phrase| ==> !IsAsciiUpper(Phrase[i]);
  }

  /** The significance text of two items whose first evidence is "new" and
      whose second title is "feature". */
  lemma TextAcrossItems(title: string, evidence: string, sel: string)
    ensures SignificanceText([Candidate(title, "new", sel, Added), Candidate("feature", evidence, sel, Added)])
            == Lower(title + " ") + Phrase + Lower(" " + evidence)
  {
    var items := [Candidate(title, "new", sel, Added), Candidate("feature", evidence, sel, Added)];
    var a := title + " " + "new";
    var b := "feature" + " " + evidence;
    assert ItemTexts(items) == [a, b];
    JoinPair(" ", a, b);
    var p := title + " ";
    var q := " " + evidence;
    assert a + " " + b == p + Phrase + q;
    LowerAppend(p + Phrase, q);
    LowerAppend(p, Phrase);
    LowerPhrase();
  }

  /** The joined text lets a phrase run across two items: "new" closing one
      item's evidence and "feature" opening the next title read as
      "new feature", whatever else the two items say. */
  lemma PhraseAcrossItems(title: string, evidence: string, sel: string)
    ensures Classify([Candidate(title, "new", sel, Added), Candidate("feature", evidence, sel, Added)]) == High
  {
    var items := [Candidate(title, "new", sel, Added), Candidate("feature", evidence, sel, Added)];
    TextAcrossItems(title, evidence, sel);
    assert Contains(Phrase, Phrase);
    ContainsInContext(Lower(title + " "), Phrase, Lower(" " + evidence), Phrase);
    assert HighSignal[5] == Phrase;
    AnyInIff(HighSignal, SignificanceText(items));
  }

  // ---------------------------------------------------------------------
  // Draft, highlights, actions
  // ---------------------------------------------------------------------

  const DraftCap := 1200
  const FallbackDraft := "- Summarize detected changes and prepare internal brief."

  /** What the language model produced: it failed (no key, a client error),
      or it returned text. */
  datatype DraftOutcome = DraftFailed | Drafted(text: string)

  /** The draft used: the model's text cut to 1200 characters, or the fixed
      fallback when the model failed. */
  function DraftText(d: DraftOutcome): (r: string)
    ensures |r| <= DraftCap
    ensures d.DraftFailed? ==> r == FallbackDraft
    ensures d.Drafted? ==> |r| <= |d.text| && r == d.text[..|r|] && (|r| == DraftCap || r == d.text)
  {
    match d
    case DraftFailed => FallbackDraft
    case Drafted(t) => if |t| > DraftCap then t[..DraftCap] else t
  }

  const WhyItMatters := "Matches keywords/pricing/ICP"

  /** A compact highlight; empty evidence falls back to the selector. */
  function HighlightOf(c: Candidate): Highlight {
    Highlight(c.title, WhyItMatters, if c.evidence != "" then c.evidence else c.selector)
  }

  function Highlights(picked: seq<Candidate>): (hs: seq<Highlight>)
    ensures |hs| == |picked|
    ensures forall i :: 0 <= i < |picked| ==>
              && hs[i].title == picked[i].title
              && hs[i].whyItMatters == WhyItMatters
              && (picked[i].evidence != "" ==> hs[i].evidence == picked[i].evidence)
              && (picked[i].evidence == "" ==> hs[i].evidence == picked[i].selector)
              && (hs[i].evidence == "" <==> picked[i].evidence == "" && picked[i].selector == "")
  {
    seq(|picked|, i requires 0 <= i < |picked| => HighlightOf(picked[i]))
  }

  const NextActions: seq<string> := [
    "Update pricing comparison page if needed",
    "Share summary in sales channel",
    "Evaluate roadmap impact for competing features"
  ]

  // ---------------------------------------------------------------------
  // Notification
  // ---------------------------------------------------------------------

  const KeyLength := 12

  /** The URL half of the correlation key: the first 12 hex digits of the
      URL's digest. */
  function UrlKey(url: string, hash: string -> string): (k: string)
    ensures |k| == Min(KeyLength, |hash(url)|) && k == hash(url)[..|k|]
  {
    PyPrefix(hash(url), KeyLength)
  }

  /** A Python value that is not `None` and not empty. */
  predicate Truthy(s: Option<string>) {
    s.Some? && s.value != ""
  }

  /** The change half of the correlation key: the run's change hash (in
      full, it is not cut to 12 digits), or when there is none the first 12
      digits of the digest of the serialised picked candidates. */
  function ChangeKey(changeHash: Option<string>, picked: seq<Candidate>,
                     hash: string -> string, dumps: seq<Candidate> -> string): (k: string)
    ensures Truthy(changeHash) ==> k == changeHash.value
    ensures !Truthy(changeHash) ==>
              var d := hash(dumps(picked));
              |k| == Min(KeyLength, |d|) && k == d[..|k|]
  {
    if Truthy(changeHash) then changeHash.value else PyPrefix(hash(dumps(picked)), KeyLength)
  }

  const NotificationTitle := "\U{1F50D} Competitor Update Detected"

  function SignificanceName(s: Significance): string {
    match s
    case Low => "low"
    case Medium => "medium"
    case High => "high"
  }

  function Bullets(items: seq<string>): (r: seq<string>)
    ensures |r| == |items|
    ensures forall i :: 0 <= i < |items| ==> r[i] == "- " + items[i]
  {
    seq(|items|, i requires 0 <= i < |items| => "- " + items[i])
  }

  function MarkdownLines(url: string, sig: Significance, draft: string, actions: seq<string>): seq<string> {
    [NotificationTitle, "URL: " + url, "Significance: " + SignificanceName(sig),
     "\nSummary:", draft, "\nRecommended actions:"] + Bullets(actions)
  }

  /** The message body: the lines above joined with newlines. */
  function Markdown(url: string, sig: Significance, draft: string, actions: seq<string>): string {
    Join("\n", MarkdownLines(url, sig, draft, actions))
  }

  /** The posted message names the URL, carries the whole draft and lists
      every recommended action as a bullet. */
  lemma MarkdownShows(url: string, sig: Significance, draft: string, actions: seq<string>)
    ensures var m := Markdown(url, sig, draft, actions);
            && Contains(m, "URL: " + url)
            && Contains(m, draft)
            && forall i :: 0 <= i < |actions| ==> Contains(m, "- " + actions[i])
  {
    var lines := MarkdownLines(url, sig, draft, actions);
    assert Contains(lines[1], "URL: " + url);
    JoinContainsPart("\n", lines, 1, "URL: " + url);
    assert Contains(lines[4], draft);
    JoinContainsPart("\n", lines, 4, draft);
    forall i | 0 <= i < |actions| ensures Contains(Join("\n", lines), "- " + actions[i]) {
      assert lines[6 + i] == "- " + actions[i];
      assert Contains(lines[6 + i], "- " + actions[i]);
      JoinContainsPart("\n", lines, 6 + i, "- " + actions[i]);
    }
  }

  /** The message with its two buttons. */
  datatype Notification = Notification(markdown: string, approveId: string, rejectId: string)

  // ---------------------------------------------------------------------
  // The stage
  // ---------------------------------------------------------------------

  /** What `respond_node` reads from the run state. `candidates` are the
      scrape's candidates, empty when there is no scrape; `errors` defaults
      to the empty list. */
  datatype RespondInput = RespondInput(
    url: string,
    keywords: seq<string>,
    forcePost: bool,
    changeHash: Option<string>,
    errors: seq<string>,
    candidates: seq<Candidate>)

  /** The stage's result, the notification it tried to post, and the
      snapshot store (URL to hash) after it. */
  datatype RespondOutput = RespondOutput(
    result: PipelineResult,
    notification: Option<Notification>,
    store: map<string, string>)

  function SessionMessageId(session: DiscordSession): Option<string> {
    if session.Posted? then Some(session.messageId) else None
  }

  /** Posting or waiting that raises leaves the approval pending. */
  function SessionApproval(session: DiscordSession): (a: Approval)
    ensures session.PostRaised? ==> a == PendingApproval
    ensures session.Posted? && session.wait.Events? ==> a == AwaitInteraction(session.messageId, session.wait.events)
    ensures session.Posted? && !session.wait.Events? ==> a == PendingApproval
  {
    match session
    case PostRaised(_) => PendingApproval
    case Posted(mid, wait) => AwaitDiscord(mid, wait).GetOr(PendingApproval)
  }

  /** The snapshot write: only an approved decision with a non-empty change
      hash writes, and only the URL's own entry changes. A write that fails
      is swallowed and changes nothing. */
  function Persist(store: map<string, string>, url: string, approval: Approval,
                   changeHash: Option<string>, writeOk: bool): (s: map<string, string>)
    ensures s != store ==> approval.state == Approved && Truthy(changeHash) && s == store[url := changeHash.value]
    ensures approval.state == Approved && Truthy(changeHash) && writeOk ==> s == store[url := changeHash.value]
    ensures !writeOk ==> s == store
  {
    if approval.state == Approved && Truthy(changeHash) && writeOk then store[url := changeHash.value] else store
  }

  /** `respond_node`. `draft` is the language model's outcome, `session` the
      chat transport's, `writeOk` whether the snapshot write succeeds;
      `hash` is the SHA-256 hex digest and `dumps` the JSON serialisation. */
  function RespondNode(inp: RespondInput, draft: DraftOutcome, session: DiscordSession, writeOk: bool,
                       hash: string -> string, dumps: seq<Candidate> -> string,
                       store: map<string, string>): (o: RespondOutput)
    ensures var picked := Select(inp.candidates, inp.keywords, inp.forcePost);
            && (o.result.status == NoChange <==> |picked| == 0)
            && (o.result.status == Ok <==> |picked| > 0)
            && o.result.url == inp.url
            && o.result.changeHash == inp.changeHash
            && o.result.errors == inp.errors
            && (|picked| == 0 ==> Quiet(o.result) && o.notification == None && o.store == store)
            && (|picked| > 0 ==>
                  && o.result.significance == Classify(picked)
                  && o.result.highlights == Highlights(picked)
                  && o.result.draft == DraftText(draft)
                  && o.result.nextActions == NextActions
                  && o.result.messageId == SessionMessageId(session)
                  && o.result.approval == SessionApproval(session)
                  && o.store == Persist(store, inp.url, o.result.approval, inp.changeHash, writeOk)
                  && var urlKey := UrlKey(inp.url, hash);
                     var changeKey := ChangeKey(inp.changeHash, picked, hash, dumps);
                     o.notification == Some(Notification(Markdown(inp.url, Classify(picked), DraftText(draft), NextActions),
                                                         ApproveId(urlKey, changeKey), RejectId(urlKey, changeKey))))
    ensures o.result.messageId.None? ==> o.result.approval == PendingApproval
    ensures o.store != store ==>
              && o.result.status == Ok
              && o.result.approval.state == Approved
              && o.result.messageId.Some?
              && Truthy(inp.changeHash)
              && o.store == store[inp.url := inp.changeHash.value]
  {
    var picked := Select(inp.candidates, inp.keywords, inp.forcePost);
    if |picked| == 0 then
      var r := PipelineResult(NoChange, inp.url, inp.changeHash, [], Low, "", [], None, PendingApproval, inp.errors);
      RespondOutput(r, None, store)
    else
      var sig := Classify(picked);
      var text := DraftText(draft);
      var urlKey := UrlKey(inp.url, hash);
      var changeKey := ChangeKey(inp.changeHash, picked, hash, dumps);
      var note := Notification(Markdown(inp.url, sig, text, NextActions),
                               ApproveId(urlKey, changeKey), RejectId(urlKey, changeKey));
      var approval := SessionApproval(session);
      var r := PipelineResult(Ok, inp.url, inp.changeHash, Highlights(picked), sig, text, NextActions,
                              SessionMessageId(session), approval, inp.errors);
      RespondOutput(r, Some(note), Persist(store, inp.url, approval, inp.changeHash, writeOk))
  }

  /** The press of a button on the posted message. */
  function Press(messageId: string, customId: string, user: Option<string>): Interaction {
    Interaction(Some(messageId), true, Some(Some(customId)), user)
  }

  /** Pressing the posted Approve button records the approver and writes
      the run's change hash as the URL's snapshot; the button carries that
      same hash as the change half of its key. */
  lemma ApproveButtonPersists(inp: RespondInput, draft: DraftOutcome, mid: string, user: Option<string>,
                              writeOk: bool, hash: string -> string, dumps: seq<Candidate> -> string,
                              store: map<string, string>)
    requires |Select(inp.candidates, inp.keywords, inp.forcePost)| > 0 && Truthy(inp.changeHash)
    ensures var approveId := ApproveId(UrlKey(inp.url, hash), inp.changeHash.value);
            var o := RespondNode(inp, draft, Posted(mid, Events([Press(mid, approveId, user)])),
                                 writeOk, hash, dumps, store);
            && o.notification.value.approveId == approveId
            && o.result.status == Ok
            && o.result.messageId == Some(mid)
            && o.result.approval == Approval(Approved, Some(UserName(user)), None)
            && o.store == (if writeOk then store[inp.url := inp.changeHash.value] else store)
  {
    var approveId := ApproveId(UrlKey(inp.url, hash), inp.changeHash.value);
    ButtonsDecode(UrlKey(inp.url, hash), inp.changeHash.value, user);
    assert FirstMatch([Press(mid, approveId, user)], mid, 0);
  }

  /** Pressing the Reject button records the rejection and leaves the store
      untouched. */
  lemma RejectButtonKeepsStore(inp: RespondInput, draft: DraftOutcome, mid: string, user: Option<string>,
                               writeOk: bool, hash: string -> string, dumps: seq<Candidate> -> string,
                               store: map<string, string>)
    requires |Select(inp.candidates, inp.keywords, inp.forcePost)| > 0
    ensures var picked := Select(inp.candidates, inp.keywords, inp.forcePost);
            var rejectId := RejectId(UrlKey(inp.url, hash), ChangeKey(inp.changeHash, picked, hash, dumps));
            var o := RespondNode(inp, draft, Posted(mid, Events([Press(mid, rejectId, user)])),
                                 writeOk, hash, dumps, store);
            && o.notification.value.rejectId == rejectId
            && o.result.approval == Approval(Rejected, Some(UserName(user)), Some(""))
            && o.store == store
  {
    var picked := Select(inp.candidates, inp.keywords, inp.forcePost);
    var rejectId := RejectId(UrlKey(inp.url, hash), ChangeKey(inp.changeHash, picked, hash, dumps));
    ButtonsDecode(UrlKey(inp.url, hash), ChangeKey(inp.changeHash, picked, hash, dumps), user);
    assert FirstMatch([Press(mid, rejectId, user)], mid, 0);
  }

  /** A notification that could not be posted leaves no message id, a
      pending approval and the store as it was; the run still reports OK. */
  lemma PostFailureStaysPending(inp: RespondInput, draft: DraftOutcome, err: string, writeOk: bool,
                                hash: string -> string, dumps: seq<Candidate> -> string,
                                store: map<string, string>)
    requires |Select(inp.candidates, inp.keywords, inp.forcePost)| > 0
    ensures var o := RespondNode(inp, draft, PostRaised(err), writeOk, hash, dumps, store);
            && o.result.status == Ok
            && o.result.messageId == None
            && o.result.approval == PendingApproval
            && o.store == store
  {
  }
}
