/** `scrape_node` (`src/scrape_node.py`): normalise and cap the page text,
    hash it, stop when the hash matches the last approved snapshot, otherwise
    treat the page's blocks as added content and turn them into at most eight
    display-ready candidates. Fetching and HTML block extraction are outside
    the model: the stage receives their outcome. */
module Scrape {
  import opened Optional
  import opened PyStr
  import opened State
  import opened Tools

  /** Default of `SCRAPE_MAX_BYTES`. */
  const DefaultCap := 1500000
  /** Blocks taken into the first-change diff. */
  const MaxDiffBlocks := 50
  /** Candidates kept per run. */
  const MaxCandidates := 8
  const CandidateTitleCap := 80
  const EvidenceCap := 140

  /** Outcome of `fetch_url` followed by `parse_html`: either the page's
      blocks, or the message of the exception either of them (or reading the
      size cap) raised. */
  datatype FetchOutcome = FetchFailed(error: string) | Fetched(blocks: seq<Block>)

  /** The run-state keys `scrape_node` reads. */
  datatype ScrapeInput = ScrapeInput(
    url: string,
    lastSnapshotHash: Option<string>,
    forceChange: bool,
    errors: seq<string>)

  /** The run-state keys `scrape_node` returns; `errors` is `None` when the
      key is not returned. */
  datatype ScrapeUpdate = ScrapeUpdate(
    scrape: ScrapeResult,
    changeHash: Option<string>,
    status: Status,
    errors: Option<seq<string>>)

  function BlockTexts(blocks: seq<Block>): (ts: seq<string>)
    ensures |ts| == |blocks|
    ensures forall i :: 0 <= i < |blocks| ==> ts[i] == blocks[i].text
  {
    seq(|blocks|, i requires 0 <= i < |blocks| => blocks[i].text)
  }

  /** Cut an over-long text: when its UTF-8 encoding is longer than `cap`
      bytes, keep `text[:cap // 2]`. With a positive divisor Dafny's `/`
      rounds down like Python's `//`; a negative cap is always exceeded and
      the slice then counts from the end. */
  function CapText(text: string, cap: int): (r: string)
    ensures |r| <= |text| && r == text[..|r|]
    ensures Utf8Length(text) <= cap ==> r == text
    ensures Utf8Length(text) > cap && 0 <= cap ==> |r| <= cap / 2 && Utf8Length(r) <= 2 * cap
    ensures Utf8Length(text) > cap && 0 <= cap ==> |r| == if cap / 2 < |text| then cap / 2 else |text|
    ensures cap < 0 ==> |r| == if |text| + cap / 2 < 0 then 0 else |text| + cap / 2
  {
    if Utf8Length(text) > cap then PyPrefix(text, cap / 2) else text
  }

  /** The cut is by characters, not bytes: three three-byte characters under
      a two-byte cap keep one character, which is three bytes. */
  lemma CapIsNotByteExact()
    ensures Utf8Length(CapText("\U{20AC}\U{20AC}\U{20AC}", 2)) == 3
  {
    var t := "\U{20AC}\U{20AC}\U{20AC}";
    assert Utf8Length(t[2..]) == 3;
    assert Utf8Length(t[1..]) == 6;
    assert Utf8Length(t) == 9;
    assert CapText(t, 2) == t[..1];
    assert Utf8Length(t[..1]) == 3 + Utf8Length(t[..1][1..]);
  }

  /** The hashed page text: block texts joined by blank lines, whitespace
      collapsed, trimmed, then capped. */
  function MainText(blocks: seq<Block>, cap: int): (r: string)
    ensures Collapsed(r) && (|r| > 0 ==> !IsSpace(r[0]))
    ensures var n := Normalize(Join("\n\n", BlockTexts(blocks)));
            |r| <= |n| && r == n[..|r|] && (Utf8Length(n) <= cap ==> r == n)
    ensures var n := Normalize(Join("\n\n", BlockTexts(blocks)));
            Utf8Length(n) > cap && 0 <= cap ==> |r| == if cap / 2 < |n| then cap / 2 else |n|
    ensures var n := Normalize(Join("\n\n", BlockTexts(blocks)));
            cap < 0 ==> |r| == if |n| + cap / 2 < 0 then 0 else |n| + cap / 2
  {
    var n := Normalize(Join("\n\n", BlockTexts(blocks)));
    var r := CapText(n, cap);
    SliceOfCollapsed(n, 0, |r|);
    r
  }

  /** The diff of a changed page: no earlier text is kept, so the first fifty
      blocks all count as added. */
  function FirstChangeDiff(blocks: seq<Block>): (d: DiffResult)
    ensures |d.added| == if |blocks| < MaxDiffBlocks then |blocks| else MaxDiffBlocks
    ensures forall i :: 0 <= i < |d.added| ==>
              d.added[i] == DiffEntry(blocks[i].text, blocks[i].selector, Title(blocks[i].text))
    ensures d.removed == [] && d.changed == []
  {
    var bs := Take(blocks, MaxDiffBlocks);
    DiffResult(seq(|bs|, i requires 0 <= i < |bs| => DiffEntry(bs[i].text, bs[i].selector, Title(bs[i].text))), [], [])
  }

  /** `mk_candidate`: the title cut to 80 characters and the stripped text
      cut to 140, each followed by "…" exactly when it was cut. */
  function MkCandidate(title: string, text: string, selector: string, changeType: ChangeType): (c: Candidate)
    ensures |c.title| <= CandidateTitleCap + 1 && |c.evidence| <= EvidenceCap + 1
    ensures |c.title| == CandidateTitleCap + 1 <==> |title| > CandidateTitleCap
    ensures |c.evidence| == EvidenceCap + 1 <==> |Strip(text)| > EvidenceCap
    ensures |title| <= CandidateTitleCap ==> c.title == title
    ensures |Strip(text)| <= EvidenceCap ==> c.evidence == Strip(text)
    ensures |title| > CandidateTitleCap ==>
              c.title == title[..CandidateTitleCap] + [Ellipsis]
    ensures |Strip(text)| > EvidenceCap ==>
              c.evidence == Strip(text)[..EvidenceCap] + [Ellipsis]
    ensures c.selector == selector && c.changeType == changeType
  {
    Candidate(Ellipsize(title, CandidateTitleCap), Ellipsize(Strip(text), EvidenceCap), selector, changeType)
  }

  function CandidateOf(e: DiffEntry, changeType: ChangeType): Candidate {
    MkCandidate(e.title, e.text, e.selector, changeType)
  }

  /** A diff entry chosen to become a candidate, with its change type. */
  datatype Source = Source(entry: DiffEntry, changeType: ChangeType)

  /** Which entries become candidates: the first eight added entries, then
      changed entries (as "modified") in whatever room is left. */
  function Sources(d: DiffResult): (ss: seq<Source>)
    ensures |ss| <= MaxCandidates
    ensures var n := if |d.added| < MaxCandidates then |d.added| else MaxCandidates;
            && n <= |ss|
            && (forall i :: 0 <= i < n ==> ss[i] == Source(d.added[i], Added))
            && |ss| - n <= |d.changed|
            && (forall i :: n <= i < |ss| ==> ss[i] == Source(d.changed[i - n], Modified))
            && (|ss| < MaxCandidates ==> |ss| == n + |d.changed|)
  {
    var added := Take(d.added, MaxCandidates);
    var changed := Take(d.changed, MaxCandidates - |added|);
    seq(|added|, i requires 0 <= i < |added| => Source(added[i], Added))
      + seq(|changed|, i requires 0 <= i < |changed| => Source(changed[i], Modified))
  }

  /** The candidate list: one candidate per chosen entry, in order. */
  function BuildCandidates(d: DiffResult): (cs: seq<Candidate>)
    ensures |cs| == |Sources(d)|
    ensures forall i :: 0 <= i < |cs| ==>
              cs[i] == CandidateOf(Sources(d)[i].entry, Sources(d)[i].changeType)
  {
    var ss := Sources(d);
    seq(|ss|, i requires 0 <= i < |ss| => CandidateOf(ss[i].entry, ss[i].changeType))
  }

  /** The scrape record a run starts with. */
  function InitialResult(url: string): ScrapeResult {
    ScrapeResult(url, "", [], EmptyDiff, [])
  }

  /** `scrape_node`. */
  function ScrapeNode(st: ScrapeInput, fetch: FetchOutcome, cap: int, hash: string -> string): (u: ScrapeUpdate)
    ensures fetch.FetchFailed? ==>
              && u.status == Error
              && u.errors == Some(st.errors + [fetch.error])
              && u.scrape == InitialResult(st.url)
              && u.changeHash == None
    ensures fetch.Fetched? ==>
              var h := hash(MainText(fetch.blocks, cap));
              && u.changeHash == Some(h)
              && u.scrape.hash == h
              && u.scrape.blocks == fetch.blocks
              && u.errors == None
              && (u.status == NoChange <==> !st.forceChange && st.lastSnapshotHash == Some(h))
              && (u.status == NoChange ==> u.scrape.diff == EmptyDiff && u.scrape.candidates == [])
              && (u.status != NoChange ==> u.status == Ok)
    ensures u.status == Ok ==>
              && u.scrape.diff == FirstChangeDiff(fetch.blocks)
              && u.scrape.candidates == BuildCandidates(u.scrape.diff)
    ensures u.scrape.url == st.url
  {
    match fetch
    case FetchFailed(err) =>
      ScrapeUpdate(InitialResult(st.url), None, Error, Some(st.errors + [err]))
    case Fetched(blocks) =>
      var h := hash(MainText(blocks, cap));
      var base := ScrapeResult(st.url, h, blocks, EmptyDiff, []);
      if !st.forceChange && st.lastSnapshotHash.Some? && st.lastSnapshotHash.value == h then
        ScrapeUpdate(base, Some(h), NoChange, None)
      else
        var d := FirstChangeDiff(blocks);
        ScrapeUpdate(base.(diff := d, candidates := BuildCandidates(d)), Some(h), Ok, None)
  }

  /** On a changed page, candidate i describes block i, for the first eight
      blocks: the 60-character diff title is already within the 80-character
      candidate cap, so it is carried over unchanged. */
  lemma ChangedPageCandidates(st: ScrapeInput, blocks: seq<Block>, cap: int, hash: string -> string)
    requires ScrapeNode(st, Fetched(blocks), cap, hash).status == Ok
    ensures var cs := ScrapeNode(st, Fetched(blocks), cap, hash).scrape.candidates;
            && |cs| == (if |blocks| < MaxCandidates then |blocks| else MaxCandidates)
            && forall i :: 0 <= i < |cs| ==>
                 cs[i] == Candidate(Title(blocks[i].text), Ellipsize(Strip(blocks[i].text), EvidenceCap),
                                    blocks[i].selector, Added)
  {
    var u := ScrapeNode(st, Fetched(blocks), cap, hash);
    var d := u.scrape.diff;
    var cs := u.scrape.candidates;
    forall i | 0 <= i < |cs|
      ensures cs[i] == Candidate(Title(blocks[i].text), Ellipsize(Strip(blocks[i].text), EvidenceCap),
                                 blocks[i].selector, Added)
    {
      assert Sources(d)[i] == Source(d.added[i], Added);
      assert Ellipsize(Title(blocks[i].text), CandidateTitleCap) == Title(blocks[i].text);
    }
  }

  /** The unchanged-hash gate: without `force_change`, a page whose hash
      equals the stored snapshot hash ends the scrape with NO_CHANGE and no
      candidates; with `force_change` it never does. */
  lemma UnchangedGate(st: ScrapeInput, blocks: seq<Block>, cap: int, hash: string -> string)
    ensures var u := ScrapeNode(st, Fetched(blocks), cap, hash);
            && (st.lastSnapshotHash == Some(hash(MainText(blocks, cap))) && !st.forceChange ==>
                  u.status == NoChange && u.scrape.candidates == [])
            && (st.forceChange ==> u.status == Ok)
  {
  }
}
