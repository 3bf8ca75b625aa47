/** A concrete run that shows the difference between the two state updates
    of the graph (see `Cli.StateUpdate`): a first run on a page with one
    block reading "enterprise pricing", whose notification is approved and
    written. With `Replace` the snapshot lands under "" and the next run on
    the same page notifies again; with `Merge` it lands under the URL and
    the next run is NO_CHANGE. */
module ReplaceExample {
  import opened Optional
  import opened PyStr
  import opened State
  import opened Tools
  import opened Scrape
  import opened Respond
  import opened Cli

  const PageText := "enterprise pricing"
  const PageCandidate := Candidate(PageText, PageText, "h1", Added)
  const Url := "https://example.test"

  /** An Approve press on the posted message. */
  const Press := Interaction(Some("m"), true, Some(Some("approve:")), Some("u"))

  const Opts := Options(Url, [], false, false, false)

  /** The page fetches as one block; the draft succeeds; the press arrives
      in the wait window; the store reads and writes; every page hashes to
      "h". */
  const Env := World(true, Fetched([Block("h1", PageText)]), 1000, Drafted("d"),
                     Posted("m", Events([Press])), true, s => "h", cs => "j")

  /** "enterprise pricing" fires the commercial and the segment rule, so it
      qualifies without any keyword. */
  lemma PageQualifies()
    ensures Score(PageCandidate, []) >= ScoreThreshold
  {
    var x := PageText + " " + PageText;
    assert Lower(x) == x by {
      assert forall i :: 0 <= i < |x| ==> !IsAsciiUpper(x[i]);
    }
    assert ScoreText(PageCandidate) == x;
    assert Contains(x, "enterprise") by { assert StartsWith(x, "enterprise"); }
    assert Contains(x, "pricing") by {
      assert Contains("pricing", "pricing") by { assert StartsWith("pricing", "pricing"); }
      ContainsInContext("enterprise ", "pricing", " " + PageText, "pricing");
      assert x == "enterprise " + "pricing" + (" " + PageText);
    }
    assert AnyIn(Commercial, x) by { AnyInIff(Commercial, x); assert Commercial[1] == "pricing"; }
    assert AnyIn(Segment, x) by { AnyInIff(Segment, x); assert Segment[0] == "enterprise"; }
  }

  lemma PageTextFits()
    ensures Title(PageText) == PageText && Ellipsize(Strip(PageText), EvidenceCap) == PageText
  {
    assert Trimmed(PageText);
    StripFixesTrimmed(PageText);
  }

  lemma OneCandidate(cs: seq<Candidate>)
    requires |cs| == 1
    requires cs[0] == Candidate(Title(PageText), Ellipsize(Strip(PageText), EvidenceCap), "h1", Added)
    ensures cs == [PageCandidate]
  {
    PageTextFits();
  }

  /** Without a snapshot the page counts as changed, and its one block
      becomes the one candidate. */
  lemma PageCandidates(st: ScrapeInput, blocks: seq<Block>, cap: int, hash: string -> string)
    requires blocks == [Block("h1", PageText)] && st.lastSnapshotHash == None
    ensures ScrapeNode(st, Fetched(blocks), cap, hash).status == Ok
    ensures ScrapeNode(st, Fetched(blocks), cap, hash).scrape.candidates == [PageCandidate]
  {
    ChangedPageCandidates(st, blocks, cap, hash);
    OneCandidate(ScrapeNode(st, Fetched(blocks), cap, hash).scrape.candidates);
  }

  lemma PressApproves()
    ensures SessionApproval(Env.session).state == Approved
  {
    assert Matches(Press, "m");
    assert StartsWith("approve:", ApprovePrefix);
  }

  /** The first run on an empty store posts, is approved and writes "h",
      under the URL with `Merge` and under "" with `Replace`. */
  lemma FirstRunWrites(upd: StateUpdate)
    ensures RunOnce(upd, Opts, Env, map[]).store == map[WrittenKey(upd, Opts) := "h"]
  {
    var last := Preload(map[], true, Url);
    assert last == None;
    var st := ScrapeInput(Url, None, false, []);
    PageCandidates(st, [Block("h1", PageText)], 1000, Env.hash);
    var u := ScrapeOf(Opts, last, Env);
    assert u == ScrapeNode(st, Env.fetch, 1000, Env.hash);
    assert u.changeHash == Some("h");
    PageQualifies();
    SelectEmptyIff([PageCandidate], [], false);
    PressApproves();
  }

  /** As written: the approved snapshot goes under "", and the second run
      on the unchanged page posts the same notification again. */
  lemma ReplaceNotifiesTwice()
    ensures var first := RunOnce(Replace, Opts, Env, map[]);
            var next := RunOnce(Replace, Opts, Env, first.store);
            && first.store == map["" := "h"]
            && next.output.status == Ok
            && next.notification == first.notification
  {
    FirstRunWrites(Replace);
    assert "" in RunOnce(Replace, Opts, Env, map[]).store;
    ReplaceRenotifies(Opts, Env, map[]);
  }

  /** As intended: the approved snapshot goes under the URL, and the second
      run on the unchanged page is NO_CHANGE. */
  lemma MergeNotifiesOnce()
    ensures var first := RunOnce(Merge, Opts, Env, map[]);
            && first.store == map[Url := "h"]
            && RunOnce(Merge, Opts, Env, first.store).output.status == NoChange
  {
    FirstRunWrites(Merge);
    assert Url in RunOnce(Merge, Opts, Env, map[]).store;
    ApprovedChangeIsNotifiedOnce(Opts, Env, map[]);
  }
}
