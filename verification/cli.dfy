/** One run of the command-line entry point (`watchdog_cli.py`, `run_once`):
    the direct notification test, or the snapshot preload, the two-stage
    graph and the mapping of its final state to the unified result. Every
    outside effect is an input: the snapshot store is a map from URL to hash,
    the fetch, the language model and the chat transport are their outcomes,
    and `hash` and `dumps` stand for SHA-256 and JSON serialisation. */
module Cli {
  import opened Optional
  import opened PyStr
  import opened State
  import opened Tools
  import opened Scrape
  import opened Respond
  import opened Graph

  /** The command-line options a run depends on. */
  datatype Options = Options(
    url: string,
    keywords: seq<string>,
    forcePost: bool,
    forceChange: bool,
    forceDiscord: bool)

  /** What the outside world does during one run. */
  datatype World = World(
    storeReadOk: bool,        // the snapshot read does not fail
    fetch: FetchOutcome,
    cap: int,                 // SCRAPE_MAX_BYTES
    draft: DraftOutcome,
    session: DiscordSession,
    storeWriteOk: bool,       // the snapshot write does not fail
    hash: string -> string,
    dumps: seq<Candidate> -> string)

  /** `COMPETITOR_UPDATE_APPROVED`, printed when the result is approved. The
      approval timestamp comes from the clock and is not modelled. */
  datatype ApprovedPayload = ApprovedPayload(
    url: string,
    changeHash: Option<string>,
    actions: seq<string>,
    approvedBy: Option<string>)

  /** The run's result, the approval payload if one is printed, the
      notification it tried to post, and the snapshot store after the run. */
  datatype RunOutcome = RunOutcome(
    output: PipelineResult,
    approved: Option<ApprovedPayload>,
    notification: Option<Notification>,
    store: map<string, string>)

  // ---------------------------------------------------------------------
  // Direct notification test
  // ---------------------------------------------------------------------

  const TestTitle := "\U{1F50D} Competitor Update Detected (Test)"
  const ForceDiscordSeed := "force-discord"

  function TestMarkdown(url: string): string {
    Join("\n", [TestTitle, "URL: " + url, "Significance: low", "\nSummary:",
                "- Test post to verify Discord wiring.", "\nRecommended actions:",
                "- Confirm bot can post and buttons work"])
  }

  const TestHighlight := Highlight("Test", "Verify Discord connectivity", "manual test")
  const TestDraft := "- Test run to verify posting."
  const TestActions: seq<string> := ["Verify buttons", "Check bot permissions"]

  /** `--force-discord`: post a fixed test message keyed by the URL and the
      digest of "force-discord", and wait for a decision. Either the post or
      the wait failing turns the run into ERROR with that one message; the
      snapshot store is neither read nor written. */
  function ForceDiscord(url: string, session: DiscordSession, hash: string -> string,
                       store: map<string, string>): (o: RunOutcome)
    ensures var changeKey := PyPrefix(hash(ForceDiscordSeed), KeyLength);
            && o.output.url == url
            && o.output.changeHash == Some(changeKey)
            && o.output.significance == Low
            && o.approved == None
            && o.store == store
            && o.notification == Some(Notification(TestMarkdown(url),
                 ApproveId(UrlKey(url, hash), changeKey), RejectId(UrlKey(url, hash), changeKey)))
    ensures o.output.status == Error <==> session.PostRaised? || session.wait.WaitRaised?
    ensures o.output.status == Error ==>
              && Quiet(o.output)
              && o.output.errors == [if session.PostRaised? then session.error else session.wait.error]
    ensures o.output.status != Error ==>
              && o.output.status == Ok
              && o.output.messageId == Some(session.messageId)
              && o.output.approval == SessionApproval(session)
              && o.output.highlights == [TestHighlight]
              && o.output.draft == TestDraft
              && o.output.nextActions == TestActions
              && o.output.errors == []
  {
    var urlKey := UrlKey(url, hash);
    var changeKey := PyPrefix(hash(ForceDiscordSeed), KeyLength);
    var note := Notification(TestMarkdown(url), ApproveId(urlKey, changeKey), RejectId(urlKey, changeKey));
    var failed := PipelineResult(Error, url, Some(changeKey), [], Low, "", [], None, PendingApproval, []);
    match session
    case PostRaised(err) =>
      RunOutcome(failed.(errors := [err]), None, Some(note), store)
    case Posted(mid, wait) =>
      match AwaitDiscord(mid, wait)
      case None =>
        RunOutcome(failed.(errors := [wait.error]), None, Some(note), store)
      case Some(approval) =>
        var r := PipelineResult(Ok, url, Some(changeKey), [TestHighlight], Low, TestDraft, TestActions,
                                Some(mid), approval, []);
        RunOutcome(r, None, Some(note), store)
  }

  // ---------------------------------------------------------------------
  // The graph run
  // ---------------------------------------------------------------------

  /** `sqlite_read_snapshot`: the stored hash for the URL; a failed read
      reads as no snapshot. */
  function Preload(store: map<string, string>, readOk: bool, url: string): (h: Option<string>)
    ensures h.Some? <==> readOk && url in store
    ensures h.Some? ==> h.value == store[url]
  {
    if readOk && url in store then Some(store[url]) else None
  }

  /** How the graph folds a stage's returned keys into the run state. The
      graph is built as `StateGraph(dict)`; LangGraph keeps the state of a
      schema without field annotations, such as `dict`, as one value that
      each stage's return replaces (`Replace`). The stages are written for a
      key-by-key merge of their returns over the inputs (`Merge`): the
      respond stage reads `url`, `business_context` and `force_post`, which
      only the inputs carry. */
  datatype StateUpdate = Replace | Merge

  /** The run state the graph ends with. `result` is `None` when the
      respond stage did not run. */
  datatype FinalState = FinalState(
    status: Option<Status>,
    scrape: Option<ScrapeResult>,
    changeHash: Option<string>,
    errors: Option<seq<string>>,
    result: Option<PipelineResult>)

  /** What the graph leaves behind: its final state, the notification it
      tried to post and the store. */
  datatype GraphRun = GraphRun(final: FinalState, notification: Option<Notification>, store: map<string, string>)

  function ScrapeOf(opts: Options, last: Option<string>, w: World): ScrapeUpdate {
    ScrapeNode(ScrapeInput(opts.url, last, opts.forceChange, []), w.fetch, w.cap, w.hash)
  }

  /** What the respond stage reads from the run state after the scrape
      stage. With `Replace` the state is the scrape stage's return alone, so
      the URL reads as "", the keywords as none and `force_post` as off. */
  function RespondView(upd: StateUpdate, opts: Options, u: ScrapeUpdate): (inp: RespondInput)
    ensures upd == Merge ==> inp.url == opts.url && inp.keywords == opts.keywords && inp.forcePost == opts.forcePost
    ensures upd == Replace ==> inp.url == "" && inp.keywords == [] && !inp.forcePost
    ensures inp.changeHash == u.changeHash && inp.errors == u.errors.GetOr([])
    ensures inp.candidates == u.scrape.candidates
  {
    match upd
    case Merge => RespondInput(opts.url, opts.keywords, opts.forcePost, u.changeHash, u.errors.GetOr([]), u.scrape.candidates)
    case Replace => RespondInput("", [], false, u.changeHash, u.errors.GetOr([]), u.scrape.candidates)
  }

  /** `graph.ainvoke(inputs)`: the scrape stage, then the respond stage
      unless the router ends the run. The scrape record carries no `status`
      key, so the router only ever sees the stage's top-level status. With
      `Replace` the final state after the respond stage holds its result
      and nothing else. */
  function RunGraph(upd: StateUpdate, opts: Options, last: Option<string>, w: World,
                    store: map<string, string>): (g: GraphRun)
    ensures var u := ScrapeOf(opts, last, w);
            && (g.final.result.None? <==> u.status == NoChange)
            && (u.status == NoChange ==>
                  && g.final == FinalState(Some(NoChange), Some(u.scrape), u.changeHash, u.errors, None)
                  && g.notification == None && g.store == store)
    ensures var u := ScrapeOf(opts, last, w);
            u.status != NoChange ==>
              var o := RespondNode(RespondView(upd, opts, u), w.draft, w.session, w.storeWriteOk, w.hash, w.dumps, store);
              && g.final.result == Some(o.result)
              && g.notification == o.notification
              && g.store == o.store
              && (upd == Merge ==>
                    g.final == FinalState(Some(u.status), Some(u.scrape), u.changeHash, u.errors, Some(o.result)))
              && (upd == Replace ==> g.final == FinalState(None, None, None, None, Some(o.result)))
  {
    var u := ScrapeOf(opts, last, w);
    var state := FinalState(Some(u.status), Some(u.scrape), u.changeHash, u.errors, None);
    match Next(Entry, state.status, None)
    case RespondStage =>
      var o := RespondNode(RespondView(upd, opts, u), w.draft, w.session, w.storeWriteOk, w.hash, w.dumps, store);
      var final := if upd == Merge then state.(result := Some(o.result)) else FinalState(None, None, None, None, Some(o.result));
      GraphRun(final, o.notification, o.store)
    case _ =>
      GraphRun(state, None, store)
  }

  /** The payload printed for an approved result. */
  function PayloadFor(r: PipelineResult): Option<ApprovedPayload> {
    if r.approval.state == Approved then Some(ApprovedPayload(r.url, r.changeHash, r.nextActions, r.approval.decidedBy))
    else None
  }

  /** The final-state mapping of `run_once`: a NO_CHANGE status gives the
      quiet NO_CHANGE result; otherwise the respond stage's result is
      returned as it is (with the approval payload when approved); with no
      result either, the error-shaped output carries the state's errors, or
      "Unknown error" when there are none. */
  function MapFinal(url: string, f: FinalState): (p: (PipelineResult, Option<ApprovedPayload>))
    ensures f.status == Some(NoChange) ==>
              && p.0.status == NoChange && Quiet(p.0) && p.0.url == url
              && p.0.changeHash == f.changeHash && p.0.errors == f.errors.GetOr([])
              && p.1 == None
    ensures f.status != Some(NoChange) && f.result.Some? ==>
              && p.0 == f.result.value
              && (p.1.Some? <==> p.0.approval.state == Approved)
              && (p.1.Some? ==>
                    && p.1.value.url == p.0.url
                    && p.1.value.changeHash == p.0.changeHash
                    && p.1.value.actions == p.0.nextActions
                    && p.1.value.approvedBy == p.0.approval.decidedBy)
    ensures f.status != Some(NoChange) && f.result.None? ==>
              && p.0.status == Error && Quiet(p.0) && p.0.url == url && p.0.changeHash == None
              && p.0.errors == f.errors.GetOr(["Unknown error"])
              && p.1 == None
  {
    if f.status == Some(NoChange) then
      (PipelineResult(NoChange, url, f.changeHash, [], Low, "", [], None, PendingApproval, f.errors.GetOr([])), None)
    else if f.result.Some? then
      (f.result.value, PayloadFor(f.result.value))
    else
      (EmptyOutput(url).(errors := f.errors.GetOr(["Unknown error"])), None)
  }

  /** `run_once`, with the graph's state update `upd`. */
  function RunOnce(upd: StateUpdate, opts: Options, w: World, store: map<string, string>): (o: RunOutcome)
    ensures opts.forceDiscord ==> o == ForceDiscord(opts.url, w.session, w.hash, store)
    ensures !opts.forceDiscord ==>
              var g := RunGraph(upd, opts, Preload(store, w.storeReadOk, opts.url), w, store);
              && (o.output, o.approved) == MapFinal(opts.url, g.final)
              && o.notification == g.notification
              && o.store == g.store
  {
    if opts.forceDiscord then
      ForceDiscord(opts.url, w.session, w.hash, store)
    else
      var last := Preload(store, w.storeReadOk, opts.url);
      var g := RunGraph(upd, opts, last, w, store);
      var (out, payload) := MapFinal(opts.url, g.final);
      RunOutcome(out, payload, g.notification, g.store)
  }

  // ---------------------------------------------------------------------
  // Properties of whole runs
  // ---------------------------------------------------------------------

  /** The hash a fetched page is stored under. */
  function PageHash(opts: Options, w: World): string
    requires w.fetch.Fetched?
  {
    w.hash(MainText(w.fetch.blocks, w.cap))
  }

  /** The URL the respond stage writes the snapshot under. */
  function WrittenKey(upd: StateUpdate, opts: Options): string {
    if upd == Merge then opts.url else ""
  }

  /** The snapshot store changes only when a human approved the posted
      notification, and then only one entry changes, to the hash of the page
      text just fetched: the run's own URL with `Merge`, and "" with
      `Replace`. */
  lemma StoreChangesOnlyOnApproval(upd: StateUpdate, opts: Options, w: World, store: map<string, string>)
    ensures var o := RunOnce(upd, opts, w, store);
            o.store != store ==>
              && !opts.forceDiscord
              && w.fetch.Fetched?
              && o.output.status == Ok
              && o.output.approval.state == Approved
              && o.output.messageId.Some?
              && o.approved.Some?
              && o.store == store[WrittenKey(upd, opts) := PageHash(opts, w)]
  {
    var o := RunOnce(upd, opts, w, store);
    if o.store != store {
      var last := Preload(store, w.storeReadOk, opts.url);
      var u := ScrapeOf(opts, last, w);
      var g := RunGraph(upd, opts, last, w, store);
      assert u.status != NoChange;
      assert g.final.result.Some?;
      assert u.changeHash.Some?;
    }
  }

  /** An unchanged page, without `--force-change`, ends as NO_CHANGE: nothing
      is posted, nothing is written, no payload is printed. */
  lemma UnchangedPageIsQuiet(upd: StateUpdate, opts: Options, w: World, store: map<string, string>)
    requires !opts.forceDiscord && !opts.forceChange
    requires w.storeReadOk && w.fetch.Fetched?
    requires opts.url in store && store[opts.url] == PageHash(opts, w)
    ensures var o := RunOnce(upd, opts, w, store);
            && o.output.status == NoChange
            && Quiet(o.output)
            && o.output.changeHash == Some(PageHash(opts, w))
            && o.output.errors == []
            && o.notification == None
            && o.approved == None
            && o.store == store
  {
  }

  /** A failed fetch never reaches ERROR at the caller: the error status is
      routed on to the respond stage, which finds no candidates and answers
      NO_CHANGE; that result, carrying the fetch error, is what the run
      returns. */
  lemma FetchErrorReportsNoChange(upd: StateUpdate, opts: Options, w: World, store: map<string, string>)
    requires !opts.forceDiscord && w.fetch.FetchFailed?
    ensures var o := RunOnce(upd, opts, w, store);
            && o.output.status == NoChange
            && o.output.status != Error
            && Quiet(o.output)
            && o.output.errors == [w.fetch.error]
            && o.output.changeHash == None
            && o.notification == None
            && o.store == store
  {
    var last := Preload(store, w.storeReadOk, opts.url);
    var u := ScrapeOf(opts, last, w);
    assert u.scrape.candidates == [];
    SelectEmptyIff([], RespondView(upd, opts, u).keywords, RespondView(upd, opts, u).forcePost);
  }

  /** The graph always leaves a result or a NO_CHANGE status, so the
      error-shaped fallback of `run_once` is never used. */
  lemma FallbackUnreachable(upd: StateUpdate, opts: Options, w: World, store: map<string, string>)
    requires !opts.forceDiscord
    ensures var g := RunGraph(upd, opts, Preload(store, w.storeReadOk, opts.url), w, store);
            g.final.status == Some(NoChange) || g.final.result.Some?
  {
  }

  /** A run that was not approved leaves the store as it was, so the next
      run sees the same snapshot. */
  lemma UnapprovedRunKeepsStore(upd: StateUpdate, opts: Options, w: World, store: map<string, string>)
    requires RunOnce(upd, opts, w, store).output.approval.state != Approved
    ensures RunOnce(upd, opts, w, store).store == store
  {
    StoreChangesOnlyOnApproval(upd, opts, w, store);
  }

  /** With the key-by-key merge the stages are written for, once a run is
      approved and its snapshot written, the next run on the same page text
      (without `--force-change`) is NO_CHANGE and quiet: an approved change
      is notified once. */
  lemma ApprovedChangeIsNotifiedOnce(opts: Options, w: World, store: map<string, string>)
    requires !opts.forceDiscord && !opts.forceChange && w.storeReadOk
    requires RunOnce(Merge, opts, w, store).store != store
    ensures var next := RunOnce(Merge, opts, w, RunOnce(Merge, opts, w, store).store);
            && next.output.status == NoChange
            && Quiet(next.output)
            && next.notification == None
            && next.store == RunOnce(Merge, opts, w, store).store
  {
    StoreChangesOnlyOnApproval(Merge, opts, w, store);
    var s1 := RunOnce(Merge, opts, w, store).store;
    assert opts.url in s1 && s1[opts.url] == PageHash(opts, w);
    UnchangedPageIsQuiet(Merge, opts, w, s1);
  }

  // ---------------------------------------------------------------------
  // The graph as written: each stage's return replaces the state
  // ---------------------------------------------------------------------

  /** With `Replace`, `--keywords` and `--force-post` have no effect, and
      every result the respond stage produces names the URL "". */
  lemma ReplaceIgnoresOptions(opts: Options, w: World, store: map<string, string>)
    requires !opts.forceDiscord
    ensures RunOnce(Replace, opts, w, store) == RunOnce(Replace, opts.(keywords := [], forcePost := false), w, store)
    ensures var o := RunOnce(Replace, opts, w, store);
            o.output.status == Ok ==> o.output.url == ""
  {
    var opts' := opts.(keywords := [], forcePost := false);
    var last := Preload(store, w.storeReadOk, opts.url);
    var u := ScrapeOf(opts, last, w);
    assert ScrapeOf(opts', last, w) == u;
    assert RespondView(Replace, opts', u) == RespondView(Replace, opts, u);
    assert RunGraph(Replace, opts', last, w, store) == RunGraph(Replace, opts, last, w, store);
  }

  /** With `Replace`, an approved change of a page at a non-empty URL that
      had no snapshot is written under "", so the next run on the same page
      finds no snapshot again and posts the same notification again. */
  lemma ReplaceRenotifies(opts: Options, w: World, store: map<string, string>)
    requires !opts.forceDiscord && !opts.forceChange && w.storeReadOk
    requires opts.url != "" && opts.url !in store
    requires RunOnce(Replace, opts, w, store).store != store
    ensures var first := RunOnce(Replace, opts, w, store);
            var next := RunOnce(Replace, opts, w, first.store);
            && first.store == store["" := PageHash(opts, w)]
            && opts.url !in first.store
            && next.output == first.output
            && next.output.status == Ok
            && next.notification == first.notification
  {
    StoreChangesOnlyOnApproval(Replace, opts, w, store);
    var first := RunOnce(Replace, opts, w, store);
    assert Preload(first.store, w.storeReadOk, opts.url) == Preload(store, w.storeReadOk, opts.url);
  }
}
