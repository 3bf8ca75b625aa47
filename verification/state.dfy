/** The records that travel through one watchdog run (`src/state.py`) and the
    unified result every run ends with. */
module State {
  import opened Optional

  /** Caller-facing run status: "OK", "NO_CHANGE", "ERROR". */
  datatype Status = Ok | NoChange | Error

  /** One extracted page block. */
  datatype Block = Block(selector: string, text: string)

  /** One entry of a diff: paragraph text, where it came from, display title. */
  datatype DiffEntry = DiffEntry(text: string, selector: string, title: string)

  datatype DiffResult = DiffResult(added: seq<DiffEntry>, removed: seq<DiffEntry>, changed: seq<DiffEntry>)

  const EmptyDiff := DiffResult([], [], [])

  datatype ChangeType = Added | Modified | Removed

  /** A bounded, display-ready description of one detected change. */
  datatype Candidate = Candidate(title: string, evidence: string, selector: string, changeType: ChangeType)

  /** What the scrape stage records about the page. The HTTP metadata
      (status, etag, last-modified) is not modelled. */
  datatype ScrapeResult = ScrapeResult(
    url: string,
    hash: string,
    blocks: seq<Block>,
    diff: DiffResult,
    candidates: seq<Candidate>)

  datatype Decision = Pending | Approved | Rejected

  /** The human decision on a posted notification. */
  datatype Approval = Approval(state: Decision, decidedBy: Option<string>, reason: Option<string>)

  /** `{"state": "pending"}`: the decision nobody made. */
  const PendingApproval := Approval(Pending, None, None)

  datatype Tone = Neutral | Challenger | Friendly

  datatype CrawlPolicy = CrawlPolicy(depth: int, allowSubpaths: bool, allowedPaths: seq<string>)

  datatype BusinessContext = BusinessContext(products: seq<string>, keywords: seq<string>, tone: Tone)

  datatype Significance = Low | Medium | High

  datatype Highlight = Highlight(title: string, whyItMatters: string, evidence: string)

  /** The unified output of a run. */
  datatype PipelineResult = PipelineResult(
    status: Status,
    url: string,
    changeHash: Option<string>,
    highlights: seq<Highlight>,
    significance: Significance,
    draft: string,
    nextActions: seq<string>,
    messageId: Option<string>,
    approval: Approval,
    errors: seq<string>)

  /** The run state a fresh `WatchDogState()` starts from. */
  datatype WatchDogState = WatchDogState(
    url: string,
    crawlPolicy: CrawlPolicy,
    businessContext: BusinessContext,
    lastSnapshotHash: Option<string>,
    scrape: Option<ScrapeResult>,
    changeHash: Option<string>,
    result: Option<PipelineResult>,
    errors: seq<string>)

  /** A result that reports nothing to act on: no highlights, no draft, no
      actions, nothing posted and nothing decided. */
  ghost predicate Quiet(r: PipelineResult) {
    && r.highlights == []
    && r.significance == Low
    && r.draft == ""
    && r.nextActions == []
    && r.messageId == None
    && r.approval == PendingApproval
  }

  /** `WatchDogState()` with every field defaulted. */
  function DefaultState(): (s: WatchDogState)
    ensures s.url == ""
    ensures s.crawlPolicy.depth == 0 && !s.crawlPolicy.allowSubpaths && s.crawlPolicy.allowedPaths == []
    ensures s.businessContext.products == [] && s.businessContext.keywords == []
    ensures s.businessContext.tone == Neutral
    ensures s.lastSnapshotHash.None? && s.scrape.None? && s.changeHash.None? && s.result.None?
    ensures s.errors == []
  {
    WatchDogState("", CrawlPolicy(0, false, []), BusinessContext([], [], Neutral), None, None, None, None, [])
  }

  /** `empty_output(url)`: the error-shaped result, quiet, with no change hash
      and no errors recorded yet. */
  function EmptyOutput(url: string): (r: PipelineResult)
    ensures Quiet(r)
    ensures r.status == Error && r.url == url
    ensures r.changeHash == None
    ensures r.errors == []
  {
    PipelineResult(Error, url, None, [], Low, "", [], None, PendingApproval, [])
  }
}
