/** The two-stage state machine of `src/graph.py`: scrape first, then either
    stop or respond, then stop. */
module Graph {
  import opened Optional
  import opened State

  datatype Node = ScrapeStage | RespondStage | End

  /** `set_entry_point("scrape_node")`. */
  const Entry := ScrapeStage

  /** The status the router reads: the run state's own `status`, and only
      when that is absent the scrape record's `status`. */
  function RoutedStatus(status: Option<Status>, scrapeStatus: Option<Status>): Option<Status> {
    if status.Some? then status else scrapeStatus
  }

  /** `_cond_edge`: a NO_CHANGE status ends the run; anything else, an error
      included, goes on to the respond stage. */
  function CondEdge(status: Option<Status>, scrapeStatus: Option<Status>): (n: Node)
    ensures n == RespondStage || n == End
    ensures status == Some(NoChange) ==> n == End
    ensures status.Some? && status.value != NoChange ==> n == RespondStage
    ensures status.None? ==> (n == End <==> scrapeStatus == Some(NoChange))
  {
    if RoutedStatus(status, scrapeStatus) == Some(NoChange) then End else RespondStage
  }

  /** The edges of `build_graph`: the scrape stage's successor is chosen by
      `_cond_edge`, the respond stage always ends. */
  function Next(n: Node, status: Option<Status>, scrapeStatus: Option<Status>): Node {
    match n
    case ScrapeStage => CondEdge(status, scrapeStatus)
    case RespondStage => End
    case End => End
  }

  /** Every run ends after at most two steps, whatever the statuses seen,
      and the respond stage runs at most once. */
  lemma RunEndsWithinTwoSteps(s1: Option<Status>, k1: Option<Status>, s2: Option<Status>, k2: Option<Status>)
    ensures var n1 := Next(Entry, s1, k1);
            && n1 != ScrapeStage
            && Next(n1, s2, k2) == End
  {
  }

  /** A status of ERROR does not stop the run: it is routed to the respond
      stage like OK. */
  lemma ErrorIsRoutedOn(scrapeStatus: Option<Status>)
    ensures Next(Entry, Some(Error), scrapeStatus) == RespondStage
    ensures Next(Entry, Some(Ok), scrapeStatus) == RespondStage
  {
  }
}
