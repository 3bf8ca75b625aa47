# Competitor watchdog: change detection and approval, in Dafny

This project models the core of a competitor-page watchdog. One run does this:

1. It fetches a page and splits it into blocks.
2. It normalises the page text, caps it and hashes it.
3. It compares the hash with the last approved snapshot. If nothing changed, the run stops with `NO_CHANGE`.
4. Otherwise it turns the blocks into at most eight candidates and scores them. It picks at most three, classifies their significance and drafts a summary.
5. It posts the summary with Approve / Reject buttons and waits for a decision.
6. It writes the new hash as a snapshot only when a human approves. The stages are written for a key-by-key merge of their returns, under which the snapshot goes under the page's URL. As the graph is built, each return replaces the state, and the snapshot goes under "" (see "## Findings").

Every run ends in one unified result whose status is `OK`, `NO_CHANGE` or `ERROR`.

The modules follow the program's files:

- `PyStr` (`py_str.dfy`) holds the Python string semantics the program relies on: `str.isspace`, `strip`, `re.sub(r"\s+", " ", …)`, slicing with negative bounds, substring search, ASCII `lower`, and UTF-8 length.
- `Optional` holds `None`-or-value.
- `State` (`src/state.py`) holds the records, the defaults and `empty_output`.
- `Tools` (`src/tools.py`) holds:
  - the paragraph differ;
  - the button ids and their decoding into an approval;
  - the approval wait, as a first-match over the events of the wait window.
- `Scrape` (`src/scrape_node.py`) is the scrape stage.
- `Respond` (`src/respond_node.py`) holds scoring, the stable selection, significance, the draft, the notification, and the post / await / persist sequence.
- `Graph` (`src/graph.py`) holds the router and the edges.
- `Cli` (`watchdog_cli.py`) holds `run_once`:
  - the direct notification test;
  - the snapshot preload;
  - the graph run;
  - the mapping of the final state to the result.
- `ReplaceExample` (`replace_example.dfy`) is one concrete run that shows how the two state updates of the graph differ (see "## Findings").

Every outside effect is an input of the model:

- The snapshot store is a `map<string, string>` from URL to hash, plus flags for a failed read and a failed write.
- The fetch is a `FetchOutcome`: either the blocks or the exception message.
- The language model is a `DraftOutcome`.
- The chat transport is a `DiscordSession`: the post either raised, or it returned a message id and the wait saw some outcome. That outcome is one of: the wait raised, no credentials, or the interaction events of the window.
- SHA-256 and `json.dumps` are function parameters, `hash` and `dumps`.
- How the graph library combines a stage's return with the state is a parameter too, `StateUpdate`. `Replace` is what `StateGraph(dict)` does with a schema that has no annotated keys: the return becomes the whole state. `Merge` is what the stages are written for: the returned keys overwrite those of the state. The two differ in what the respond stage reads; see "## Findings".

## Model

| member | source | states |
|---|---|---|
| PyStr.Strip | src/tools.py:79 | `strip()` removes exactly the maximal whitespace prefix and suffix; the result starts and ends with non-whitespace |
| PyStr.CollapseSpaces | src/tools.py:79 | `re.sub(r"\s+", " ", …)` leaves only single plain spaces and never lengthens the text |
| PyStr.CollapseRun | src/tools.py:79 | each maximal whitespace run becomes exactly one space: a run between two texts collapses to " " and the sides collapse on their own |
| PyStr.Normalize | src/scrape_node.py:20-21 | collapse-then-strip yields collapsed, trimmed text no longer than the input |
| PyStr.NormalizeJoinsWords | src/scrape_node.py:21 | two normal texts separated by any whitespace run normalise to the two texts joined by a single space |
| PyStr.NormalizeKeepsContent | src/scrape_node.py:21 | normalising keeps every non-whitespace character, in order |
| PyStr.NormalizeIdempotent | src/tools.py:79 | normalising twice is normalising once |
| PyStr.PyPrefix | src/respond_node.py:108 | `s[:n]` is a prefix of length `min(n, len)` for `n >= 0`, and counts from the end for negative `n` |
| PyStr.Ellipsize | src/tools.py:90 | the text cut to `n` characters gets "…" appended exactly when it was longer than `n` |
| PyStr.ContainsIff | src/respond_node.py:14 | `sub in text` holds iff `sub` occurs at some index of `text` |
| PyStr.AnyInIff | src/respond_node.py:16 | `any(k in text for k in words)` holds iff some listed word occurs in the text |
| PyStr.Lower | src/respond_node.py:12 | lower-casing keeps the length, maps A–Z to a–z and leaves every other character as it is |
| PyStr.LowerTextHasNoUpper | src/respond_node.py:18 | a word with an upper-case letter never occurs in lower-cased text |
| PyStr.Utf8Length | src/scrape_node.py:23 | the UTF-8 byte length lies between one and four bytes per character |
| Tools.PiecesRoundTrip | src/tools.py:80 | the split cuts exactly at `.`, `!` and `?`: one piece more than there are terminators, and putting the terminators back between the pieces restores the text |
| Tools.SplitParagraphs | src/tools.py:78-81 | every paragraph is non-empty, trimmed, whitespace-collapsed and free of `.`, `!`, `?`; there are at most one more paragraphs than terminators in the normalised text |
| Tools.CleanAppend | src/tools.py:80 | the list comprehension works piece by piece: cleaning a concatenation of piece lists cleans each part |
| Tools.CleanOne | src/tools.py:80 | a single piece is kept stripped, or dropped when it strips to nothing |
| Tools.PiecesWhole | src/tools.py:80 | text without a terminator is one piece |
| Tools.PiecesCut | src/tools.py:80 | the first terminator ends the first piece, and the text after it is split on its own |
| Tools.SplitParagraphsCut | src/tools.py:78-81 | on normalised text, the first paragraph is the stripped text before the first terminator (none when blank), followed by the cleaned pieces of the rest |
| Tools.SplitParagraphsWhole | src/tools.py:78-81 | normalised text without a terminator is a single paragraph, or none when empty |
| Tools.NormalizedHasNoNewline | src/tools.py:79-80 | after the collapse there is no newline, so the `\n{2,}` alternative of the split never cuts |
| Tools.SplitKeepsText | src/tools.py:78-81 | the paragraphs, read in order, hold every character of the text except whitespace and terminators |
| Tools.Title | src/tools.py:90 | a diff title is the first 60 characters, plus "…" exactly when the paragraph is longer |
| Tools.Unseen | src/tools.py:86-91 | the listing of a set difference: it holds exactly the paragraphs of one side missing from the other, each once |
| Tools.Diff | src/tools.py:77-99 | `added` holds exactly the new paragraphs absent from the old text and `removed` the converse, each once with its title; `changed` is always empty |
| Tools.DiffDisjoint | src/tools.py:86-97 | no paragraph is both added and removed |
| Tools.DiffSelf | src/tools.py:77-99 | comparing a text with itself finds no change at all |
| Tools.ApproveId | src/tools.py:340 | the Approve button id starts with "approve:" |
| Tools.RejectId | src/tools.py:341 | the Reject button id starts with "reject:" |
| Tools.DecodeDecision | src/tools.py:318-333 | an id starting with "approve:" approves and records the user; "reject:" rejects with an empty reason; anything else, or no id, stays pending |
| Tools.PrefixesExclusive | src/tools.py:327-331 | no id both approves and rejects |
| Tools.ButtonsDecode | src/tools.py:340-341 | the two posted buttons decode to approve and reject respectively |
| Tools.AwaitInteraction | src/tools.py:302-333 | the first event of the window that passes the filter decides; with none, the approval stays pending |
| Tools.AwaitIgnoresCorrelationKey | src/tools.py:305-311 | only the message id is compared: an approve button naming another URL or change is honoured |
| Tools.AwaitDiscord | src/tools.py:347-356 | the wait raises exactly when the client fails; without credentials it answers pending |
| State.DefaultState | src/state.py:55-68 | a fresh run state: empty URL, depth 0, no subpaths, no keywords, neutral tone, nothing loaded, no errors |
| State.EmptyOutput | src/state.py:71-83 | the error-shaped result: ERROR, no change hash, nothing highlighted, posted or decided, no errors |
| Scrape.CapText | src/scrape_node.py:22-24 | text within the byte cap is kept whole; longer text keeps its first min(`cap // 2`, length) characters, within twice the cap in bytes; a negative cap drops `-(cap // 2)` characters from the end |
| Scrape.CapIsNotByteExact | src/scrape_node.py:23-24 | the cut counts characters: three 3-byte characters under a 2-byte cap keep a 3-byte character |
| Scrape.MainText | src/scrape_node.py:20-24 | the hashed text is collapsed, has no leading space and is a prefix of the normalised join of the block texts: the whole join within the byte cap, otherwise its first min(`cap // 2`, length) characters, or for a negative cap all but the last `-(cap // 2)` |
| Scrape.FirstChangeDiff | src/scrape_node.py:37-39 | on a change, the first 50 blocks are `added` with their selectors and 60-character titles; nothing is removed or changed |
| Scrape.MkCandidate | src/scrape_node.py:44-47 | the title is cut to 80 and the stripped text to 140 characters, each marked "…" exactly when cut |
| Scrape.Sources | src/scrape_node.py:49-53 | the first eight added entries become candidates, then changed entries fill the room left, as modified |
| Scrape.BuildCandidates | src/scrape_node.py:43-55 | one candidate per chosen entry, in order |
| Scrape.ScrapeNode | src/scrape_node.py:10-63 | a failed fetch yields ERROR with the error appended and no change hash; otherwise the hash of the capped text is the change hash, and the status is NO_CHANGE iff not forced and the hash equals the last snapshot |
| Scrape.ChangedPageCandidates | src/scrape_node.py:37-55 | on a changed page, candidate `i` describes block `i` for the first eight blocks, with the diff title kept whole |
| Scrape.UnchangedGate | src/scrape_node.py:31-35 | an unforced run on an unchanged hash stops with no candidates; a forced run never stops there |
| Respond.Score | src/respond_node.py:11-20 | a score is 0–3: 0 iff no rule fires, at least 2 iff some two of the three rules fire, 3 iff all three fire |
| Respond.KeywordRuleIff | src/respond_node.py:12-15 | the keyword rule fires iff some lower-cased keyword occurs in the lower-cased title + " " + evidence |
| Respond.KeywordCaseIgnored | src/respond_node.py:14 | upper- and lower-case keywords score alike |
| Respond.SmbNeverMatches | src/respond_node.py:18 | "SMB" never matches lower-cased text, so the segment rule behaves as if it were not listed |
| Respond.SortDesc | src/respond_node.py:44 | the sort is a permutation, highest key first |
| Respond.SortDescKeepsTies | src/respond_node.py:44 | the sort is stable: for every key value, those elements keep their input order |
| Respond.SelectBounded | src/respond_node.py:43-49 | the picks are the head of the stably sorted candidates: min(3, k) of them when k candidates score at least 2, otherwise min(3, n) of the n candidates under force-post and none without it |
| Respond.SelectOrdered | src/respond_node.py:44-45 | picks come highest score first |
| Respond.SelectKeepsTies | src/respond_node.py:44-45 | among equal scores the earliest candidates are picked, in input order |
| Respond.SelectThreshold | src/respond_node.py:45 | when any candidate scores at least 2, something is picked and every pick scores at least 2 |
| Respond.SelectEmptyIff | src/respond_node.py:45-51 | nothing is picked iff no candidate scores 2 and the force-post fallback does not apply |
| Respond.Classify | src/respond_node.py:23-31 | high iff there are items and their joined, lower-cased text holds a high-signal word; medium iff there are two or more items and it holds none; low otherwise, in particular for no items |
| Respond.MentionIsHigh | src/respond_node.py:26-28 | a high-signal word in any single item, in any case, makes the significance high |
| Respond.HighStaysHigh | src/respond_node.py:26-28 | adding items never lowers a high significance |
| Respond.PhraseAcrossItems | src/respond_node.py:26-27 | items are joined before the search, so "new" ending one item and "feature" starting the next read as "new feature" |
| Respond.DraftText | src/respond_node.py:84-89 | the draft is the model's text cut to 1200 characters, or the fixed fallback when the model failed |
| Respond.Highlights | src/respond_node.py:92-99 | one highlight per pick with its title and the fixed reason; the evidence is the pick's evidence, or its selector when the evidence is empty |
| Respond.UrlKey | src/respond_node.py:108 | the URL key is exactly the first min(12, length) characters of the URL's digest |
| Respond.ChangeKey | src/respond_node.py:109 | the change key is the whole change hash when it is non-empty, otherwise exactly the first min(12, length) characters of the digest of the serialised picks |
| Respond.MarkdownShows | src/respond_node.py:112-122 | the posted message names the URL, carries the whole draft and lists every action as a bullet |
| Respond.SessionApproval | src/respond_node.py:124-133 | a post or wait that raises leaves the approval pending; otherwise the wait's answer is kept |
| Respond.Persist | src/respond_node.py:135-137 | the store changes only on an approved decision with a non-empty change hash, and only at the URL; a failed write changes nothing |
| Respond.RespondNode | src/respond_node.py:34-153 | NO_CHANGE, quiet and unposted iff nothing is picked; otherwise OK with the picks' highlights, significance, draft and actions, the message with the two button ids keyed by URL key and change key, the session's message id and approval, and the store as the snapshot write leaves it |
| Respond.ApproveButtonPersists | src/respond_node.py:124-137 | pressing the posted Approve button records the approver and writes the change hash the button carries |
| Respond.RejectButtonKeepsStore | src/respond_node.py:124-137 | pressing Reject records the rejection and writes nothing |
| Respond.PostFailureStaysPending | src/respond_node.py:124-133 | a post that raises still yields OK, with no message id, pending, and no write |
| Graph.CondEdge | src/graph.py:12-17 | a NO_CHANGE top-level status ends the run, any other status goes to respond, and the scrape status is read only when the top-level one is absent |
| Graph.RunEndsWithinTwoSteps | src/graph.py:20-29 | from the entry point the run ends within two steps, and the respond stage runs at most once |
| Graph.ErrorIsRoutedOn | src/graph.py:12-17 | an ERROR status is routed to the respond stage, like OK |
| Cli.ForceDiscord | watchdog_cli.py:36-83 | the test post is keyed by the URL digest and the digest of "force-discord"; a post or wait failure gives ERROR with that one message; otherwise OK with the fixed test content; the store is untouched |
| Cli.Preload | watchdog_cli.py:98-104 | the stored hash is loaded when the read succeeds and the URL is present, and nothing otherwise |
| Cli.RunGraph | watchdog_cli.py:106-109 | a result exactly when the scrape status is not NO_CHANGE, computed from what the respond stage sees; after the respond stage the state is the merged keys (`Merge`) or the result alone (`Replace`) |
| Cli.MapFinal | watchdog_cli.py:111-152 | NO_CHANGE gives the quiet NO_CHANGE result; else the respond result as it is, with a payload iff approved; else the error shape with "Unknown error" as the default |
| Cli.RunOnce | watchdog_cli.py:34-152 | the test path when forced, else the preload, the graph run and the final mapping |
| Cli.RespondView | src/respond_node.py:35-40 | the respond stage reads the run's URL, keywords and force-post flag under `Merge`; under `Replace` it reads "", no keywords and no force-post; the scrape's hash, errors and candidates either way |
| Cli.StoreChangesOnlyOnApproval | watchdog_cli.py:34-152 | under either state update, a run changes the store only when its posted notification was approved, and then only one entry, to the hash of the page just fetched: the run's URL under `Merge`, "" under `Replace` |
| Cli.UnchangedPageIsQuiet | watchdog_cli.py:98-125 | an unforced run on an unchanged page is NO_CHANGE under either state update: nothing posted, written or printed |
| Cli.FetchErrorReportsNoChange | watchdog_cli.py:127-147 | a failed fetch is returned as NO_CHANGE carrying the fetch error, with nothing posted or written |
| Cli.FallbackUnreachable | watchdog_cli.py:149-152 | a graph run always ends with a result or a NO_CHANGE status, so the error-shaped fallback is never reached |
| Cli.UnapprovedRunKeepsStore | watchdog_cli.py:34-152 | a run whose result is not approved leaves the store as it was |
| Cli.ApprovedChangeIsNotifiedOnce | watchdog_cli.py:34-152 | under `Merge`, after an approved and written run, the next unforced run on the same page is quiet NO_CHANGE |
| Cli.ReplaceIgnoresOptions | src/graph.py:21 | under `Replace`, `--keywords` and `--force-post` change nothing, and every OK result names the URL "" |
| Cli.ReplaceRenotifies | src/graph.py:21 | under `Replace`, an approved change of a page with no snapshot is written under "", and the next run on the same page posts the same OK notification again |
| ReplaceExample.PageQualifies | src/respond_node.py:11-20 | a block reading "enterprise pricing" scores at least 2 with no keywords: the commercial and the segment rule both fire |
| ReplaceExample.PageCandidates | src/scrape_node.py:31-55 | with no snapshot, a page of that one block counts as changed and yields it as the one candidate, title and evidence uncut |
| ReplaceExample.FirstRunWrites | src/respond_node.py:135-137 | on an empty store, that page with an Approve press in the wait window is written with its hash: under the URL with `Merge`, under "" with `Replace` |
| ReplaceExample.ReplaceNotifiesTwice | src/graph.py:21 | as written, a second run on the same page after the approved write is OK and posts the same notification again |
| ReplaceExample.MergeNotifiesOnce | src/graph.py:21 | with the key-by-key merge, the second run on the same page after the approved write is NO_CHANGE |

## Left out

- Fetching, robots.txt, the jitter, the browser and HTML block extraction (`fetch_url`, `parse_html`) are I/O. The scrape stage receives their outcome: the blocks, or the exception message.
- The HTTP metadata (status, etag, last-modified) is left out. It is recorded but never read.
- SHA-256 (`compute_hash`) and `json.dumps` are parameters. Properties that need their content, such as collision resistance or the 64-digit length, are not stated.
- The language model call, its prompt and its payload (tone, products) are outside the model. Only the outcome matters: failed, or some text.
- The chat client's lifecycle is outside the model: connecting, the ready event, sending the acknowledgement and closing. So is the wait's timeout value. The wait is the list of events seen before the timeout.
- SQLite is a map plus a flag per operation saying whether the read or write succeeded. The `updated_at` timestamp is not modelled.
- Argument parsing, `.env` loading, printing and `main()`'s own exception handler are left out. The printed approval payload is returned as a value. Its `approved_at` clock reading is left out.
- `crawl_policy` is carried in the state but never read by the core.
- PyStr.Lower: models `str.lower()` on ASCII letters only. Non-ASCII case mappings, some of which change the length, are not modelled.
- Tools.Diff: Python lists the set differences in hash-set order. The model lists them in order of first occurrence, so its contract speaks only of membership and of each paragraph appearing once.
- Cli.RunGraph: the graph library is not part of this model. Its state update is a parameter: `Replace`, the single state value that `StateGraph(dict)` keeps and each stage's return replaces, or `Merge`, the key-by-key merge the stages are written for. See "## Findings".
- Cli.RunGraph: the scrape record never carries a `status` key. So the router and `run_once` only ever see the top-level status. Their fallback to the scrape record's status is modelled in `Graph.CondEdge` and is otherwise inert.

## Findings

| source | as written | input that shows it | evidently intended | confidence | as-written member | corrected member |
|---|---|---|---|---|---|---|
| src/graph.py:21 | `StateGraph(dict)` gives the graph a schema with no annotated keys, so the whole state is one value that each stage's return replaces. The respond stage then reads no URL, no keywords and no force-post, and on approval it writes the snapshot under the key "" | a run with `--url` set to a page that has no snapshot, fetched as the one block "enterprise pricing" (2 points from the built-in vocabularies), approved, with a readable and writable store: the run writes under "", and the next run on the same page posts the same notification again (`ReplaceExample.ReplaceNotifiesTwice`) | each stage's returned keys merge into the state, so the respond stage sees the run's options and the snapshot is written under the URL; the next run on the same page is then NO_CHANGE (`ReplaceExample.MergeNotifiesOnce`) | medium; not executed; rests on how the graph library treats a schema with no annotated keys | Cli.ReplaceRenotifies | Cli.ApprovedChangeIsNotifiedOnce |

## Notes on the code as written

The model follows the code. These are the points where the code does something other than what one would expect from the names and the comments:

- **Fetch errors.** A fetch error does not yield `status=ERROR`, and the pipeline does not stop after the fetch. Instead, the router sends every status except NO_CHANGE on to the respond stage. With no candidates, that stage answers NO_CHANGE. `run_once` returns that result: status NO_CHANGE, with the fetch error in `errors` (`Cli.FetchErrorReportsNoChange`).
- **Post failures.** A failure after a successful post does not drop the message id: it is kept, and the approval stays pending (`Respond.SessionApproval`).
- **The stored hash.** The snapshot written on approval is the hash of the new page text, which is the run's change hash (`Respond.Persist`).
- **The correlation key.** Button presses are matched on the message id only. The URL and change halves of a button's id are never checked (`Tools.AwaitIgnoresCorrelationKey`).
- **The change key.** The change half of the key is the full change hash when there is one. It is cut to 12 characters only when it falls back to the digest of the picked candidates.
- **Scoring.** A block whose only rule word is "pricing" scores only 1 with no keywords, below the threshold of 2. Each rule adds at most one point however many of its words occur, and "pricing" belongs only to the commercial vocabulary. Such a block is picked only through the force-post fallback, which applies only when no block scores 2 or more (`Respond.SelectEmptyIff`, `Respond.SelectBounded`).
- **The size cap.** It compares UTF-8 bytes with the cap but cuts `cap // 2` characters. The result can still exceed the cap's half in bytes (`Scrape.CapIsNotByteExact`).
- **"SMB".** The upper-case "SMB" in the segment vocabulary can never match the lower-cased text (`Respond.SmbNeverMatches`).
