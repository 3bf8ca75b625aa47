/** The pure parts of `src/tools.py`: the paragraph differ, the approve/reject
    button ids, and the decoding of a button press into an approval.
    `compute_hash` (SHA-256) is not modelled here: every stage that needs it
    takes it as a parameter `hash: string -> string`, which makes it a
    deterministic function of its input and nothing more. */
module Tools {
  import opened Optional
  import opened PyStr
  import opened State

  // ---------------------------------------------------------------------
  // Paragraph splitting
  // ---------------------------------------------------------------------

  /** The characters the paragraph splitter cuts on. */
  predicate IsTerminator(c: char) {
    c == '.' || c == '!' || c == '?'
  }

  ghost predicate NoTerminator(s: string) {
    forall i :: 0 <= i < |s| ==> !IsTerminator(s[i])
  }

  function DropTerminators(s: string): (r: string)
    ensures NoTerminator(r)
  {
    if |s| == 0 then ""
    else if IsTerminator(s[0]) then DropTerminators(s[1..])
    else [s[0]] + DropTerminators(s[1..])
  }

  /** The text a reader sees: no whitespace and no sentence punctuation. */
  function Visible(s: string): string {
    DropTerminators(NonSpace(s))
  }

  function Concat(ps: seq<string>): string {
    if |ps| == 0 then "" else ps[0] + Concat(ps[1..])
  }

  /** `re.split(r"\.|\!|\?", s)`: the pieces between terminators, empty ones
      included. */
  function Pieces(s: string): (ps: seq<string>)
    ensures |ps| >= 1
    ensures forall i :: 0 <= i < |ps| ==> NoTerminator(ps[i])
    ensures |ps[0]| <= |s| && ps[0] == s[..|ps[0]|]
    decreases |s|
  {
    if |s| == 0 then [""]
    else
      var rest := Pieces(s[1..]);
      if IsTerminator(s[0]) then [""] + rest
      else
        assert [s[0]] + rest[0] == s[..1 + |rest[0]|];
        [[s[0]] + rest[0]] + rest[1..]
  }

  /** The terminators of `s`, in order. */
  function Terminators(s: string): (r: string)
    ensures forall i :: 0 <= i < |r| ==> IsTerminator(r[i])
  {
    if |s| == 0 then ""
    else if IsTerminator(s[0]) then [s[0]] + Terminators(s[1..])
    else Terminators(s[1..])
  }

  /** Pieces put back together, each cut filled with its terminator. */
  function Rejoin(ps: seq<string>, ts: string): string
    requires |ps| == |ts| + 1
    decreases |ts|
  {
    if |ts| == 0 then ps[0] else ps[0] + [ts[0]] + Rejoin(ps[1..], ts[1..])
  }

  lemma RejoinHead(x: string, ps: seq<string>, ts: string)
    requires |ps| == |ts| + 1
    ensures Rejoin([x + ps[0]] + ps[1..], ts) == x + Rejoin(ps, ts)
  {
    var qs := [x + ps[0]] + ps[1..];
    assert qs[1..] == ps[1..];
    if |ts| > 0 {
      assert x + ps[0] + [ts[0]] + Rejoin(ps[1..], ts[1..])
          == x + (ps[0] + [ts[0]] + Rejoin(ps[1..], ts[1..]));
    }
  }

  /** `re.split(r"\.|\!|\?", s)` cuts exactly at the terminators: there is
      one piece more than there are terminators, and putting the terminators
      back between the pieces gives `s` again. */
  lemma {:induction false} PiecesRoundTrip(s: string)
    ensures |Pieces(s)| == |Terminators(s)| + 1
    ensures Rejoin(Pieces(s), Terminators(s)) == s
    decreases |s|
  {
    if |s| > 0 {
      var rest := Pieces(s[1..]);
      var ts := Terminators(s[1..]);
      PiecesRoundTrip(s[1..]);
      assert s == [s[0]] + s[1..];
      if IsTerminator(s[0]) {
        var ps := [""] + rest;
        assert Pieces(s) == ps;
        assert ps[1..] == rest;
        assert Terminators(s) == [s[0]] + ts;
        assert ([s[0]] + ts)[1..] == ts;
        assert Rejoin(ps, [s[0]] + ts) == "" + [s[0]] + s[1..];
      } else {
        RejoinHead([s[0]], rest, ts);
        assert Pieces(s) == [[s[0]] + rest[0]] + rest[1..];
      }
    }
  }

  /** `[p.strip() for p in parts if p.strip()]`. */
  function Clean(ps: seq<string>): (r: seq<string>)
    ensures |r| <= |ps|
    ensures forall i :: 0 <= i < |r| ==> |r[i]| > 0 && Trimmed(r[i])
  {
    if |ps| == 0 then []
    else if Strip(ps[0]) == "" then Clean(ps[1..])
    else [Strip(ps[0])] + Clean(ps[1..])
  }

  /** `split_paragraphs(t)`: collapse whitespace, trim, cut on `.`, `!` and
      `?`, strip each piece and drop the empty ones. The source's pattern also
      lists a blank-line alternative `\n{2,}`; after the collapse the text
      holds no newline (`NormalizedHasNoNewline`), so that alternative never
      cuts and is not part of the model. */
  function SplitParagraphs(t: string): (ps: seq<string>)
    ensures forall i :: 0 <= i < |ps| ==>
              |ps[i]| > 0 && Trimmed(ps[i]) && NoTerminator(ps[i]) && Collapsed(ps[i])
    ensures |ps| <= |Terminators(Normalize(t))| + 1
  {
    var n := Normalize(t);
    PiecesRoundTrip(n);
    PiecesOfCollapsed(n);
    CleanKeeps(Pieces(n));
    Clean(Pieces(n))
  }

  /** Dropping the blank pieces and stripping the rest works piece by
      piece: cleaning a concatenation cleans each part. */
  lemma {:induction false} CleanAppend(a: seq<string>, b: seq<string>)
    ensures Clean(a + b) == Clean(a) + Clean(b)
    decreases |a|
  {
    if |a| == 0 {
      assert a + b == b;
    } else {
      assert (a + b)[0] == a[0];
      assert (a + b)[1..] == a[1..] + b;
      CleanAppend(a[1..], b);
    }
  }

  /** A single piece is kept stripped, or dropped when it is blank. */
  lemma CleanOne(p: string)
    ensures Clean([p]) == if Strip(p) == "" then [] else [Strip(p)]
  {
  }

  /** Text without a terminator is one piece. */
  lemma {:induction false} PiecesWhole(a: string)
    requires NoTerminator(a)
    ensures Pieces(a) == [a]
    decreases |a|
  {
    if |a| > 0 {
      PiecesWhole(a[1..]);
      assert [a[0]] + a[1..] == a;
    }
  }

  /** The first terminator ends the first piece; the rest is split on its
      own. */
  lemma {:induction false} PiecesCut(a: string, c: char, b: string)
    requires NoTerminator(a) && IsTerminator(c)
    ensures Pieces(a + [c] + b) == [a] + Pieces(b)
    decreases |a|
  {
    var s := a + [c] + b;
    if |a| == 0 {
      assert s == [c] + b;
      assert s[1..] == b;
    } else {
      assert s[1..] == a[1..] + [c] + b;
      PiecesCut(a[1..], c, b);
      assert [a[0]] + a[1..] == a;
    }
  }

  /** On normalised text the paragraphs are cut exactly at the terminators:
      the first paragraph is the stripped text before the first terminator
      (none when that is blank), and the others come from the pieces after
      it. */
  lemma SplitParagraphsCut(a: string, c: char, b: string)
    requires IsNormal(a + [c] + b) && NoTerminator(a) && IsTerminator(c)
    ensures SplitParagraphs(a + [c] + b) ==
              (if Strip(a) == "" then [] else [Strip(a)]) + Clean(Pieces(b))
  {
    NormalizeFixesNormal(a + [c] + b);
    PiecesCut(a, c, b);
    CleanAppend([a], Pieces(b));
    CleanOne(a);
  }

  /** Normalised text without a terminator is one paragraph, or none when
      it is empty. */
  lemma SplitParagraphsWhole(t: string)
    requires IsNormal(t) && NoTerminator(t)
    ensures SplitParagraphs(t) == if t == "" then [] else [t]
  {
    NormalizeFixesNormal(t);
    PiecesWhole(t);
    CleanOne(t);
    StripFixesTrimmed(t);
  }

  lemma NormalizedHasNoNewline(t: string)
    ensures '\n' !in Normalize(t)
  {
    var n := Normalize(t);
    forall i | 0 <= i < |n| ensures n[i] != '\n' {
      if IsSpace(n[i]) {
        assert n[i] == ' ';
      }
    }
  }

  lemma {:induction false} PiecesOfCollapsed(s: string)
    requires Collapsed(s)
    ensures forall i :: 0 <= i < |Pieces(s)| ==> Collapsed(Pieces(s)[i])
    decreases |s|
  {
    if |s| > 0 {
      SliceOfCollapsed(s, 1, |s|);
      PiecesOfCollapsed(s[1..]);
      var ps := Pieces(s);
      SliceOfCollapsed(s, 0, |ps[0]|);
    }
  }

  lemma StripKeeps(p: string)
    requires NoTerminator(p) && Collapsed(p)
    ensures NoTerminator(Strip(p)) && Collapsed(Strip(p))
  {
    var a := LeadingSpaces(p);
    var r := Strip(p);
    SliceOfCollapsed(p, a, a + |r|);
    forall k | 0 <= k < |r| ensures !IsTerminator(r[k]) {
      assert r[k] == p[a + k];
    }
  }

  lemma {:induction false} CleanKeeps(ps: seq<string>)
    requires forall i :: 0 <= i < |ps| ==> NoTerminator(ps[i]) && Collapsed(ps[i])
    ensures forall i :: 0 <= i < |Clean(ps)| ==> NoTerminator(Clean(ps)[i]) && Collapsed(Clean(ps)[i])
    decreases |ps|
  {
    if |ps| > 0 {
      CleanKeeps(ps[1..]);
      StripKeeps(ps[0]);
    }
  }

  lemma {:induction false} DropTerminatorsAppend(a: string, b: string)
    ensures DropTerminators(a + b) == DropTerminators(a) + DropTerminators(b)
    decreases |a|
  {
    if |a| > 0 {
      assert (a + b)[1..] == a[1..] + b;
      DropTerminatorsAppend(a[1..], b);
    } else {
      assert a + b == b;
    }
  }

  lemma VisibleAppend(a: string, b: string)
    ensures Visible(a + b) == Visible(a) + Visible(b)
  {
    NonSpaceAppend(a, b);
    DropTerminatorsAppend(NonSpace(a), NonSpace(b));
  }

  lemma VisibleStrip(p: string)
    ensures Visible(Strip(p)) == Visible(p)
  {
    StripKeepsContent(p);
  }

  /** Cutting at the terminators drops the terminators and nothing else. */
  lemma {:induction false} PiecesKeepText(s: string)
    ensures Concat(Pieces(s)) == DropTerminators(s)
    decreases |s|
  {
    if |s| > 0 {
      var rest := Pieces(s[1..]);
      PiecesKeepText(s[1..]);
      assert Concat(rest) == rest[0] + Concat(rest[1..]);
      if IsTerminator(s[0]) {
        assert ([""] + rest)[1..] == rest;
        assert Concat([""] + rest) == "" + Concat(rest);
      } else {
        var ps := Pieces(s);
        assert ps[1..] == rest[1..];
        assert Concat(ps) == [s[0]] + rest[0] + Concat(rest[1..]);
      }
    }
  }

  /** Dropping the terminators first changes nothing a reader sees. */
  lemma {:induction false} VisibleDropTerminators(s: string)
    ensures Visible(DropTerminators(s)) == Visible(s)
    decreases |s|
  {
    if |s| > 0 {
      VisibleDropTerminators(s[1..]);
      assert s == [s[0]] + s[1..];
      VisibleAppend([s[0]], s[1..]);
      if IsTerminator(s[0]) {
        assert !IsSpace(s[0]);
        assert [s[0]][1..] == "";
        assert Visible([s[0]]) == "";
      } else {
        VisibleAppend([s[0]], DropTerminators(s[1..]));
      }
    }
  }

  lemma VisibleConcatPieces(s: string)
    ensures Visible(Concat(Pieces(s))) == Visible(s)
  {
    PiecesKeepText(s);
    VisibleDropTerminators(s);
  }

  lemma {:induction false} VisibleConcatClean(ps: seq<string>)
    ensures Visible(Concat(Clean(ps))) == Visible(Concat(ps))
    decreases |ps|
  {
    if |ps| > 0 {
      VisibleConcatClean(ps[1..]);
      VisibleAppend(ps[0], Concat(ps[1..]));
      VisibleStrip(ps[0]);
      if Strip(ps[0]) != "" {
        VisibleAppend(Strip(ps[0]), Concat(Clean(ps[1..])));
      }
    }
  }

  /** Splitting into paragraphs loses no visible text: read in order, the
      paragraphs hold exactly the characters of `t` other than whitespace and
      the sentence terminators. */
  lemma SplitKeepsText(t: string)
    ensures Visible(Concat(SplitParagraphs(t))) == Visible(t)
  {
    var n := Normalize(t);
    VisibleConcatClean(Pieces(n));
    VisibleConcatPieces(n);
    NormalizeKeepsContent(t);
  }

  // ---------------------------------------------------------------------
  // Diff
  // ---------------------------------------------------------------------

  /** `p[:60] + ("…" if len(p) > 60 else "")`. */
  function Title(text: string): (r: string)
    ensures |r| <= 61
    ensures |text| <= 60 ==> r == text
    ensures |text| > 60 ==> r == text[..60] + [Ellipsis]
  {
    Ellipsize(text, 60)
  }

  function EntryFor(p: string): DiffEntry {
    DiffEntry(p, "", Title(p))
  }

  function Texts(es: seq<DiffEntry>): (r: seq<string>)
    ensures |r| == |es|
    ensures forall i :: 0 <= i < |es| ==> r[i] == es[i].text
  {
    seq(|es|, i requires 0 <= i < |es| => es[i].text)
  }

  ghost predicate Distinct(s: seq<string>) {
    forall i, j :: 0 <= i < j < |s| ==> s[i] != s[j]
  }

  /** The distinct elements of `ps` that are not in `excl`, in order of first
      occurrence: a listing of the set `set(ps) - excl`. */
  function Unseen(ps: seq<string>, excl: set<string>): (r: seq<string>)
    ensures forall p :: p in r <==> p in ps && p !in excl
    ensures Distinct(r)
    decreases |ps|
  {
    if |ps| == 0 then []
    else if ps[0] in excl then Unseen(ps[1..], excl)
    else [ps[0]] + Unseen(ps[1..], excl + {ps[0]})
  }

  function Entries(ps: seq<string>): (es: seq<DiffEntry>)
    ensures Texts(es) == ps
    ensures forall i :: 0 <= i < |es| ==> es[i] == EntryFor(es[i].text)
  {
    seq(|ps|, i requires 0 <= i < |ps| => EntryFor(ps[i]))
  }

  /** `diff(old_text, new_text)`: paragraphs only in the new text are `added`,
      paragraphs only in the old text are `removed`, each listed once; the
      `changed` list is never filled. Python lists the two set differences in
      hash-set order, which nothing depends on; the model lists them in order
      of first occurrence. */
  function Diff(oldText: string, newText: string): (d: DiffResult)
    ensures forall p :: p in Texts(d.added) <==>
              p in SplitParagraphs(newText) && p !in SplitParagraphs(oldText)
    ensures forall p :: p in Texts(d.removed) <==>
              p in SplitParagraphs(oldText) && p !in SplitParagraphs(newText)
    ensures Distinct(Texts(d.added)) && Distinct(Texts(d.removed))
    ensures forall i :: 0 <= i < |d.added| ==> d.added[i] == EntryFor(d.added[i].text)
    ensures forall i :: 0 <= i < |d.removed| ==> d.removed[i] == EntryFor(d.removed[i].text)
    ensures d.changed == []
  {
    var oldPs := SplitParagraphs(oldText);
    var newPs := SplitParagraphs(newText);
    var oldSet := set p | p in oldPs;
    var newSet := set p | p in newPs;
    DiffResult(Entries(Unseen(newPs, oldSet)), Entries(Unseen(oldPs, newSet)), [])
  }

  /** No paragraph is both added and removed. */
  lemma DiffDisjoint(oldText: string, newText: string)
    ensures forall p :: p in Texts(Diff(oldText, newText).added) ==> p !in Texts(Diff(oldText, newText).removed)
  {
  }

  /** Comparing a text with itself finds nothing. */
  lemma DiffSelf(t: string)
    ensures Diff(t, t) == EmptyDiff
  {
    var d := Diff(t, t);
    NoMemberMeansEmpty(Texts(d.added));
    NoMemberMeansEmpty(Texts(d.removed));
  }

  lemma NoMemberMeansEmpty(s: seq<string>)
    ensures (forall p :: p !in s) ==> s == []
  {
    assert |s| > 0 ==> s[0] in s;
  }

  // ---------------------------------------------------------------------
  // Approval buttons
  // ---------------------------------------------------------------------

  const ApprovePrefix := "approve:"
  const RejectPrefix := "reject:"

  /** `f"approve:{url_hash}:{change_hash}"`. */
  function ApproveId(urlHash: string, changeHash: string): (id: string)
    ensures StartsWith(id, ApprovePrefix)
  {
    ApprovePrefix + urlHash + ":" + changeHash
  }

  /** `f"reject:{url_hash}:{change_hash}"`. */
  function RejectId(urlHash: string, changeHash: string): (id: string)
    ensures StartsWith(id, RejectPrefix)
  {
    RejectPrefix + urlHash + ":" + changeHash
  }

  /** `str(interaction.user) if interaction.user else ""`. */
  function UserName(user: Option<string>): string {
    user.GetOr("")
  }

  /** The decision a pressed button carries: its custom id starting with
      "approve:" approves, with "reject:" rejects with an empty reason,
      anything else (including a missing id) leaves the approval pending. */
  function DecodeDecision(customId: Option<string>, user: Option<string>): (a: Approval)
    ensures a.state == Approved <==> customId.Some? && StartsWith(customId.value, ApprovePrefix)
    ensures a.state == Rejected <==> customId.Some? && StartsWith(customId.value, RejectPrefix)
    ensures a.state == Approved ==> a == Approval(Approved, Some(UserName(user)), None)
    ensures a.state == Rejected ==> a == Approval(Rejected, Some(UserName(user)), Some(""))
    ensures a.state == Pending ==> a == PendingApproval
  {
    match customId
    case Some(id) =>
      PrefixesExclusive(id);
      if id != "" && StartsWith(id, ApprovePrefix) then Approval(Approved, Some(UserName(user)), None)
      else if id != "" && StartsWith(id, RejectPrefix) then Approval(Rejected, Some(UserName(user)), Some(""))
      else PendingApproval
    case None => PendingApproval
  }

  /** No custom id starts with both "approve:" and "reject:". */
  lemma PrefixesExclusive(id: string)
    ensures !(StartsWith(id, ApprovePrefix) && StartsWith(id, RejectPrefix))
  {
    assert StartsWith(id, ApprovePrefix) ==> id[0] == 'a';
  }

  /** The buttons posted with a notification decode to what their labels say. */
  lemma ButtonsDecode(urlHash: string, changeHash: string, user: Option<string>)
    ensures DecodeDecision(Some(ApproveId(urlHash, changeHash)), user).state == Approved
    ensures DecodeDecision(Some(RejectId(urlHash, changeHash)), user) == Approval(Rejected, Some(UserName(user)), Some(""))
  {
    assert ApproveId(urlHash, changeHash)[..|ApprovePrefix|] == ApprovePrefix;
    assert RejectId(urlHash, changeHash)[..|RejectPrefix|] == RejectPrefix;
  }

  /** An interaction event as the bot receives it. `data` is `None` when the
      interaction carries no data, `Some(None)` when the data has no custom id. */
  datatype Interaction = Interaction(
    messageId: Option<string>,
    isComponent: bool,
    data: Option<Option<string>>,
    user: Option<string>)

  /** The filter of `await_interaction`: a component interaction with data on
      the awaited message. Only the message id is compared. */
  predicate Matches(ev: Interaction, messageId: string) {
    ev.data.Some? && ev.messageId == Some(messageId) && ev.isComponent
  }

  /** Event `i` is the first event of the window that passes the filter. */
  ghost predicate FirstMatch(events: seq<Interaction>, messageId: string, i: nat) {
    && i < |events|
    && Matches(events[i], messageId)
    && forall j :: 0 <= j < i ==> !Matches(events[j], messageId)
  }

  /** `DiscordClient.await_interaction`: the first matching event of the wait
      window decides; if none arrives before the timeout, the approval stays
      pending. */
  function AwaitInteraction(messageId: string, events: seq<Interaction>): (a: Approval)
    ensures (forall i :: 0 <= i < |events| ==> !Matches(events[i], messageId)) ==> a == PendingApproval
    ensures forall i: nat :: FirstMatch(events, messageId, i) ==>
              a == DecodeDecision(events[i].data.value, events[i].user)
  {
    if |events| == 0 then PendingApproval
    else if Matches(events[0], messageId) then DecodeDecision(events[0].data.value, events[0].user)
    else
      var rest := events[1..];
      var a := AwaitInteraction(messageId, rest);
      assert forall i: nat :: FirstMatch(events, messageId, i) ==> i > 0 && FirstMatch(rest, messageId, i - 1) by {
        forall i: nat | FirstMatch(events, messageId, i) ensures i > 0 && FirstMatch(rest, messageId, i - 1) {
          assert rest[i - 1] == events[i];
          forall j | 0 <= j < i - 1 ensures !Matches(rest[j], messageId) {
            assert rest[j] == events[j + 1];
          }
        }
      }
      assert (forall i :: 0 <= i < |events| ==> !Matches(events[i], messageId)) ==>
             (forall i :: 0 <= i < |rest| ==> !Matches(rest[i], messageId));
      a
  }

  /** Since only the message id is compared, a button whose custom id names a
      different URL or change is honoured just the same. */
  lemma AwaitIgnoresCorrelationKey(messageId: string, urlHash: string, changeHash: string, user: Option<string>)
    ensures AwaitInteraction(messageId, [Interaction(Some(messageId), true, Some(Some(ApproveId(urlHash, changeHash))), user)]).state == Approved
  {
    ButtonsDecode(urlHash, changeHash, user);
  }

  /** What the approval wait ran into. */
  datatype WaitOutcome =
    | WaitRaised(error: string)       // the client failed while connecting or waiting
    | NoCredentials                   // bot token or channel id not configured
    | Events(events: seq<Interaction>)  // the interactions seen before the timeout

  /** `await_discord`: `None` when it raises; pending without credentials. */
  function AwaitDiscord(messageId: string, wait: WaitOutcome): (r: Option<Approval>)
    ensures r.None? <==> wait.WaitRaised?
    ensures wait.NoCredentials? ==> r == Some(PendingApproval)
    ensures wait.Events? ==> r == Some(AwaitInteraction(messageId, wait.events))
  {
    match wait
    case WaitRaised(_) => None
    case NoCredentials => Some(PendingApproval)
    case Events(evs) => Some(AwaitInteraction(messageId, evs))
  }

  /** How posting the notification went: `post_discord` raised, or it returned
      a message id and the wait on it had the given outcome. */
  datatype DiscordSession =
    | PostRaised(error: string)
    | Posted(messageId: string, wait: WaitOutcome)
}
