/**
 * The decision `_emit` takes once the search has answered: act on the first
 * returned issue whose summary is exactly the title (reopen it when it is
 * closed with a resolution other than "won't fix", then comment on it), or
 * create a new issue from the defaults.
 */
module Reconciler {
  import opened Types

  /** The index of the first issue whose summary equals the title. */
  function FirstExact(issues: seq<Issue>, title: string): (r: Option<nat>)
    ensures r.Some? ==> r.value < |issues| && issues[r.value].summary == title
    ensures r.Some? ==> forall j :: 0 <= j < r.value ==> issues[j].summary != title
    ensures r.None? <==> forall j :: 0 <= j < |issues| ==> issues[j].summary != title
  {
    if issues == [] then None
    else if issues[0].summary == title then Some(0)
    else match FirstExact(issues[1..], title)
      case None => None
      case Some(i) => Some(i + 1)
  }

  /**
   * Whether a matched issue is reopened: its status is one of `reopen_closed`
   * and it has a resolution other than `wont_fix` (whose default False equals 0).
   */
  predicate Reopens(c: Config, issue: Issue) {
    issue.statusId in c.reopenClosed && issue.resolution.Some? && issue.resolution.value != c.wontFix
  }

  function Digit(d: nat): char
    requires d < 10
  {
    "0123456789"[d]
  }

  function NatToDecimal(n: nat): (r: string)
    ensures r != [] && forall i :: 0 <= i < |r| ==> '0' <= r[i] <= '9'
    decreases n
  {
    if n < 10 then [Digit(n)] else NatToDecimal(n / 10) + [Digit(n % 10)]
  }

  /** `str(n)` for an integer. */
  function IntToDecimal(n: int): string {
    if n < 0 then "-" + NatToDecimal(-n) else NatToDecimal(n)
  }

  /** The fields of a new issue: a copy of the defaults with the summary and the
      description set. */
  function CreateFields(defaults: map<string, FieldValue>, title: string, body: string): (r: map<string, FieldValue>)
    ensures r.Keys == defaults.Keys + {"summary", "description"}
    ensures r["summary"] == Scalar(title) && r["description"] == Scalar(body)
    ensures forall k :: k in defaults && k != "summary" && k != "description" ==> r[k] == defaults[k]
  {
    defaults["summary" := Scalar(title)]["description" := Scalar(body)]
  }

  /** The requests sent after the search, and how reporting ended. */
  datatype Effect = Effect(calls: seq<Call>, result: Outcome)

  /** What is done with the issue that matched. A reopened issue is always
      commented on; otherwise a comment is made unless `comment_reopen_only`. */
  function ActOnMatch(c: Config, issue: Issue, body: string, replies: Replies): Effect {
    if Reopens(c, issue) then
      var reopen := Transition(issue, IntToDecimal(c.reopenAction));
      if replies.transition.Fail? then Effect([reopen], replies.transition)
      else Effect([reopen, Comment(issue, body)], replies.comment)
    else if c.commentReopenOnly then Effect([], Pass)
    else Effect([Comment(issue, body)], replies.comment)
  }

  /** The whole decision once the search returned `existing`. */
  function Reconcile(c: Config, title: string, body: string, existing: seq<Issue>, replies: Replies): Effect {
    match FirstExact(existing, title)
    case None => Effect([Create(CreateFields(c.issueDefaults, title, body))], replies.create)
    case Some(i) => ActOnMatch(c, existing[i], body, replies)
  }

  predicate IsCreate(call: Call) { call.Create? }

  /**
   * Without an exact match, exactly one issue is created, from the defaults
   * with the title and the description, and nothing else is requested; with
   * one, nothing is created and every request is about the first exact match.
   */
  lemma CreateIffNoExactMatch(c: Config, title: string, body: string, existing: seq<Issue>, replies: Replies)
    ensures var e := Reconcile(c, title, body, existing, replies);
      (forall j :: 0 <= j < |existing| ==> existing[j].summary != title) ==>
        e.calls == [Create(CreateFields(c.issueDefaults, title, body))] && e.result == replies.create
    ensures var e := Reconcile(c, title, body, existing, replies);
      (exists j :: 0 <= j < |existing| && existing[j].summary == title) ==>
        exists i :: 0 <= i < |existing| && existing[i].summary == title
          && (forall j :: 0 <= j < i ==> existing[j].summary != title)
          && (forall k :: 0 <= k < |e.calls| ==> !IsCreate(e.calls[k]) && e.calls[k].issue == existing[i])
  {
    var e := Reconcile(c, title, body, existing, replies);
    match FirstExact(existing, title)
    case None =>
    case Some(i) =>
      assert forall k :: 0 <= k < |e.calls| ==> !IsCreate(e.calls[k]) && e.calls[k].issue == existing[i];
  }

  /**
   * On a matched issue the reopen transition, with `str(reopen_action)`, is
   * requested iff the reopen rule holds; a comment with the body is requested
   * iff the issue was reopened, or it was not to be reopened and comments are
   * not limited to reopened issues; and nothing else.
   */
  lemma MatchedIssueActions(c: Config, issue: Issue, body: string, replies: Replies)
    ensures var e := ActOnMatch(c, issue, body, replies);
      (Transition(issue, IntToDecimal(c.reopenAction)) in e.calls <==> Reopens(c, issue))
      && (Comment(issue, body) in e.calls <==>
            (Reopens(c, issue) && replies.transition.Pass?) || (!Reopens(c, issue) && !c.commentReopenOnly))
      && (forall k :: 0 <= k < |e.calls| ==>
            e.calls[k] == Transition(issue, IntToDecimal(c.reopenAction)) || e.calls[k] == Comment(issue, body))
      && (e.calls == [] ==> e.result == Pass)
  {
  }

  /** Issues whose summary is not exactly the title are passed over: putting
      any number of them in front of the answer changes nothing. */
  lemma {:induction false} InexactCandidatesIgnored(c: Config, title: string, body: string,
                                                    junk: seq<Issue>, existing: seq<Issue>, replies: Replies)
    requires forall j :: 0 <= j < |junk| ==> junk[j].summary != title
    ensures Reconcile(c, title, body, junk + existing, replies) == Reconcile(c, title, body, existing, replies)
  {
    FirstExactSkips(junk, existing, title);
  }

  lemma {:induction false} FirstExactSkips(junk: seq<Issue>, existing: seq<Issue>, title: string)
    requires forall j :: 0 <= j < |junk| ==> junk[j].summary != title
    ensures FirstExact(junk + existing, title) ==
      match FirstExact(existing, title)
      case None => None
      case Some(i) => Some(|junk| + i)
  {
    if junk == [] {
      assert junk + existing == existing;
    } else {
      var all := junk + existing;
      assert all[0] == junk[0] && all[0].summary != title;
      assert all[1..] == junk[1..] + existing;
      FirstExactSkips(junk[1..], existing, title);
    }
  }
}
