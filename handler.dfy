/**
 * `JiraHandler`: the logging handler that reports a record to JIRA and falls
 * back to mailing the administrators. Its settings are fixed when it is built;
 * the JIRA client is built on first use and kept; `emit` never lets a failure
 * of the JIRA path escape.
 */
module Handler {
  import opened Types
  import opened Fingerprint
  import opened Jql
  import opened Reconciler
  import opened Gateway

  // --------------------------------------------------------- configuration

  /** The keyword arguments of `JiraHandler.__init__`. An absent string stands
      for Python's None or False. */
  datatype Options = Options(
    includeHtml: bool,
    serverUrl: Option<string>,
    user: Option<string>,
    password: Option<string>,
    authType: Option<string>,
    issueDefaults: Option<map<string, FieldValue>>,
    reopenClosed: seq<int>,
    reopenAction: int,
    wontFix: int,
    commentReopenOnly: bool,
    mailLogger: string,
    noViewFullStack: bool)

  /** The defaults of `__init__`: user and password False, `wont_fix` False (0). */
  function DefaultOptions(): Options {
    Options(false, Some("http://localhost:2990/jira/"), None, None, None, None,
            [4, 6], 3, 0, false, "mail_admins", false)
  }

  /**
   * Built with the defaults alone the handler is unused, as user and password
   * are False. Given credentials, the default `reopen_closed` and `wont_fix`
   * (False, which equals 0) reopen an issue in status 4 or 6 exactly when it
   * has a resolution other than 0.
   */
  lemma DefaultSettings(c: Config, issue: Issue)
    requires c.reopenClosed == DefaultOptions().reopenClosed && c.wontFix == DefaultOptions().wontFix
    ensures !Truthy(DefaultOptions().user) && !Truthy(DefaultOptions().password)
    ensures Reopens(c, issue) <==>
      (issue.statusId == 4 || issue.statusId == 6) && issue.resolution.Some? && issue.resolution.value != 0
  {
  }

  /** The entry `name` of the defaults as a mapping: missing, it becomes
      `{field: fallback}`; a plain value v becomes `{field: v}`. */
  function AsMapping(d: map<string, FieldValue>, name: string, field: string, fallback: string): (v: FieldValue)
    ensures v.Dict?
    ensures name !in d ==> v == Dict(map[field := fallback])
    ensures name in d && d[name].Scalar? ==> v == Dict(map[field := d[name].text])
    ensures name in d && d[name].Dict? ==> v == d[name]
  {
    if name !in d then Dict(map[field := fallback])
    else match d[name]
      case Dict(_) => d[name]
      case Scalar(text) => Dict(map[field := text])
  }

  /**
   * The issue defaults a configured handler keeps: a copy of the given ones
   * in which `project` and `issuetype` are mappings, filled in with
   * `{'key': 'JIRA'}` and `{'id': '1'}` when missing.
   */
  function NormalisedDefaults(given: Option<map<string, FieldValue>>): (r: map<string, FieldValue>)
    ensures "project" in r && r["project"].Dict? && "issuetype" in r && r["issuetype"].Dict?
    ensures given.None? ==> r == map["project" := Dict(map["key" := "JIRA"]), "issuetype" := Dict(map["id" := "1"])]
    ensures given.Some? ==> r.Keys == given.value.Keys + {"project", "issuetype"}
    ensures given.Some? ==> forall k :: k in given.value && k != "project" && k != "issuetype" ==> r[k] == given.value[k]
    ensures given.Some? && "project" !in given.value ==> r["project"] == Dict(map["key" := "JIRA"])
    ensures given.Some? && "project" in given.value ==>
      r["project"] == (if given.value["project"].Dict? then given.value["project"]
                       else Dict(map["key" := given.value["project"].text]))
    ensures given.Some? && "issuetype" !in given.value ==> r["issuetype"] == Dict(map["id" := "1"])
    ensures given.Some? && "issuetype" in given.value ==>
      r["issuetype"] == (if given.value["issuetype"].Dict? then given.value["issuetype"]
                         else Dict(map["id" := given.value["issuetype"].text]))
  {
    var d := if given.Some? then given.value else map[];
    d["project" := AsMapping(d, "project", "key", "JIRA")]["issuetype" := AsMapping(d, "issuetype", "id", "1")]
  }

  /** The defaults hold `project` as a mapping, as normalisation leaves them. */
  predicate ProjectIsMapping(d: map<string, FieldValue>) {
    "project" in d && d["project"].Dict?
  }

  function LowerChar(c: char): char {
    if 'A' <= c <= 'Z' then (c as int + 32) as char else c
  }

  /** `str.lower()` on ASCII letters. */
  function Lower(s: string): (r: string)
    ensures |r| == |s|
  {
    seq(|s|, i requires 0 <= i < |s| => LowerChar(s[i]))
  }

  /**
   * What building the client gives when none is kept yet: no client without a
   * URL (an unused handler), AttributeError for auth type None (`.lower()` runs
   * before the `is None` test, so that test never holds), a basic-auth client
   * for "basic" in any case when the server accepts it, NotImplementedError
   * for "oauth", and an error for anything else.
   */
  function Connect(config: Option<Config>, reply: Outcome): Outcome {
    match config
    case None => Fail(BadConfiguration)
    case Some(c) =>
      match c.authType
      case None => Fail(AttributeError("lower"))
      case Some(a) =>
        if Lower(a) == "basic" then reply
        else if Lower(a) == "oauth" then Fail(NotImplemented)
        else Fail(InvalidAuthType)
  }

  /**
   * Building the client: auth type None fails on `.lower()`; "basic", in any
   * case, gives the server's answer; "oauth", in any case, is not
   * implemented; anything else is refused, whatever the server would say.
   */
  lemma ConnectOutcomes(c: Config, reply: Outcome)
    ensures c.authType.None? ==> Connect(Some(c), reply) == Fail(AttributeError("lower"))
    ensures c.authType.Some? && Lower(c.authType.value) == "basic" ==> Connect(Some(c), reply) == reply
    ensures c.authType.Some? && Lower(c.authType.value) == "oauth" ==> Connect(Some(c), reply) == Fail(NotImplemented)
    ensures c.authType.Some? && Lower(c.authType.value) != "basic" && Lower(c.authType.value) != "oauth" ==>
      Connect(Some(c), reply) == Fail(InvalidAuthType)
    ensures c.authType.Some? ==>
      (Connect(Some(c), reply).Pass? <==> Lower(c.authType.value) == "basic" && reply.Pass?)
    ensures Connect(Some(c.(authType := Some("BASIC"))), reply) == reply
  {
    assert Lower("BASIC") == "basic";
  }

  // ------------------------------------------------------ reporting a record

  /** Whether the whole stack is reported: asked for by the record, or the
      view could not be found and `no_view_full_stack` is set. */
  function FullStack(config: Option<Config>, record: LogRecord, caller: Option<string>): bool {
    record.fullStack || (caller.None? && config.Some? && config.value.noViewFullStack)
  }

  /** The description sent to JIRA: the issue message with its colour codes
      converted. */
  function Body(config: Option<Config>, record: LogRecord, env: Env): string {
    var caller := ResolvedCaller(record, env.view);
    ColourToJira(IssueMessage(record.message, StackTrace(record, FullStack(config, record, caller), env.callerStack), record.request))
  }

  /** An exception without a traceback (`exc_info[2]` is None) whose whole
      stack is asked for: `exc_info[2].tb_frame` raises AttributeError. */
  predicate NoTracebackFrame(config: Option<Config>, record: LogRecord, caller: Option<string>) {
    record.excInfo.Some? && record.excInfo.value.frames == [] && FullStack(config, record, caller)
  }

  /**
   * The title and the description of a report, or why they cannot be built:
   * an unused handler whose view is not found has no `no_view_full_stack`
   * setting, an exception without view or traceback frame has no culprit, and
   * an exception without traceback has no frame to take the full stack from.
   */
  function Compose(config: Option<Config>, record: LogRecord, env: Env): Result<(string, string)> {
    var caller := ResolvedCaller(record, env.view);
    if caller.None? && config.None? then Failure(AttributeError("no_view_full_stack"))
    else match Title(record, caller)
      case Failure(e) => Failure(e)
      case Success(title) =>
        if NoTracebackFrame(config, record, caller) then Failure(AttributeError("tb_frame"))
        else Success((title, Body(config, record, env)))
  }

  /**
   * Composing fails exactly on those three causes, in this order, and
   * otherwise gives the record's title and description. The last one only
   * arises for a resolved view and a record asking for `full_stack`.
   */
  lemma ComposeOutcomes(config: Option<Config>, record: LogRecord, env: Env)
    ensures var caller := ResolvedCaller(record, env.view);
      var r := Compose(config, record, env);
      && (r.Failure? <==>
            (caller.None? && config.None?) || Title(record, caller).Failure? || NoTracebackFrame(config, record, caller))
      && (r.Failure? ==>
            r.error == (if caller.None? && config.None? then AttributeError("no_view_full_stack")
                        else if Title(record, caller).Failure? then IndexError
                        else AttributeError("tb_frame")))
      && (Title(record, caller).Success? && NoTracebackFrame(config, record, caller) ==>
            caller.Some? && record.fullStack)
      && (r.Success? ==> r.value == (Title(record, caller).value, Body(config, record, env)))
  {
  }

  /** What reporting one record did: whether it built the client, the requests
      it sent, and how it ended. */
  datatype ReportEffect = ReportEffect(connected: bool, calls: seq<Call>, result: Outcome)

  /**
   * `_emit` as a function of the handler's settings, whether a client is
   * already kept, the record and its surroundings.
   */
  function ReportSpec(config: Option<Config>, hasClient: bool, composed: Result<(string, string)>, replies: Replies): ReportEffect
    requires hasClient ==> config.Some?
    requires config.Some? ==> ProjectIsMapping(config.value.issueDefaults)
  {
    match composed
    case Failure(e) => ReportEffect(false, [], Fail(e))
    case Success(parts) =>
      var access := if hasClient then Pass else Connect(config, replies.connect);
      if access.Fail? then ReportEffect(false, [], access)
      else
        var c := config.value;
        var project := c.issueDefaults["project"].fields;
        if "key" !in project then ReportEffect(!hasClient, [], Fail(KeyError("key")))
        else
          var search := Search(QueryAsWritten(project["key"], parts.0), 1);
          match replies.search
          case Failure(e) => ReportEffect(!hasClient, [search], Fail(e))
          case Success(existing) =>
            var r := Reconcile(c, parts.0, parts.1, existing, replies);
            ReportEffect(!hasClient, [search] + r.calls, r.result)
  }

  /**
   * A handler without a server URL, user or password never reaches JIRA:
   * reporting fails without building a client or sending a request.
   */
  lemma UnusedNeverReachesJira(record: LogRecord, env: Env)
    ensures ReportSpec(None, false, Compose(None, record, env), env.replies).result.Fail?
    ensures ReportSpec(None, false, Compose(None, record, env), env.replies).calls == []
    ensures !ReportSpec(None, false, Compose(None, record, env), env.replies).connected
  {
  }

  /** When the search fails, the only request sent is the search: nothing is
      created, commented on or transitioned, and reporting fails. */
  lemma SearchFailureWritesNothing(config: Option<Config>, hasClient: bool, record: LogRecord, env: Env)
    requires hasClient ==> config.Some?
    requires config.Some? ==> ProjectIsMapping(config.value.issueDefaults)
    requires env.replies.search.Failure?
    ensures var e := ReportSpec(config, hasClient, Compose(config, record, env), env.replies);
      e.result.Fail? && |e.calls| <= 1 && forall k :: 0 <= k < |e.calls| ==> e.calls[k].Search?
  {
  }

  /**
   * Once the title and the description are composed, every request of a
   * report goes to the search first, with `maxResults=1` and the query as the
   * handler writes it; the search is made whenever the client is at hand and
   * the project has a key. A failed search ends the report, and otherwise the
   * requests that follow and the outcome are those of the reconciliation
   * decision on its answer.
   */
  lemma ReportSearchesFirst(config: Option<Config>, hasClient: bool, title: string, body: string, replies: Replies)
    requires hasClient ==> config.Some?
    requires config.Some? ==> ProjectIsMapping(config.value.issueDefaults)
    ensures var e := ReportSpec(config, hasClient, Success((title, body)), replies);
      e.calls != [] <==>
        && config.Some? && "key" in config.value.issueDefaults["project"].fields
        && (hasClient || Connect(config, replies.connect).Pass?)
    ensures var e := ReportSpec(config, hasClient, Success((title, body)), replies);
      e.calls != [] ==>
        var key := config.value.issueDefaults["project"].fields["key"];
        && e.calls[0] == Search(QueryAsWritten(key, title), 1)
        && (replies.search.Failure? ==> |e.calls| == 1 && e.result == Fail(replies.search.error))
        && (replies.search.Success? ==>
              var r := Reconcile(config.value, title, body, replies.search.value, replies);
              e.calls[1..] == r.calls && e.result == r.result)
  {
  }

  /**
   * What the server reads from the search of a report: for a key and a title
   * without quotes and backslashes, exactly the key and the quoted title; for
   * a plain key and a title with a quote that no backslash precedes, nothing
   * of the intended shape.
   */
  lemma ReportQueryReadBack(config: Option<Config>, hasClient: bool, title: string, body: string, replies: Replies)
    requires hasClient ==> config.Some?
    requires config.Some? ==> ProjectIsMapping(config.value.issueDefaults)
    ensures var e := ReportSpec(config, hasClient, Success((title, body)), replies);
      e.calls != [] ==>
        var key := config.value.issueDefaults["project"].fields["key"];
        && ('"' !in key && '\\' !in key && '"' !in title && '\\' !in title ==>
              ParseQuery(e.calls[0].jql) == Some((key, "\"" + title + "\"")))
        && (forall n :: 0 <= n < |title| && title[n] == '"' && '"' !in title[..n] && '\\' !in title[..n]
                        && '"' !in key && '\\' !in key ==>
              ParseQuery(e.calls[0].jql) == None)
  {
    var e := ReportSpec(config, hasClient, Success((title, body)), replies);
    if e.calls != [] {
      var key := config.value.issueDefaults["project"].fields["key"];
      ReportSearchesFirst(config, hasClient, title, body, replies);
      assert e.calls[0].jql == QueryAsWritten(key, title);
      if '"' !in key && '\\' !in key && '"' !in title && '\\' !in title {
        QueryAgreesOnPlainText(key, title);
        QueryRoundTrip(key, title);
      }
      forall n | 0 <= n < |title| && title[n] == '"' && '"' !in title[..n] && '\\' !in title[..n]
                 && '"' !in key && '\\' !in key
        ensures ParseQuery(e.calls[0].jql) == None
      {
        assert title == title[..n] + "\"" + title[n + 1..];
        QueryAsWrittenBreaksOnQuote(key, title[..n], title[n + 1..]);
      }
    }
  }

  /** A report that cannot compose its title sends nothing to the server. */
  lemma ComposeFailureSendsNothing(config: Option<Config>, hasClient: bool, record: LogRecord, env: Env)
    requires hasClient ==> config.Some?
    requires config.Some? ==> ProjectIsMapping(config.value.issueDefaults)
    requires Compose(config, record, env).Failure?
    ensures var e := ReportSpec(config, hasClient, Compose(config, record, env), env.replies);
      e.calls == [] && !e.connected && e.result == Fail(Compose(config, record, env).error)
  {
  }

  /**
   * Escaping the quotes of an exception title, as the handler does, does not
   * make it safe in the query: each `"` becomes `\\"`, which the server reads
   * as an escaped backslash followed by the end of the literal. So every
   * culprit holding a quote gives a query the server cannot read as meant.
   */
  lemma EscapedTitleStillBreaksQuery(key: string, typeName: string, before: string, after: string)
    requires '"' !in key && '\\' !in key
    requires '"' !in typeName + " thrown by " + before && '\\' !in typeName + " thrown by " + before
    ensures ParseQuery(QueryAsWritten(key, ExceptionTitle(typeName, before + "\"" + after))) == None
  {
    var plain := typeName + " thrown by " + before;
    assert typeName + " thrown by " + (before + "\"" + after) == plain + ("\"" + after);
    EscapeQuotesAppend(plain, "\"" + after);
    EscapeQuotesPlain(plain);
    assert ("\"" + after)[1..] == after;
    assert EscapeQuotes("\"" + after) == "\\\\\"" + EscapeQuotes(after);
    assert ExceptionTitle(typeName, before + "\"" + after) == plain + "\\\\\"" + EscapeQuotes(after);
    EscapedQuoteClosesSummary(key, plain, EscapeQuotes(after));
  }

  // -------------------------------------------------------- fallback mails

  /** The two mails `fire_email` sends: the record itself, then a "Problem
      Working with Jira Server" record carrying the cause, if any. */
  function FallbackMails(record: LogRecord, cause: Option<Error>, includeHtml: bool): seq<Mail> {
    [Report(record, includeHtml),
     Problem(ProblemRecord("Problem Working with Jira Server", "ERROR", record.request, cause), includeHtml)]
  }

  // ------------------------------------------------------------ the handler

  class JiraHandler {
    const includeHtml: bool
    const unused: bool
    /** The settings, present exactly when the handler is used. */
    const config: Option<Config>
    /** `_jr`: the client, once built. */
    var jr: JiraClient?
    /** The mails sent through the fallback channel, in order. */
    ghost var mails: seq<Mail>

    ghost predicate Valid()
      reads this
    {
      && (unused <==> config.None?)
      && (config.Some? ==> ProjectIsMapping(config.value.issueDefaults))
      && (jr != null ==>
            && config.Some?
            && jr.server == config.value.jiraUrl
            && jr.user == config.value.jiraUser
            && jr.password == config.value.jiraPwd)
    }

    /** The client, as a frame. */
    ghost function Clients(): set<object>
      reads this
    {
      if jr == null then {} else {jr}
    }

    /**
     * `__init__`: unused when the server URL, user or password is falsy;
     * otherwise the settings are kept and the issue defaults normalised in a
     * copy of the caller's mapping.
     */
    constructor (opts: Options)
      ensures Valid() && jr == null && mails == []
      ensures includeHtml == opts.includeHtml
      ensures unused <==> !Truthy(opts.serverUrl) || !Truthy(opts.user) || !Truthy(opts.password)
      ensures unused ==> config.None?
      ensures !unused ==> config == Some(Config(
        opts.serverUrl.value, opts.user.value, opts.password.value, opts.authType,
        NormalisedDefaults(opts.issueDefaults), opts.reopenClosed, opts.reopenAction, opts.wontFix,
        opts.commentReopenOnly, opts.mailLogger, opts.noViewFullStack))
    {
      includeHtml := opts.includeHtml;
      if !Truthy(opts.serverUrl) || !Truthy(opts.user) || !Truthy(opts.password) {
        unused := true;
        config := None;
      } else {
        unused := false;
        var defaults: map<string, FieldValue> := map[];
        if opts.issueDefaults.Some? && |opts.issueDefaults.value| > 0 {
          defaults := opts.issueDefaults.value;
        }
        ghost var given := defaults;
        assert given == if opts.issueDefaults.Some? then opts.issueDefaults.value else map[];
        if "project" !in defaults {
          defaults := defaults["project" := Dict(map["key" := "JIRA"])];
        } else if !defaults["project"].Dict? {
          defaults := defaults["project" := Dict(map["key" := defaults["project"].text])];
        } else {
          assert defaults == defaults["project" := defaults["project"]];
        }
        assert defaults == given["project" := AsMapping(given, "project", "key", "JIRA")];
        ghost var withProject := defaults;
        if "issuetype" !in defaults {
          defaults := defaults["issuetype" := Dict(map["id" := "1"])];
        } else if !defaults["issuetype"].Dict? {
          defaults := defaults["issuetype" := Dict(map["id" := defaults["issuetype"].text])];
        } else {
          assert defaults == defaults["issuetype" := defaults["issuetype"]];
        }
        assert defaults == withProject["issuetype" := AsMapping(given, "issuetype", "id", "1")];
        assert defaults == NormalisedDefaults(opts.issueDefaults);
        config := Some(Config(
          opts.serverUrl.value, opts.user.value, opts.password.value, opts.authType,
          defaults, opts.reopenClosed, opts.reopenAction, opts.wontFix,
          opts.commentReopenOnly, opts.mailLogger, opts.noViewFullStack));
      }
      jr := null;
      mails := [];
    }

    /** `_jira`: the kept client, or a new one built and kept. */
    method Jira(connect: Outcome) returns (r: Result<JiraClient>)
      requires Valid()
      modifies this`jr
      ensures Valid()
      ensures old(jr) != null ==> jr == old(jr) && r == Success(jr)
      ensures old(jr) == null ==> (r.Success? <==> Connect(config, connect).Pass?)
      ensures old(jr) == null && r.Failure? ==> jr == null && Connect(config, connect) == Fail(r.error)
      ensures old(jr) == null && r.Success? ==> jr == r.value && fresh(jr) && jr.requests == []
    {
      if jr != null {
        return Success(jr);
      }
      if config.None? {
        return Failure(BadConfiguration);
      }
      var c := config.value;
      if c.authType.None? {
        return Failure(AttributeError("lower"));
      }
      var authType := Lower(c.authType.value);
      if authType == "basic" {
        if connect.Fail? {
          return Failure(connect.error);
        }
        jr := new JiraClient(c.jiraUrl, c.jiraUser, c.jiraPwd);
        return Success(jr);
      } else if authType == "oauth" {
        return Failure(NotImplemented);
      } else {
        return Failure(InvalidAuthType);
      }
    }

    /** `fire_email`: the record, and the problem record with the cause. */
    method FireEmail(record: LogRecord, cause: Option<Error>)
      modifies this`mails
      ensures mails == old(mails) + FallbackMails(record, cause, includeHtml)
    {
      mails := mails + [Report(record, includeHtml)];
      mails := mails + [Problem(ProblemRecord("Problem Working with Jira Server", "ERROR", record.request, cause), includeHtml)];
    }

    /**
     * `emit`: an unused handler mails the record first; then the record is
     * reported to JIRA, and any failure of that is mailed with its cause
     * instead of being raised.
     */
    method Emit(record: LogRecord, env: Env)
      requires Valid()
      modifies this, Clients()
      ensures Valid()
      ensures var e := ReportSpec(config, old(jr) != null, Compose(config, record, env), env.replies);
        && mails == old(mails)
                    + (if unused then FallbackMails(record, None, includeHtml) else [])
                    + (if e.result.Fail? then FallbackMails(record, Some(e.result.error), includeHtml) else [])
        && (old(jr) != null ==> jr == old(jr) && jr.requests == old(jr.requests) + e.calls)
        && (old(jr) == null ==> if e.connected then jr != null && fresh(jr) && jr.requests == e.calls else jr == null)
    {
      ghost var e := ReportSpec(config, jr != null, Compose(config, record, env), env.replies);
      ghost var first := mails + (if unused then FallbackMails(record, None, includeHtml) else []);
      if unused {
        FireEmail(record, None);
      }
      assert mails == first;
      var outcome := ReportToJira(record, env);
      assert outcome == e.result;
      if outcome.Fail? {
        FireEmail(record, Some(outcome.error));
      }
    }

    /**
     * The first half of `_emit`: the title and the description, built up
     * step by step; fails as `_emit` does before it reaches the server.
     */
    method ComposeIssue(record: LogRecord, env: Env) returns (r: Result<(string, string)>)
      ensures r == Compose(config, record, env)
    {
      var issueTitle := record.message;
      var issueMsg := record.message;
      var stackTrace := "";
      var request := record.request;
      var fullStack := record.fullStack;

      // the view found by URL resolution, which fails without a request
      var caller := ResolvedCaller(record, env.view);
      if caller.None? {
        if config.None? {
          return Failure(AttributeError("no_view_full_stack"));
        }
        if config.value.noViewFullStack {
          fullStack := true;
        }
      }
      assert fullStack == FullStack(config, record, caller);

      if record.excInfo.Some? {
        var exc := record.excInfo.value;
        var culprit: string;
        if caller.Some? {
          culprit := caller.value;
        } else {
          if exc.frames == [] {
            return Failure(IndexError);
          }
          culprit := exc.frames[|exc.frames| - 1];
        }
        issueTitle := EscapeQuotes(exc.typeName + " thrown by " + culprit);
        if fullStack {
          if exc.frames == [] {
            return Failure(AttributeError("tb_frame"));
          }
          stackTrace := TracebackHeader + exc.fullStack;
        } else {
          stackTrace := exc.formatted;
        }
      } else if fullStack {
        stackTrace := TracebackHeader + env.callerStack;
      }
      assert stackTrace == StackTrace(record, fullStack, env.callerStack);

      if stackTrace != "" {
        issueMsg := issueMsg + Section("Traceback", stackTrace);
      }
      if request.Some? {
        issueMsg := issueMsg + Section("Request", request.value.repr);
      }
      assert issueMsg == IssueMessage(record.message, stackTrace, record.request);
      issueMsg := ColourToJira(issueMsg);
      assert !NoTracebackFrame(config, record, caller);
      assert Title(record, caller) == Success(issueTitle);
      assert Body(config, record, env) == issueMsg;
      return Success((issueTitle, issueMsg));
    }

    /**
     * The second half of `_emit`, once the search answered `issues`: the
     * first issue whose summary is the title is reopened and commented on as
     * the settings say, and without one a new issue is created.
     */
    method ActOnSearch(client: JiraClient, issues: seq<Issue>, issueTitle: string, issueMsg: string, replies: Replies)
      returns (outcome: Outcome)
      requires config.Some?
      modifies client
      ensures var e := Reconcile(config.value, issueTitle, issueMsg, issues, replies);
        client.requests == old(client.requests) + e.calls && outcome == e.result
    {
      var c := config.value;
      var found := false;
      var i := 0;
      while i < |issues|
        invariant 0 <= i <= |issues|
        invariant forall j :: 0 <= j < i ==> issues[j].summary != issueTitle
        invariant client.requests == old(client.requests)
      {
        var issue := issues[i];
        if issueTitle == issue.summary {
          assert FirstExact(issues, issueTitle) == Some(i);
          var reopened: bool;
          if Reopens(c, issue) {
            var t := client.TransitionIssue(issue, IntToDecimal(c.reopenAction), replies.transition);
            if t.Fail? {
              return t;
            }
            reopened := true;
          } else {
            reopened := false;
          }
          if reopened || !c.commentReopenOnly {
            outcome := client.AddComment(issue, issueMsg, replies.comment);
            if outcome.Fail? {
              return;
            }
          }
          found := true;
          break;
        }
        i := i + 1;
      }

      if !found {
        assert FirstExact(issues, issueTitle).None?;
        var fields := c.issueDefaults;
        fields := fields["summary" := Scalar(issueTitle)];
        fields := fields["description" := Scalar(issueMsg)];
        outcome := client.CreateIssue(fields, replies.create);
        return;
      }
      return Pass;
    }

    /**
     * `_emit` from the search on: gets the client, searches for the title
     * in the configured project, and acts on the answer.
     */
    method SearchAndAct(issueTitle: string, issueMsg: string, replies: Replies) returns (outcome: Outcome)
      requires Valid()
      modifies this`jr, Clients()
      ensures Valid()
      ensures var e := ReportSpec(config, old(jr) != null, Success((issueTitle, issueMsg)), replies);
        && outcome == e.result
        && (old(jr) != null ==> jr == old(jr) && jr.requests == old(jr.requests) + e.calls)
        && (old(jr) == null ==> if e.connected then jr != null && fresh(jr) && jr.requests == e.calls else jr == null)
    {
      ghost var e := ReportSpec(config, jr != null, Success((issueTitle, issueMsg)), replies);
      ghost var before := if jr != null then jr.requests else [];
      var access := Jira(replies.connect);
      if access.Failure? {
        return Fail(access.error);
      }
      var client := access.value;
      var project := config.value.issueDefaults["project"].fields;
      if "key" !in project {
        return Fail(KeyError("key"));
      }
      var existing := client.SearchIssues(QueryAsWritten(project["key"], issueTitle), 1, replies.search);
      if existing.Failure? {
        return Fail(existing.error);
      }
      ghost var searched := client.requests;
      outcome := ActOnSearch(client, existing.value, issueTitle, issueMsg, replies);
      assert client.requests == searched + Reconcile(config.value, issueTitle, issueMsg, existing.value, replies).calls;
      assert client.requests == before + e.calls;
    }

    /** `_emit`: composes the issue, then searches for it and acts on the answer. */
    method ReportToJira(record: LogRecord, env: Env) returns (outcome: Outcome)
      requires Valid()
      modifies this`jr, Clients()
      ensures Valid()
      ensures var e := ReportSpec(config, old(jr) != null, Compose(config, record, env), env.replies);
        && outcome == e.result
        && (old(jr) != null ==> jr == old(jr) && jr.requests == old(jr.requests) + e.calls)
        && (old(jr) == null ==> if e.connected then jr != null && fresh(jr) && jr.requests == e.calls else jr == null)
    {
      var composed := ComposeIssue(record, env);
      if composed.Failure? {
        return Fail(composed.error);
      }
      outcome := SearchAndAct(composed.value.0, composed.value.1, env.replies);
    }
  }
}
