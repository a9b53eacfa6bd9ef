# django-jira: the JiraHandler reconciliation core in Dafny

django-jira is a Python logging handler. It turns a log record, typically an
unhandled exception in a Django view, into a JIRA ticket, and reports each
failure site only once.

The model follows `JiraHandler` in `django_jira/log.py`:

- **Construction.** The handler is *unused* when the server URL, user or
  password is falsy. Otherwise it keeps its settings and normalises a copy of
  the issue defaults, so that `project` and `issuetype` are mappings.
- **The client.** The JIRA client is built on first use and memoised. Which
  client is built depends on the auth type.
- **The title (fingerprint).** A record without an exception is titled with its
  message. A record with one is titled `<type> thrown by <culprit>`, with its
  quotes escaped. The culprit is the resolved view, or else the function of the
  innermost traceback frame.
- **The description.** It is the message, an optional Traceback section and an
  optional Request section. A leading ANSI colour code is then rewritten as JIRA
  `{color:...}` markup and leading newlines are stripped.
- **The search and the decision.** The handler searches the project for the
  title with `maxResults=1` and acts on the first result whose summary is
  exactly the title. It reopens a closed issue unless it was resolved as
  "won't fix", then comments on it. With no exact match, it creates a new issue
  from the defaults.
- **The fallback.** `emit` never raises. Any failure of `_emit` is mailed to the
  administrators together with a "Problem Working with Jira Server" record.

The model has six modules:

- `Types` holds the records, the settings, the requests and the errors.
- `Fingerprint` holds the title, the description and the colour conversion.
- `Jql` holds the search query as the handler writes it, a JQL-escaped query,
  and a simplified reader of JQL string literals. The reader approximates what
  the server understands from a query. The handler sends the query as
  written. The escaped query is the correction described under "Findings".
- `Reconciler` holds the decision taken on the search answer.
- `Gateway` holds the JIRA client: a class with a ghost log of the requests it
  sent.
- `Handler` holds the `JiraHandler` class, whose methods are proved against
  the functions `Compose`, `Connect` and `ReportSpec`.

The world outside the handler enters as parameters:

- URL resolution is the resolved view, if any.
- The formatted tracebacks and the request's text are strings on the record.
- The answers of the JIRA server form a `Replies` value, with one answer per
  kind of request.

Python exceptions are modelled as an `Error` value in a `Result` or an
`Outcome`.

## Model

| member | source | states |
|---|---|---|
| `Handler.JiraHandler.constructor` | django_jira/log.py:39-79 | The handler is unused iff the server URL, user or password is falsy, and an unused handler keeps no settings. Otherwise the settings are those given, with the issue defaults replaced by `NormalisedDefaults` of a copy, so the caller's mapping is untouched. No client exists yet and no mail has been sent. |
| `Handler.NormalisedDefaults` | django_jira/log.py:56-71 | `project` and `issuetype` are always mappings. A missing `project` becomes `{'key': 'JIRA'}` and a plain value v becomes `{'key': v}`. A missing `issuetype` becomes `{'id': '1'}` and a plain v becomes `{'id': v}`. Existing mappings and all other keys are kept, and no other key is added. |
| `Handler.AsMapping` | django_jira/log.py:61-71 | The normalised entry is always a mapping: the fallback when the entry is missing, the value wrapped under its field when it is plain, and the entry itself when it is already a mapping. |
| `Handler.Connect` | django_jira/log.py:81-102 | Defines what building a client gives: BadConfiguration without settings, then the auth-type cases. `ConnectOutcomes` states them. |
| `Handler.ConnectOutcomes` | django_jira/log.py:84-99 | Auth type None fails with AttributeError, because `.lower()` runs before the `is None` test. A type whose lower-cased form is "basic" gives the server's answer. One whose lower-cased form is "oauth" raises NotImplementedError. Every other type is refused with the invalid-AuthType error, whatever the server would say. |
| `Handler.JiraHandler.Jira` | django_jira/log.py:81-102 | A kept client is returned unchanged. Otherwise a client is built, kept and returned exactly when `Connect` passes: it is fresh, has the handler's URL and credentials, and has sent nothing yet. On failure nothing is kept and the error is `Connect`'s. |
| `Handler.JiraHandler.FireEmail` | django_jira/log.py:104-107 | Exactly two mails are appended: the record itself, then a "Problem Working with Jira Server" record at level ERROR. The second carries the record's request and the failure's cause. |
| `Handler.JiraHandler.Emit` | django_jira/log.py:109-116 | Nothing is raised. An unused handler mails the record first. Then the report of `ReportSpec` is made. If it fails, the two fallback mails with its error follow. The client's request log grows by exactly the report's requests. |
| `Handler.Compose` | django_jira/log.py:118-191 | Defines the title and the description `_emit` builds, or the error it raises first. `ComposeOutcomes` states its cases. |
| `Handler.ComposeOutcomes` | django_jira/log.py:118-191 | Composing fails in exactly three cases, checked in this order. The first is a view unresolved on an unused handler (AttributeError on `no_view_full_stack`). The second is a title that cannot be built (IndexError). The third is an exception without a traceback whose full stack is asked for (AttributeError on `tb_frame`, log.py:160). That last case needs a resolved view and a record with `full_stack`. Otherwise the result is the record's `Title` and the colour-converted description `Body`. |
| `Handler.JiraHandler.ComposeIssue` | django_jira/log.py:118-191 | Building the title and the description step by step with `+=` gives exactly `Compose`, including its three error exits. |
| `Handler.JiraHandler.ReportToJira` | django_jira/log.py:118-226 | The outcome, the requests sent and whether a client was built are exactly those of `ReportSpec` on `Compose`'s result. The handler's invariant is kept. |
| `Handler.JiraHandler.SearchAndAct` | django_jira/log.py:193-226 | Once the issue is composed, the outcome and the requests sent are those of `ReportSpec`. That is client access, then the KeyError on a project without a key, then one search with the query as written, then the reconciliation. |
| `Handler.JiraHandler.ActOnSearch` | django_jira/log.py:198-226 | The loop with `found` and `break` sends exactly the requests of `Reconcile` and ends with its outcome. |
| `Handler.FallbackMails` | django_jira/log.py:104-107 | Defines the two mails of `fire_email`. `FireEmail` appends exactly them. |
| `Handler.DefaultSettings` | django_jira/log.py:39-44 | With the default arguments, user and password are False. With the default `reopen_closed` (4, 6) and `wont_fix` False (equal to 0), an issue is reopened iff its status is 4 or 6 and it has a resolution other than 0. |
| `Handler.UnusedNeverReachesJira` | django_jira/log.py:109-116 | On an unused handler, `_emit` always fails, builds no client and sends no request, so `emit` mails twice. |
| `Handler.ComposeFailureSendsNothing` | django_jira/log.py:143-154 | A report whose title cannot be composed sends nothing, builds no client, and fails with the composition's error. |
| `Handler.SearchFailureWritesNothing` | django_jira/log.py:193-196 | If the search fails, the only request sent is the search itself. Nothing is created, commented on or transitioned, and the report fails. |
| `Handler.ReportSpec` | django_jira/log.py:193-226 | Defines what `_emit` does once composed: client access, the project key lookup, the search with `QueryAsWritten`, then `Reconcile`. `ReportSearchesFirst` and the lemmas beside it state its properties. |
| `Handler.ReportSearchesFirst` | django_jira/log.py:193-226 | A composed report sends a request iff the project has a key and a client is kept or can be built. Its first request is then a search for `QueryAsWritten(key, title)` with `maxResults=1`. A failed search ends the report. Otherwise the remaining requests and the outcome are exactly those of `Reconcile` on the search answer. |
| `Handler.ReportQueryReadBack` | django_jira/log.py:194-196 | Take a report's search query. For a key and a title without quotes and backslashes, the server reads it back as the key and the quoted title. For a plain key and a title holding a quote with no quote or backslash before it, the query cannot be read as a key and a phrase. |
| `Fingerprint.EscapeQuotes` | django_jira/log.py:153-154 | Defines the `re.sub` quote escaping: each quote becomes two backslashes and a quote. The lemmas below state its properties. |
| `Fingerprint.EscapeQuotesPlain` | django_jira/log.py:153-154 | Text without quotes is unchanged, and the escaped text holds a quote iff the input does. |
| `Fingerprint.EscapedQuotesPreceded` | django_jira/log.py:153-154 | Every quote of an escaped text is preceded by two backslashes. |
| `Fingerprint.EscapeQuotesInjective` | django_jira/log.py:153-154 | Different texts never escape to the same title. |
| `Fingerprint.EscapeQuotesAppend` | django_jira/log.py:153-154 | Escaping a concatenation is the concatenation of the escaped parts. |
| `Fingerprint.ExceptionTitleDistinct` | django_jira/log.py:152-154 | For type names without spaces, equal exception titles mean equal type names and equal culprits. |
| `Fingerprint.ResolvedCaller` | django_jira/log.py:125-141 | Defines the culprit view: the resolved view for a record with a request, and none without one, since `request.path_info` then raises. |
| `Fingerprint.Title` | django_jira/log.py:143-154 | Defines the issue title or its IndexError. `TitleCases` states its cases. |
| `Fingerprint.TitleCases` | django_jira/log.py:143-154 | A record without an exception is titled with its message. With an exception, the title is the escaped `<type> thrown by <view>`, or else `<type> thrown by <innermost frame>`. It fails with IndexError exactly when there is neither a view nor a frame. |
| `Fingerprint.TitleIdentifiesFailureSite` | django_jira/log.py:143-154 | Take two exception records with given culprits and type names without spaces (class names from a `class` statement have none). They get the same title iff they have the same exception type and the same culprit. |
| `Fingerprint.StackTrace` | django_jira/log.py:156-174 | Defines the stack trace text, with "" for None. `StackTraceCases` states its cases. |
| `Fingerprint.StackTraceCases` | django_jira/log.py:156-174 | There is no stack trace for a plain record without `full_stack`. A full stack starts with the "Traceback (most recent call last):" header. Otherwise the trace is the formatted exception. |
| `Fingerprint.IssueMessage` | django_jira/log.py:176-183 | Defines the description before colour conversion. `IssueMessageSections` states its layout. |
| `Fingerprint.IssueMessageSections` | django_jira/log.py:176-183 | The description starts with the message. A Traceback section follows iff the stack trace is non-empty. It ends with a Request section iff a request is present, and otherwise it holds nothing more. |
| `Fingerprint.LStripNewlinesStrips` | django_jira/log.py:191 | The result is a suffix of the input, only newlines are removed, and it does not start with one. |
| `Fingerprint.LastResetUpToIsLast` | django_jira/log.py:37 | The reset found is the last one up to the given index, and none is found only when there is none. Group 3 of the colour pattern is greedy, so it runs to that reset. |
| `Fingerprint.JoinColourMatches` | django_jira/log.py:186-190 | Defines the joined `finditer` matches: a leading colour code up to the last reset becomes markup, and the rest is kept as matched. |
| `Fingerprint.ColourToJira` | django_jira/log.py:185-191 | Defines the colour conversion followed by `lstrip('\n')`. `ColourToJiraPlain` and `LeadingColourConverted` state its behaviour. |
| `Fingerprint.ColourToJiraPlain` | django_jira/log.py:185-191 | A description is unchanged apart from its stripped leading newlines in three cases: it holds no ESC, it does not start with a colour code, or it starts with one that no reset follows. |
| `Fingerprint.LeadingColourConverted` | django_jira/log.py:34-37 | A description made of a colour code, a text, the reset and a tail without a further reset becomes `{color:<name>}` markup around the text, followed by the tail. |
| `Jql.QueryAsWritten` | django_jira/log.py:194-196 | Defines the query exactly as the handler concatenates it, with the key and the title pasted in unescaped. |
| `Jql.QueryRoundTrip` | django_jira/log.py:193-196 | This is the corrected query of the finding. The server reads it back as exactly the project key and the title in quotes, whatever characters they hold. |
| `Jql.ReadEscaped` | django_jira/log.py:194-196 | Reading an escaped text back as a JQL literal gives the text and what follows the closing quote. |
| `Jql.QueryAgreesOnPlainText` | django_jira/log.py:194-196 | For a key and a title without quotes and backslashes, the escaped query is the query as the handler writes it. |
| `Jql.QueryAsWrittenBreaksOnQuote` | django_jira/log.py:194-196 | Take a key without quotes and backslashes, and a title whose first quote has no backslash before it (a message such as `a"b`). The query as written cannot be read as a project key and a summary phrase. |
| `Handler.EscapedTitleStillBreaksQuery` | django_jira/log.py:153-196 | Take a key without quotes and backslashes, and an exception title `<type> thrown by <culprit>` with a quote in the culprit and no quote or backslash before it. The query as written cannot be read as a project key and a summary phrase, even though the title's quotes were escaped. |
| `Jql.EscapedQuoteClosesSummary` | django_jira/log.py:194-196 | Take a key without quotes and backslashes, and a title in which a doubled backslash and a quote follow a part without quotes and backslashes. That `\\"` ends the summary literal early in the query as written, so the query cannot be read as a key and a phrase. |
| `Reconciler.FirstExact` | django_jira/log.py:199-201 | The result is the index of the first issue whose summary equals the title, and it is none iff no summary does. |
| `Reconciler.CreateFields` | django_jira/log.py:220-226 | The new issue's fields are the defaults plus `summary` = title and `description` = body. All other defaults are kept and no other key is added. |
| `Reconciler.Reopens` | django_jira/log.py:204-205 | Defines the reopen rule: the status is in `reopen_closed` and there is a resolution other than `wont_fix`. `MatchedIssueActions` and `DefaultSettings` use it. |
| `Reconciler.ActOnMatch` | django_jira/log.py:203-218 | Defines the requests made on the matched issue. `MatchedIssueActions` states them. |
| `Reconciler.Reconcile` | django_jira/log.py:198-226 | Defines the decision on the search answer: act on the first exact match, or create. `CreateIffNoExactMatch` and `InexactCandidatesIgnored` state its properties, and `ActOnSearch` is proved against it. |
| `Reconciler.CreateIffNoExactMatch` | django_jira/log.py:199-226 | Without an exact match, exactly one create is requested, with `CreateFields`, and nothing else. With one, nothing is created and every request concerns the first exact match. |
| `Reconciler.MatchedIssueActions` | django_jira/log.py:203-218 | A transition with `str(reopen_action)` is requested iff the status is in `reopen_closed` and a resolution other than `wont_fix` exists. A comment with the body is requested iff the issue was reopened, or it was not to be reopened and comments are not limited to reopened issues. Nothing else is requested. |
| `Reconciler.InexactCandidatesIgnored` | django_jira/log.py:200-201 | Issues whose summary is not exactly the title can be put in front of the answer without changing the decision. |
| `Gateway.JiraClient.constructor` | django_jira/log.py:92-94 | A basic-auth client for the handler's server and credentials that has sent nothing yet. |
| `Gateway.JiraClient.SearchIssues` | django_jira/log.py:194-196 | Records one search with its query and result cap, and returns the server's answer. |
| `Gateway.JiraClient.TransitionIssue` | django_jira/log.py:206-207 | Records one transition of the issue with the action. |
| `Gateway.JiraClient.AddComment` | django_jira/log.py:215 | Records one comment on the issue with the body. |
| `Gateway.JiraClient.CreateIssue` | django_jira/log.py:226 | Records one create with the fields. |

## Left out

- `JiraMiddlewareHandler` and the deprecated middleware in `django_jira/middleware.py` are not part of this model. The handler variant only calls `_emit` without the mail fallback, and its failures go back to Django.
- `setup.py` is packaging metadata and is not part of this model.
- Django URL resolution, `traceback.format_*`, the frame walk that finds the logging call, and the request filter's text are inputs: the resolved view, and strings on the record and the environment.
- The network is not modelled. The server's answer to each kind of request is a parameter, so all requests of one report that go to the same endpoint share one answer.
- `AdminEmailHandler` delivery is not modelled. Mails are recorded in a ghost log.
- The mail logger setting (`mail_logger`) is stored but not used by the handler; the model stores it too.
- `Fingerprint.ColourToJira`: the regular expression is modelled as it behaves with `finditer` on this pattern, not as a general regex engine. Only a colour code at the very start of the description is converted, and its text runs to the last reset. Colour codes further on are kept as they are.
- `Handler.Lower` lowers ASCII letters only; Python's Unicode case mapping is not modelled.
- Type errors that Python would raise for settings of unexpected types are not modelled. Examples are a project key that is not a string, or a status id that `int()` rejects. Settings and issue fields are strings and integers.
- `Handler.JiraHandler.Emit` and `ReportToJira` do not model that `fire_email` itself may raise.
- `Jql.ReadLiteral` reads every `\x` inside a JQL string literal as `x`. JQL gives `\n`, `\t`, `\r` and `\uXXXX` their own meanings and rejects some other escapes. The queries the lemmas are about hold no such escapes, except `\\` and `\"`, which the reader treats as JQL does.
- `Fingerprint.EscapeQuotes` follows the code: `re.sub` with the template `\\\"` inserts two backslashes before each quote, not the single backslash a description of the title might suggest.

## Findings

| source | as written | input that shows it | evidently intended | confidence | as-written member | corrected member |
|---|---|---|---|---|---|---|
| django_jira/log.py:194-196 | The title is pasted into the JQL phrase literal without JQL escaping. The quote escaping at log.py:153-154 produces `\\"`, which JQL reads as an escaped backslash followed by the end of the literal. | The message `a"b` on a record without an exception, or an exception whose culprit contains `"`. | The project key and the quoted title are embedded as JQL string literals (`\` and `"` escaped), so the server searches for exactly the stored summary. | medium (not executed) | `Handler.EscapedTitleStillBreaksQuery` | `Jql.QueryRoundTrip` |
