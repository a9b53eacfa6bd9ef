/**
 * Values shared by every part of the JIRA log handler model: the log record
 * handed to the handler, the issues the tracker returns, the requests sent to
 * the tracker and the mails of the fallback channel.
 */
module Types {

  datatype Option<+T> = None | Some(value: T)

  datatype Result<+T> = Success(value: T) | Failure(error: Error)

  /** Pass, or the exception that a step raised. */
  datatype Outcome = Pass | Fail(error: Error)

  /** The Python exceptions the handler can meet while reporting one record. */
  datatype Error =
    | AttributeError(name: string)    // an attribute the unused handler never set, `None.lower()`,
                                      // or `exc_info[2].tb_frame` without a traceback
    | IndexError                      // `exc_tb[-1]` on an empty traceback
    | KeyError(key: string)           // `issue_defaults['project']["key"]` without a key
    | NotImplemented                  // auth type "oauth"
    | InvalidAuthType                 // any other auth type
    | BadConfiguration                // no server URL, user or password when the client is needed
    | Remote(reason: string)          // a failure reported by the JIRA server or the network

  /** A value of `issue_defaults`: a nested mapping, or anything else (kept as its text). */
  datatype FieldValue = Scalar(text: string) | Dict(fields: map<string, string>)

  /** The part of a JIRA issue the handler reads. */
  datatype Issue = Issue(summary: string, statusId: int, resolution: Option<int>)

  /** One request sent to the JIRA server. */
  datatype Call =
    | Search(jql: string, maxResults: int)
    | Transition(issue: Issue, action: string)
    | Comment(issue: Issue, body: string)
    | Create(fields: map<string, FieldValue>)

  /**
   * What the JIRA server answers to each kind of request while one record is
   * reported: building the client (which contacts the server), the search, and
   * the three writes. The network is not modelled; its answers are inputs.
   */
  datatype Replies = Replies(
    connect: Outcome,
    search: Result<seq<Issue>>,
    transition: Outcome,
    comment: Outcome,
    create: Outcome)

  /** `exc_info`: the exception type name, the function names of the traceback
      frames (innermost last; none when `exc_info[2]` is None) and the two
      formatted renderings of it. */
  datatype ExcInfo = ExcInfo(
    typeName: string,
    frames: seq<string>,
    formatted: string,       // ''.join(traceback.format_exception(*exc_info))
    fullStack: string)       // ''.join(format_stack(tb_frame) + format_exception_only(...))

  /** The request attached to a record, seen through the text the exception
      reporter filter makes of it. */
  datatype Request = Request(repr: string)

  /** A log record as `_emit` reads it. */
  datatype LogRecord = LogRecord(
    message: string,
    excInfo: Option<ExcInfo>,
    request: Option<Request>,
    fullStack: bool)

  /**
   * What the surroundings of one `emit` provide: the view that URL resolution
   * finds (`module:name`), the formatted stack of the logging call site, and
   * the server's answers.
   */
  datatype Env = Env(view: Option<string>, callerStack: string, replies: Replies)

  /** The second record a fallback mail carries (`JiraRecord`). */
  datatype ProblemRecord = ProblemRecord(
    message: string, levelname: string, request: Option<Request>, cause: Option<Error>)

  /** One mail of the fallback channel, with the handler's `include_html`. */
  datatype Mail =
    | Report(record: LogRecord, includeHtml: bool)
    | Problem(problem: ProblemRecord, includeHtml: bool)

  /**
   * The settings a configured handler keeps (the attributes `__init__` sets
   * only when a server URL, user and password are all given).
   */
  datatype Config = Config(
    jiraUrl: string,
    jiraUser: string,
    jiraPwd: string,
    authType: Option<string>,              // None stands for Python's None
    issueDefaults: map<string, FieldValue>,
    reopenClosed: seq<int>,                // a tuple of status ids
    reopenAction: int,
    wontFix: int,                          // the default False compares as 0
    commentReopenOnly: bool,
    mailLogger: string,
    noViewFullStack: bool)

  /** Python truthiness of an optional string setting: `None`/`False` and "" are false. */
  predicate Truthy(s: Option<string>) {
    s.Some? && s.value != ""
  }
}
