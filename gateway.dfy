/**
 * The JIRA client the handler talks to. Only the four requests the handler
 * makes are modelled; the server's answer to each is handed in, and every
 * request sent is recorded in a ghost log.
 */
module Gateway {
  import opened Types

  class JiraClient {
    const server: string
    const user: string
    const password: string

    /** The requests sent to the server through this client, in order. */
    ghost var requests: seq<Call>

    /** A client with basic authentication against `server`. */
    constructor (server: string, user: string, password: string)
      ensures this.server == server && this.user == user && this.password == password
      ensures requests == []
    {
      this.server, this.user, this.password := server, user, password;
      requests := [];
    }

    /** `search_issues(jql, maxResults=...)`. */
    method SearchIssues(jql: string, maxResults: int, reply: Result<seq<Issue>>) returns (r: Result<seq<Issue>>)
      modifies this
      ensures requests == old(requests) + [Search(jql, maxResults)]
      ensures r == reply
    {
      requests := requests + [Search(jql, maxResults)];
      r := reply;
    }

    /** `transition_issue(issue, action)`. */
    method TransitionIssue(issue: Issue, action: string, reply: Outcome) returns (r: Outcome)
      modifies this
      ensures requests == old(requests) + [Transition(issue, action)]
      ensures r == reply
    {
      requests := requests + [Transition(issue, action)];
      r := reply;
    }

    /** `add_comment(issue, body)`. */
    method AddComment(issue: Issue, body: string, reply: Outcome) returns (r: Outcome)
      modifies this
      ensures requests == old(requests) + [Comment(issue, body)]
      ensures r == reply
    {
      requests := requests + [Comment(issue, body)];
      r := reply;
    }

    /** `create_issue(fields=...)`; the created issue is not used by the handler. */
    method CreateIssue(fields: map<string, FieldValue>, reply: Outcome) returns (r: Outcome)
      modifies this
      ensures requests == old(requests) + [Create(fields)]
      ensures r == reply
    {
      requests := requests + [Create(fields)];
      r := reply;
    }
  }
}
