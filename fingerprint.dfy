/**
 * How `_emit` turns a log record into the issue title and the issue
 * description: the culprit, the escaped title, the traceback and request
 * sections, and the rewriting of an ANSI colour code into JIRA markup.
 */
module Fingerprint {
  import opened Types

  // ---------------------------------------------------------------- title

  /** Every `"` becomes backslash, backslash, quote: the replacement template
      `\\\"` of `re.sub` yields an escaped backslash followed by `\"` kept as is. */
  function EscapeQuotes(s: string): string {
    if s == [] then [] else EscapeQuote(s[0]) + EscapeQuotes(s[1..])
  }

  /** What one character becomes in the title. */
  function EscapeQuote(c: char): string {
    if c == '"' then "\\\\\"" else [c]
  }

  /** A text without quotes is left as it is, and the escaped text holds a
      quote exactly when the text does. */
  lemma {:induction false} EscapeQuotesPlain(s: string)
    ensures '"' !in s ==> EscapeQuotes(s) == s
    ensures '"' in EscapeQuotes(s) <==> '"' in s
  {
    if s != [] {
      EscapeQuotesPlain(s[1..]);
      var p := EscapeQuote(s[0]);
      assert EscapeQuotes(s) == p + EscapeQuotes(s[1..]);
      assert s == [s[0]] + s[1..];
      assert '"' in p <==> s[0] == '"';
    }
  }

  /** Every quote of an escaped text is preceded by two backslashes. */
  lemma {:induction false} EscapedQuotesPreceded(s: string)
    ensures forall i :: 0 <= i < |EscapeQuotes(s)| && EscapeQuotes(s)[i] == '"' ==>
      2 <= i && EscapeQuotes(s)[i - 2] == '\\' && EscapeQuotes(s)[i - 1] == '\\'
  {
    if s != [] {
      EscapedQuotesPreceded(s[1..]);
      var t := EscapeQuotes(s[1..]);
      var p := EscapeQuote(s[0]);
      var r := p + t;
      assert EscapeQuotes(s) == r;
      forall i | 0 <= i < |r| && r[i] == '"'
        ensures 2 <= i && r[i - 2] == '\\' && r[i - 1] == '\\'
      {
        if i < |p| {
          assert r[i] == p[i];
          assert s[0] == '"';
          assert i == 2 && r[0] == p[0] && r[1] == p[1];
        } else {
          assert r[i] == t[i - |p|];
          assert r[i - 2] == t[i - |p| - 2] && r[i - 1] == t[i - |p| - 1];
        }
      }
    }
  }

  /** A text starts with a quote exactly when its escaped form has a quote at index 2. */
  lemma QuoteFirst(s: string)
    requires s != []
    ensures s[0] == '"' <==> |EscapeQuotes(s)| > 2 && EscapeQuotes(s)[2] == '"'
  {
    var t := EscapeQuotes(s[1..]);
    EscapedQuotesPreceded(s[1..]);
    if s[0] == '"' {
      assert EscapeQuotes(s) == "\\\\\"" + t;
    } else {
      assert EscapeQuotes(s) == [s[0]] + t;
      assert |t| > 1 ==> t[1] != '"';
    }
  }

  /** No two different texts escape to the same title. */
  lemma {:induction false} EscapeQuotesInjective(a: string, b: string)
    requires EscapeQuotes(a) == EscapeQuotes(b)
    ensures a == b
  {
    if a != [] && b != [] {
      QuoteFirst(a);
      QuoteFirst(b);
      var ta, tb := EscapeQuotes(a[1..]), EscapeQuotes(b[1..]);
      var pa := EscapeQuote(a[0]);
      var pb := EscapeQuote(b[0]);
      assert EscapeQuotes(a) == pa + ta;
      assert EscapeQuotes(b) == pb + tb;
      assert |pa| == |pb|;
      assert pa == (pa + ta)[..|pa|] == (pb + tb)[..|pb|] == pb;
      assert ta == (pa + ta)[|pa|..] == (pb + tb)[|pb|..] == tb;
      assert a[0] == b[0];
      EscapeQuotesInjective(a[1..], b[1..]);
    }
  }

  /** Escaping works piece by piece. */
  lemma {:induction false} EscapeQuotesAppend(a: string, b: string)
    ensures EscapeQuotes(a + b) == EscapeQuotes(a) + EscapeQuotes(b)
  {
    if a == [] {
      assert a + b == b;
    } else {
      var p := EscapeQuote(a[0]);
      var ab := a + b;
      assert ab[0] == a[0] && ab[1..] == a[1..] + b;
      assert EscapeQuotes(ab) == p + EscapeQuotes(a[1..] + b);
      EscapeQuotesAppend(a[1..], b);
      assert EscapeQuotes(a) == p + EscapeQuotes(a[1..]);
    }
  }

  /** The title of a record that carries an exception. */
  function ExceptionTitle(typeName: string, culprit: string): string {
    EscapeQuotes(typeName + " thrown by " + culprit)
  }

  /**
   * Distinct failure sites give distinct titles: two (type, culprit) pairs with
   * the same title are the same pair, as long as the type names hold no space
   * (Python class names never do).
   */
  lemma {:induction false} ExceptionTitleDistinct(t1: string, c1: string, t2: string, c2: string)
    requires ' ' !in t1 && ' ' !in t2
    requires ExceptionTitle(t1, c1) == ExceptionTitle(t2, c2)
    ensures t1 == t2 && c1 == c2
  {
    var s1, s2 := t1 + " thrown by " + c1, t2 + " thrown by " + c2;
    EscapeQuotesInjective(s1, s2);
    // the first space of the common text ends both type names
    assert s1[|t1|] == ' ' && s2[|t2|] == ' ';
    assert forall i :: 0 <= i < |t1| ==> s1[i] == t1[i] != ' ';
    assert forall i :: 0 <= i < |t2| ==> s2[i] == t2[i] != ' ';
    assert t1 == s1[..|t1|] == s2[..|t2|] == t2;
    assert c1 == s1[|t1| + 11..] == s2[|t2| + 11..] == c2;
  }

  /** The view found for the record's request; a record without a request
      fails resolution (`request.path_info` raises) and has no view. */
  function ResolvedCaller(record: LogRecord, view: Option<string>): Option<string> {
    if record.request.None? then None else view
  }

  /**
   * The issue title: the message for a plain record; for a record with an
   * exception, "<type> thrown by <culprit>" escaped, where the culprit is the
   * resolved view or else the function of the innermost traceback frame.
   */
  function Title(record: LogRecord, caller: Option<string>): Result<string> {
    match record.excInfo
    case None => Success(record.message)
    case Some(e) =>
      if caller.Some? then Success(ExceptionTitle(e.typeName, caller.value))
      else if e.frames == [] then Failure(IndexError)
      else Success(ExceptionTitle(e.typeName, e.frames[|e.frames| - 1]))
  }

  /**
   * A plain record is titled with its message; a record with an exception by
   * its type and its culprit, the view or else the innermost frame; building
   * the title fails, with IndexError, only when there is neither.
   */
  lemma TitleCases(record: LogRecord, caller: Option<string>)
    ensures var r := Title(record, caller);
      && (record.excInfo.None? ==> r == Success(record.message))
      && (r.Failure? <==> record.excInfo.Some? && caller.None? && record.excInfo.value.frames == [])
      && (r.Failure? ==> r.error == IndexError)
      && (record.excInfo.Some? && caller.Some? ==>
            r == Success(ExceptionTitle(record.excInfo.value.typeName, caller.value)))
      && (record.excInfo.Some? && caller.None? && r.Success? ==>
            var frames := record.excInfo.value.frames;
            r.value == ExceptionTitle(record.excInfo.value.typeName, frames[|frames| - 1]))
  {
  }

  /** Two records with the same exception type and the same culprit get the same
      title, and records whose (type, culprit) differ get different titles. */
  lemma TitleIdentifiesFailureSite(r1: LogRecord, c1: string, r2: LogRecord, c2: string)
    requires r1.excInfo.Some? && r2.excInfo.Some?
    requires ' ' !in r1.excInfo.value.typeName && ' ' !in r2.excInfo.value.typeName
    ensures Title(r1, Some(c1)) == Title(r2, Some(c2)) <==>
      r1.excInfo.value.typeName == r2.excInfo.value.typeName && c1 == c2
  {
    if Title(r1, Some(c1)) == Title(r2, Some(c2)) {
      ExceptionTitleDistinct(r1.excInfo.value.typeName, c1, r2.excInfo.value.typeName, c2);
    }
  }

  // ----------------------------------------------------------------- body

  const TracebackHeader := "Traceback (most recent call last):\n"

  /**
   * The traceback text: the formatted exception, or with `full_stack` the
   * whole stack of the failing frame; for a plain record only with
   * `full_stack`, the stack of the logging call. "" stands for `None`.
   */
  function StackTrace(record: LogRecord, fullStack: bool, callerStack: string): string {
    match record.excInfo
    case Some(e) => if fullStack then TracebackHeader + e.fullStack else e.formatted
    case None => if fullStack then TracebackHeader + callerStack else ""
  }

  /** There is no trace for a plain record without `full_stack`; a full stack
      opens with the traceback header; otherwise the trace is the formatted
      exception. */
  lemma StackTraceCases(record: LogRecord, fullStack: bool, callerStack: string)
    ensures var r := StackTrace(record, fullStack, callerStack);
      && (record.excInfo.None? && !fullStack ==> r == "")
      && (fullStack ==> |TracebackHeader| <= |r| && r[..|TracebackHeader|] == TracebackHeader)
      && (record.excInfo.Some? && !fullStack ==> r == record.excInfo.value.formatted)
  {
  }

  /** A `{code:title=...}` block appended to the description. */
  function Section(title: string, text: string): string {
    "\n\n{code:title=" + title + "}\n" + text + "\n{code}"
  }

  /**
   * The description before colour conversion: the message, then a Traceback
   * section when there is a stack trace, then a Request section when there is
   * a request.
   */
  function IssueMessage(message: string, stackTrace: string, request: Option<Request>): string {
    message
      + (if stackTrace != "" then Section("Traceback", stackTrace) else "")
      + (if request.Some? then Section("Request", request.value.repr) else "")
  }

  /** The description opens with the message, followed by the Traceback
      section exactly when there is a trace; it ends with the Request section
      when there is a request, and holds nothing more when there is none. */
  lemma IssueMessageSections(message: string, stackTrace: string, request: Option<Request>)
    ensures var r := IssueMessage(message, stackTrace, request);
      var tb := if stackTrace != "" then Section("Traceback", stackTrace) else "";
      && |message| + |tb| <= |r| && r[..|message|] == message
      && r[|message|..|message| + |tb|] == tb
      && (request.None? ==> r == message + tb)
      && (request.Some? ==>
            var rq := Section("Request", request.value.repr);
            r == message + tb + rq && r[|r| - |rq|..] == rq)
  {
    var r := IssueMessage(message, stackTrace, request);
    var tb := if stackTrace != "" then Section("Traceback", stackTrace) else "";
    var rq := if request.Some? then Section("Request", request.value.repr) else "";
    assert r == (message + tb) + rq;
    assert r[..|message|] == message;
    assert r[|message|..|message| + |tb|] == tb;
    assert r[|r| - |rq|..] == rq;
  }

  // --------------------------------------------------------------- colours

  const Esc: char := '\U{1B}'

  const ColourNames: seq<string> := ["black", "red", "green", "yellow", "blue", "magenta", "cyan", "white"]

  /** The colour code `ESC[1;3<d>m`. */
  function ColourCode(d: char): string {
    [Esc, '[', '1', ';', '3', d, 'm']
  }

  const Reset: string := [Esc, '[', '0', 'm']

  /** The JIRA markup that replaces a coloured text: `{color:<name>}` on its own line. */
  function ColourMarkup(d: char, text: string): string
    requires '0' <= d <= '7'
  {
    "{color:" + ColourNames[d as int - '0' as int] + "}\n" + text + "\n{color}"
  }

  /** `ESC[1;3<d>m` with a digit 0-7 at the start of s. */
  predicate ColourStartAt(s: string) {
    |s| >= 7 && s[0] == Esc && s[1] == '[' && s[2] == '1' && s[3] == ';' && s[4] == '3'
    && '0' <= s[5] <= '7' && s[6] == 'm'
  }

  /** `ESC[0m` starting at index k of t. */
  predicate ResetAt(t: string, k: int) {
    0 <= k && k + 4 <= |t| && t[k] == Esc && t[k + 1] == '[' && t[k + 2] == '0' && t[k + 3] == 'm'
  }

  /** The last index at most n where a reset starts. */
  function LastResetUpTo(t: string, n: int): (r: Option<nat>)
    ensures r.Some? ==> r.value <= n && ResetAt(t, r.value)
    decreases n
  {
    if n < 0 then None
    else if ResetAt(t, n) then Some(n)
    else LastResetUpTo(t, n - 1)
  }

  /** The reset found is the last one up to n, and none is found only when
      there is none. */
  lemma {:induction false} LastResetUpToIsLast(t: string, n: int)
    ensures var r := LastResetUpTo(t, n);
      && (r.Some? ==> forall j :: r.value < j <= n ==> !ResetAt(t, j))
      && (r.None? ==> forall j :: j <= n ==> !ResetAt(t, j))
    decreases n
  {
    if n >= 0 && !ResetAt(t, n) {
      LastResetUpToIsLast(t, n - 1);
    }
  }

  /** Strips the leading newlines (`lstrip('\n')`). */
  function LStripNewlines(s: string): string {
    if s != [] && s[0] == '\n' then LStripNewlines(s[1..]) else s
  }

  /** Stripping keeps a suffix, removes only newlines, and leaves no leading
      newline. */
  lemma {:induction false} LStripNewlinesStrips(s: string)
    ensures var r := LStripNewlines(s);
      && |r| <= |s| && r == s[|s| - |r|..]
      && (forall i :: 0 <= i < |s| - |r| ==> s[i] == '\n')
      && (r == [] || r[0] != '\n')
  {
    if s != [] && s[0] == '\n' {
      LStripNewlinesStrips(s[1..]);
      var r := LStripNewlines(s);
      assert r == LStripNewlines(s[1..]);
      assert s[1..][|s| - 1 - |r|..] == s[|s| - |r|..];
      forall i | 0 <= i < |s| - |r|
        ensures s[i] == '\n'
      {
        if i > 0 {
          assert s[i] == s[1..][i - 1];
        }
      }
    }
  }

  /**
   * The matches of the colour pattern joined back together: the first match
   * either is a colour code at index 0 running, greedily, up to the last reset
   * (rewritten into `{color:...}` markup) or swallows the whole text; what
   * follows a colour match is kept as it is.
   */
  function JoinColourMatches(s: string): string {
    if ColourStartAt(s) then
      var t := s[7..];
      match LastResetUpTo(t, |t| - 4)
      case Some(k) => "\n" + ColourMarkup(s[5], t[..k]) + t[k + 4..]
      case None => s
    else s
  }

  /** The description sent to JIRA. A text without ESC characters is kept as it
      is, but for its leading newlines. */
  function ColourToJira(s: string): string {
    LStripNewlines(JoinColourMatches(s))
  }

  /** Without a colour code at its start, in particular without ESC, or with
      one that no reset follows, a text only loses its leading newlines. */
  lemma ColourToJiraPlain(s: string)
    ensures Esc !in s ==> ColourToJira(s) == LStripNewlines(s)
    ensures !ColourStartAt(s) ==> ColourToJira(s) == LStripNewlines(s)
    ensures ColourStartAt(s) && LastResetUpTo(s[7..], |s| - 11).None? ==> ColourToJira(s) == LStripNewlines(s)
  {
    if Esc !in s && |s| >= 7 {
      assert s[0] in s;
    }
  }

  /** The last reset is the end of the colour match, and nothing after it can be. */
  lemma {:induction false} LastResetIs(t: string, n: int, k: nat)
    requires k <= n && ResetAt(t, k)
    requires forall j :: k < j <= n ==> !ResetAt(t, j)
    ensures LastResetUpTo(t, n) == Some(k)
    decreases n
  {
    if n > k {
      assert !ResetAt(t, n);
      LastResetIs(t, n - 1, k);
    }
  }

  /** After the reset that follows `mid`, no reset starts in `mid + reset + tail`
      when none starts in `tail`. */
  lemma {:induction false} NoResetAfter(mid: string, tail: string)
    requires forall j :: !ResetAt(tail, j)
    ensures var t := mid + Reset + tail;
      ResetAt(t, |mid|) && forall j :: |mid| < j ==> !ResetAt(t, j)
  {
    var reset := Reset;
    var t := mid + reset + tail;
    var k := |mid|;
    assert t[k..k + 4] == reset;
    forall j | k < j
      ensures !ResetAt(t, j)
    {
      if j >= k + 4 && j + 4 <= |t| {
        assert t[j..j + 4] == tail[j - k - 4..j - k];
        assert !ResetAt(tail, j - k - 4);
      } else if j < k + 4 {
        assert t[j] == reset[j - k];
      }
    }
  }

  /** In `mid + reset + tail`, with no reset in the tail, the last reset is
      the one after `mid`. */
  lemma LastResetAfterMid(mid: string, tail: string)
    requires forall j :: !ResetAt(tail, j)
    ensures var t := mid + Reset + tail;
      LastResetUpTo(t, |t| - 4) == Some(|mid|)
  {
    var t := mid + Reset + tail;
    NoResetAfter(mid, tail);
    LastResetIs(t, |t| - 4, |mid|);
  }

  /** The match of the colour pattern at index 0 of such a body, joined with the rest. */
  lemma {:induction false} LeadingColourJoined(d: char, mid: string, tail: string)
    requires '0' <= d <= '7'
    requires forall j :: !ResetAt(tail, j)
    ensures JoinColourMatches(ColourCode(d) + mid + Reset + tail) == "\n" + ColourMarkup(d, mid) + tail
  {
    var s := ColourCode(d) + mid + Reset + tail;
    var t := s[7..];
    assert t == mid + Reset + tail;
    assert ColourStartAt(s) && s[5] == d;
    LastResetAfterMid(mid, tail);
    assert JoinColourMatches(s) == "\n" + ColourMarkup(d, t[..|mid|]) + t[|mid| + 4..];
    assert t[..|mid|] == mid;
    assert t[|mid| + 4..] == tail;
  }

  /**
   * A body that opens with colour code d and whose tail after the last reset
   * holds no reset becomes `{color:<name of d>}`, the coloured text (which may
   * itself hold resets), `{color}` and the tail.
   */
  lemma {:induction false} LeadingColourConverted(d: char, mid: string, tail: string)
    requires '0' <= d <= '7'
    requires forall j :: !ResetAt(tail, j)
    ensures ColourToJira(ColourCode(d) + mid + Reset + tail) == ColourMarkup(d, mid) + tail
  {
    LeadingColourJoined(d, mid, tail);
    var markup := ColourMarkup(d, mid) + tail;
    assert "\n" + ColourMarkup(d, mid) + tail == "\n" + markup;
    assert ("\n" + markup)[1..] == markup && markup[0] == '{';
    assert LStripNewlines("\n" + markup) == LStripNewlines(markup) == markup;
  }
}
