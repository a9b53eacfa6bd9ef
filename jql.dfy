/**
 * The search query `_emit` sends: `project = "<key>" AND summary ~ "\"<title>\""`.
 * A small reader of JQL string literals says what the server reads from a
 * query; with it the query as the handler writes it is compared with a query
 * that escapes what it embeds.
 */
module Jql {
  import opened Types


  /** One character inside a JQL quoted string: `\` and `"` get a backslash. */
  function JqlEscapeChar(c: char): string {
    if c == '"' || c == '\\' then ['\\', c] else [c]
  }

  /** Escapes a text for a JQL quoted string. */
  function JqlEscape(s: string): string {
    if s == [] then [] else JqlEscapeChar(s[0]) + JqlEscape(s[1..])
  }

  /** A text without quotes and backslashes needs no escaping. */
  lemma {:induction false} JqlEscapePlain(s: string)
    requires '"' !in s && '\\' !in s
    ensures JqlEscape(s) == s
  {
    if s != [] {
      assert s == [s[0]] + s[1..];
      assert s[0] != '"' && s[0] != '\\';
      assert '"' !in s[1..] && '\\' !in s[1..];
      JqlEscapePlain(s[1..]);
    }
  }

  /**
   * Reads a JQL string literal whose opening quote has been consumed: returns
   * its content, with each `\x` read as x, and what follows the closing quote;
   * None when the literal is not closed.
   */
  function ReadLiteral(s: string): (r: Option<(string, string)>)
    ensures r.Some? ==> |r.value.1| < |s|
  {
    if s == [] then None
    else if s[0] == '"' then Some(([], s[1..]))
    else if s[0] == '\\' then
      if |s| < 2 then None
      else match ReadLiteral(s[2..])
        case None => None
        case Some(p) => Some(([s[1]] + p.0, p.1))
    else match ReadLiteral(s[1..])
      case None => None
      case Some(p) => Some(([s[0]] + p.0, p.1))
  }

  const ProjectPrefix := "project = \""
  const SummaryPrefix := " AND summary ~ \""

  /** The query exactly as the handler concatenates it: the key and the title
      are pasted in as they are. */
  function QueryAsWritten(key: string, title: string): string {
    ProjectPrefix + key + "\"" + SummaryPrefix + "\\\"" + title + "\\\"\""
  }

  /**
   * What the server reads from a query of the handler's shape: the project
   * key and the summary phrase, or None when the text does not have that shape
   * (a literal closes early and text is left over).
   */
  function ParseQuery(q: string): Option<(string, string)> {
    if |q| < |ProjectPrefix| || q[..|ProjectPrefix|] != ProjectPrefix then None
    else match ReadLiteral(q[|ProjectPrefix|..])
      case None => None
      case Some(k) =>
        var rest := k.1;
        if |rest| < |SummaryPrefix| || rest[..|SummaryPrefix|] != SummaryPrefix then None
        else match ReadLiteral(rest[|SummaryPrefix|..])
          case None => None
          case Some(p) => if p.1 == [] then Some((k.0, p.0)) else None
  }

  /** Reading an escaped text back, up to its closing quote, gives the text. */
  lemma {:induction false} ReadEscaped(t: string, rest: string)
    ensures ReadLiteral(JqlEscape(t) + "\"" + rest) == Some((t, rest))
  {
    var s := JqlEscape(t) + "\"" + rest;
    if t == [] {
      assert s == "\"" + rest;
    } else {
      ReadEscaped(t[1..], rest);
      var tail := JqlEscape(t[1..]) + "\"" + rest;
      var p := JqlEscapeChar(t[0]);
      assert JqlEscape(t) == p + JqlEscape(t[1..]);
      assert s == p + tail;
      assert s[|p|..] == tail;
      if t[0] == '"' || t[0] == '\\' {
        assert s[0] == '\\' && s[1] == t[0];
        assert ReadLiteral(s) == Some(([t[0]] + t[1..], rest));
      } else {
        assert s[0] == t[0];
        assert ReadLiteral(s) == Some(([t[0]] + t[1..], rest));
      }
      assert [t[0]] + t[1..] == t;
    }
  }

  /** The query the handler evidently means: the key and the quoted title
      embedded as JQL string literals. */
  function Query(key: string, title: string): string {
    ProjectPrefix + JqlEscape(key) + "\"" + SummaryPrefix + JqlEscape("\"" + title + "\"") + "\""
  }

  /** What the server reads from a query of the handler's shape with an
      escaped key is decided by the summary literal alone. */
  lemma {:induction false} ParseWithEscapedKey(key: string, lit: string)
    ensures ParseQuery(ProjectPrefix + JqlEscape(key) + "\"" + SummaryPrefix + lit) ==
      match ReadLiteral(lit)
      case None => None
      case Some(p) => if p.1 == [] then Some((key, p.0)) else None
  {
    var rest := SummaryPrefix + lit;
    var q := ProjectPrefix + JqlEscape(key) + "\"" + SummaryPrefix + lit;
    assert q == ProjectPrefix + (JqlEscape(key) + "\"" + rest);
    assert q[..|ProjectPrefix|] == ProjectPrefix;
    assert q[|ProjectPrefix|..] == JqlEscape(key) + "\"" + rest;
    ReadEscaped(key, rest);
    assert rest[..|SummaryPrefix|] == SummaryPrefix;
    assert rest[|SummaryPrefix|..] == lit;
  }

  /** The server reads back exactly the project key and the title in quotes,
      whatever characters they hold. */
  lemma QueryRoundTrip(key: string, title: string)
    ensures ParseQuery(Query(key, title)) == Some((key, "\"" + title + "\""))
  {
    var phrase := "\"" + title + "\"";
    var lit := JqlEscape(phrase) + "\"";
    assert Query(key, title) == ProjectPrefix + JqlEscape(key) + "\"" + SummaryPrefix + lit;
    ParseWithEscapedKey(key, lit);
    assert lit == JqlEscape(phrase) + "\"" + [];
    ReadEscaped(phrase, []);
  }

  /** A plain title in quotes escapes to the title between `\"` and `\"`. */
  lemma EscapePlainPhrase(title: string)
    requires '"' !in title && '\\' !in title
    ensures JqlEscape("\"" + title + "\"") == "\\\"" + title + "\\\""
  {
    var q := JqlEscapeChar('"');
    assert q == "\\\"";
    EscapeSurrounded('"', title, '"');
  }

  /** For keys and titles without quotes and backslashes the two queries are
      the same text. */
  lemma QueryAgreesOnPlainText(key: string, title: string)
    requires '"' !in key && '\\' !in key && '"' !in title && '\\' !in title
    ensures Query(key, title) == QueryAsWritten(key, title)
  {
    EscapePlainPhrase(title);
    JqlEscapePlain(key);
    var head := ProjectPrefix + key + "\"" + SummaryPrefix;
    assert Query(key, title) == head + ("\\\"" + title + "\\\"") + "\"";
    assert "\\\"\"" == "\\\"" + "\"";
    assert QueryAsWritten(key, title) == head + "\\\"" + title + ("\\\"" + "\"");
  }

  /** Escaping distributes over concatenation. */
  lemma {:induction false} JqlEscapeAppend(a: string, b: string)
    ensures JqlEscape(a + b) == JqlEscape(a) + JqlEscape(b)
  {
    if a == [] {
      assert a + b == b;
    } else {
      var p := JqlEscapeChar(a[0]);
      var ab := a + b;
      assert ab[0] == a[0] && ab[1..] == a[1..] + b;
      assert JqlEscape(ab) == p + JqlEscape(a[1..] + b);
      JqlEscapeAppend(a[1..], b);
      assert JqlEscape(a) == p + JqlEscape(a[1..]);
    }
  }

  /** The summary literal of the query as written, for a plain key. */
  lemma {:induction false} SummaryLiteralAsWritten(key: string, title: string)
    requires '"' !in key && '\\' !in key
    ensures ParseQuery(QueryAsWritten(key, title)) ==
      match ReadLiteral("\\\"" + title + "\\\"\"")
      case None => None
      case Some(p) => if p.1 == [] then Some((key, p.0)) else None
  {
    JqlEscapePlain(key);
    var lit := "\\\"" + title + "\\\"\"";
    assert QueryAsWritten(key, title) == ProjectPrefix + JqlEscape(key) + "\"" + SummaryPrefix + lit;
    ParseWithEscapedKey(key, lit);
  }

  /**
   * A log message holding a quote gives a query the server cannot read as the
   * handler means it: the summary literal closes at the message's quote and
   * text is left over.
   */
  lemma QueryAsWrittenBreaksOnQuote(key: string, before: string, after: string)
    requires '"' !in key && '\\' !in key && '"' !in before && '\\' !in before
    ensures ParseQuery(QueryAsWritten(key, before + "\"" + after)) == None
  {
    var read := "\"" + before;
    var left := after + "\\\"\"";
    JqlEscapeAppend("\"", before);
    JqlEscapePlain(before);
    assert JqlEscape("\"") == "\\\"";
    assert "\\\"" + (before + "\"" + after) + "\\\"\"" == JqlEscape(read) + "\"" + left;
    ReadEscaped(read, left);
    SummaryLiteralAsWritten(key, before + "\"" + after);
  }

  /** A plain text between a quote and a backslash escapes both of them. */
  lemma EscapeBetweenQuoteAndBackslash(plain: string)
    requires '"' !in plain && '\\' !in plain
    ensures JqlEscape("\"" + plain + "\\") == "\\\"" + plain + "\\\\"
  {
    assert JqlEscapeChar('"') == "\\\"";
    assert JqlEscapeChar('\\') == "\\\\";
    EscapeSurrounded('"', plain, '\\');
  }

  /** A plain text between two characters escapes only those two. */
  lemma EscapeSurrounded(first: char, plain: string, last: char)
    requires '"' !in plain && '\\' !in plain
    ensures JqlEscape([first] + plain + [last]) == JqlEscapeChar(first) + plain + JqlEscapeChar(last)
  {
    assert [first] + plain + [last] == [first] + (plain + [last]);
    JqlEscapeAppend([first], plain + [last]);
    JqlEscapeAppend(plain, [last]);
    JqlEscapePlain(plain);
    EscapeOne(first);
    EscapeOne(last);
  }

  lemma EscapeOne(c: char)
    ensures JqlEscape([c]) == JqlEscapeChar(c)
  {
    assert [c][1..] == [];
  }

  /** A doubled backslash followed by a quote is read as one backslash and
      the end of the literal. */
  lemma BackslashThenQuoteCloses(plain: string, tail: string)
    requires '"' !in plain && '\\' !in plain
    ensures ReadLiteral("\\\"" + plain + "\\\\\"" + tail) == Some(("\"" + plain + "\\", tail))
  {
    var read := "\"" + plain + "\\";
    EscapeBetweenQuoteAndBackslash(plain);
    assert "\\\\\"" == "\\\\" + "\"";
    assert "\\\"" + plain + "\\\\\"" + tail == JqlEscape(read) + "\"" + tail;
    ReadEscaped(read, tail);
  }

  /** In the query as written, a doubled backslash followed by a quote in the
      title ends the summary literal early, leaving text over. */
  lemma EscapedQuoteClosesSummary(key: string, plain: string, tail: string)
    requires '"' !in key && '\\' !in key && '"' !in plain && '\\' !in plain
    ensures ParseQuery(QueryAsWritten(key, plain + "\\\\\"" + tail)) == None
  {
    var title := plain + "\\\\\"" + tail;
    assert "\\\"" + title + "\\\"\"" == "\\\"" + plain + "\\\\\"" + (tail + "\\\"\"");
    BackslashThenQuoteCloses(plain, tail + "\\\"\"");
    SummaryLiteralAsWritten(key, title);
  }
}
