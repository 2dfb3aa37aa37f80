/**
 * The fixed text written around the dump and around each table
 * (dump/dump.go:16-55, 217-240). Each Fprintf of the source is written out
 * with its `%s` verbs already substituted.
 */
module Framing {
  import opened Wrappers

  /** beginDump: the preamble (BEGIN_DUMP). */
  const BeginDump: string :=
    "\n--\n-- PostgreSQL database dump\n--\n\nBEGIN;\n\n"
    + "SET statement_timeout = 0;\nSET lock_timeout = 0;\nSET client_encoding = 'UTF8';\n"
    + "SET standard_conforming_strings = on;\nSET check_function_bodies = false;\n"
    + "SET client_min_messages = warning;\n\nSET search_path = public, pg_catalog;\n\n"

  /** endDump: the postamble (END_DUMP). */
  const EndDump: string := "\nCOMMIT;\n\n--\n-- PostgreSQL database dump complete\n--\n"

  /** endTable: the end-of-data marker (END_TABLE_DUMP). */
  const EndTableDump: string := "\\.\n"

  /** dumpSqlCmd: one post-action statement (SQL_CMD_DUMP). */
  function SqlCmd(statement: string): string
  {
    "\n" + statement + ";\n"
  }

  /** The statement dumpTable hands to the database's COPY streaming. */
  function CopyCommand(relation: string): string
  {
    "COPY " + relation + " TO STDOUT"
  }

  // ---------------------------------------------------------------------
  // strconv.Quote

  function HexDigit(n: nat): char
    requires n < 16
  {
    "0123456789abcdef"[n]
  }

  /** One character as strconv.Quote writes it: the quote and the backslash
      behind a backslash, the seven C escapes, other ASCII control characters
      as \xhh, everything else as it is. */
  function Escape(ch: char): string
  {
    if ch == '"' then "\\\""
    else if ch == '\\' then "\\\\"
    else if ch == '\U{7}' then "\\a"
    else if ch == '\U{8}' then "\\b"
    else if ch == '\U{C}' then "\\f"
    else if ch == '\n' then "\\n"
    else if ch == '\r' then "\\r"
    else if ch == '\t' then "\\t"
    else if ch == '\U{B}' then "\\v"
    else if ch < ' ' || ch == '\U{7F}' then
      "\\x" + [HexDigit(ch as nat / 16), HexDigit(ch as nat % 16)]
    else [ch]
  }

  function EscapeAll(s: string): string
  {
    if s == [] then "" else Escape(s[0]) + EscapeAll(s[1..])
  }

  function Quote(s: string): string
  {
    "\"" + EscapeAll(s) + "\""
  }

  /** strings.Join */
  function Join(parts: seq<string>, sep: string): string
  {
    if |parts| == 0 then ""
    else if |parts| == 1 then parts[0]
    else parts[0] + sep + Join(parts[1..], sep)
  }

  function QuoteAll(columns: seq<string>): (r: seq<string>)
    ensures |r| == |columns|
    ensures forall i :: 0 <= i < |columns| ==> r[i] == Quote(columns[i])
  {
    if columns == [] then [] else [Quote(columns[0])] + QuoteAll(columns[1..])
  }

  /** The column list of a COPY header. */
  function ColumnList(columns: seq<string>): string
  {
    Join(QuoteAll(columns), ", ")
  }

  /** BEGIN_TABLE_DUMP filled in with the table name twice and a column
      list. */
  function TableFrame(table: string, colstr: string): string
  {
    "\n--\n-- Data for Name: " + table + "; Type: TABLE DATA\n--\n\nCOPY "
    + table + " (" + colstr + ") FROM stdin;\n"
  }

  /** The text beginTable writes for a table and its columns. */
  function TableHeader(table: string, columns: seq<string>): string
  {
    TableFrame(table, ColumnList(columns))
  }

  /** beginTable: quotes the columns one by one, joins them, and frames the
      result. */
  method BeginTable(table: string, columns: seq<string>) returns (header: string)
    ensures header == TableHeader(table, columns)
  {
    var quoted: seq<string> := [];
    var i := 0;
    while i < |columns|
      invariant 0 <= i <= |columns|
      invariant quoted == QuoteAll(columns[..i])
    {
      QuoteAllSnoc(columns[..i], columns[i]);
      assert columns[..i + 1] == columns[..i] + [columns[i]];
      quoted := quoted + [Quote(columns[i])];
      i := i + 1;
    }
    assert columns[..i] == columns;
    var colstr := Join(quoted, ", ");
    header := TableFrame(table, colstr);
  }

  lemma QuoteAllSnoc(columns: seq<string>, c: string)
    ensures QuoteAll(columns + [c]) == QuoteAll(columns) + [Quote(c)]
  {
  }

  // ---------------------------------------------------------------------
  // Reading the quoted text back

  function HexValue(ch: char): Option<nat>
  {
    if '0' <= ch <= '9' then Some(ch as nat - '0' as nat)
    else if 'a' <= ch <= 'f' then Some(ch as nat - 'a' as nat + 10)
    else if 'A' <= ch <= 'F' then Some(ch as nat - 'A' as nat + 10)
    else None
  }

  /** The character an escape sequence (after its backslash) stands for, and
      what follows it. */
  function UnescapeOne(s: string): (r: Option<(char, string)>)
    ensures r.Some? ==> |r.value.1| < |s|
  {
    if s == [] then None
    else if s[0] == '"' then Some(('"', s[1..]))
    else if s[0] == '\\' then Some(('\\', s[1..]))
    else if s[0] == 'a' then Some(('\U{7}', s[1..]))
    else if s[0] == 'b' then Some(('\U{8}', s[1..]))
    else if s[0] == 'f' then Some(('\U{C}', s[1..]))
    else if s[0] == 'n' then Some(('\n', s[1..]))
    else if s[0] == 'r' then Some(('\r', s[1..]))
    else if s[0] == 't' then Some(('\t', s[1..]))
    else if s[0] == 'v' then Some(('\U{B}', s[1..]))
    else if s[0] == 'x' && |s| >= 3 && HexValue(s[1]).Some? && HexValue(s[2]).Some? then
      var hi, lo := HexValue(s[1]).value, HexValue(s[2]).value;
      if hi < 16 && lo < 16 then Some(((16 * hi + lo) as char, s[3..])) else None
    else None
  }

  function Prepend(ch: char, r: Option<(string, string)>): Option<(string, string)>
  {
    if r.None? then None else Some(([ch] + r.value.0, r.value.1))
  }

  /** The characters of a quoted string up to its closing quote, and what
      follows the closing quote. */
  function UnescapeBody(s: string): (r: Option<(string, string)>)
    ensures r.Some? ==> |r.value.1| < |s|
    decreases |s|
  {
    if s == [] then None
    else if s[0] == '"' then Some(("", s[1..]))
    else if s[0] == '\\' then
      match UnescapeOne(s[1..])
      case None => None
      case Some((ch, tail)) => Prepend(ch, UnescapeBody(tail))
    else Prepend(s[0], UnescapeBody(s[1..]))
  }

  /** Reads back what Quote writes: the string a leading quoted literal
      stands for, and what follows it. */
  function Unquote(s: string): (r: Option<(string, string)>)
    ensures r.Some? ==> |r.value.1| < |s|
  {
    if s == [] || s[0] != '"' then None else UnescapeBody(s[1..])
  }

  /** The names in a column list: quoted literals separated by ", ". */
  function SplitColumns(s: string): Option<seq<string>>
  {
    if s == "" then Some([]) else SplitQuoted(s)
  }

  function SplitQuoted(s: string): Option<seq<string>>
    decreases |s|
  {
    match Unquote(s)
    case None => None
    case Some((column, rest)) =>
      if rest == "" then Some([column])
      else if |rest| >= 2 && rest[..2] == ", " then
        match SplitQuoted(rest[2..])
        case None => None
        case Some(more) => Some([column] + more)
      else None
  }

  lemma EscapeRoundTrip(ch: char, tail: string)
    ensures UnescapeBody(Escape(ch) + tail) == Prepend(ch, UnescapeBody(tail))
  {
    var e := Escape(ch) + tail;
    if Escape(ch) == [ch] {
      assert e[0] == ch && e[1..] == tail;
    } else {
      EscapedRoundTrip(ch, tail);
      assert e[0] == '\\' && e[1..] == Escape(ch)[1..] + tail;
    }
  }

  /** An escaped character is a backslash and a sequence that UnescapeOne
      reads back as the character. */
  lemma EscapedRoundTrip(ch: char, tail: string)
    requires Escape(ch) != [ch]
    ensures |Escape(ch)| >= 2 && Escape(ch)[0] == '\\'
    ensures UnescapeOne(Escape(ch)[1..] + tail) == Some((ch, tail))
  {
    if ch in {'"', '\\', '\U{7}', '\U{8}', '\U{C}', '\n', '\r', '\t', '\U{B}'} {
      assert (Escape(ch)[1..] + tail)[1..] == tail;
    } else {
      HexRoundTrip(ch, tail);
    }
  }

  lemma HexRoundTrip(ch: char, tail: string)
    requires ch < ' ' || ch == '\U{7F}'
    requires !(ch in {'\U{7}', '\U{8}', '\U{C}', '\n', '\r', '\t', '\U{B}'})
    ensures |Escape(ch)| >= 2 && Escape(ch)[0] == '\\'
    ensures UnescapeOne(Escape(ch)[1..] + tail) == Some((ch, tail))
  {
    var n := ch as nat;
    var x := Escape(ch)[1..] + tail;
    assert x == ['x', HexDigit(n / 16), HexDigit(n % 16)] + tail;
    assert HexValue(HexDigit(n / 16)) == Some(n / 16);
    assert HexValue(HexDigit(n % 16)) == Some(n % 16);
    assert x[3..] == tail;
  }

  /** Reading back the escaped text of `s` and its closing quote gives `s`. */
  lemma {:induction false} EscapeAllRoundTrip(s: string, rest: string)
    ensures UnescapeBody(EscapeAll(s) + "\"" + rest) == Some((s, rest))
  {
    if s == [] {
      assert EscapeAll(s) + "\"" + rest == "\"" + rest;
    } else {
      EscapeAllRoundTrip(s[1..], rest);
      assert EscapeAll(s) + "\"" + rest == Escape(s[0]) + (EscapeAll(s[1..]) + "\"" + rest);
      EscapeRoundTrip(s[0], EscapeAll(s[1..]) + "\"" + rest);
      assert [s[0]] + s[1..] == s;
    }
  }

  /** Quote is undone by Unquote, whatever follows the quoted text. */
  lemma QuoteRoundTrip(s: string, rest: string)
    ensures Unquote(Quote(s) + rest) == Some((s, rest))
  {
    assert (Quote(s) + rest)[1..] == EscapeAll(s) + "\"" + rest;
    EscapeAllRoundTrip(s, rest);
  }

  /** A header's column list names exactly the columns it was made from, in
      order: quoting and joining lose nothing. */
  lemma {:induction false} ColumnListRoundTrip(columns: seq<string>)
    ensures SplitColumns(ColumnList(columns)) == Some(columns)
  {
    if columns != [] {
      QuotedRoundTrip(columns);
      assert ColumnList(columns) != "" by {
        assert Quote(columns[0])[0] == '"';
        JoinStartsWith(QuoteAll(columns), ", ");
      }
    }
  }

  lemma {:induction false} JoinStartsWith(parts: seq<string>, sep: string)
    requires parts != []
    ensures Join(parts, sep)[..|parts[0]|] == parts[0]
  {
    if |parts| > 1 {
      assert Join(parts, sep) == parts[0] + (sep + Join(parts[1..], sep));
    }
  }

  lemma {:induction false} QuotedRoundTrip(columns: seq<string>)
    requires columns != []
    ensures SplitQuoted(Join(QuoteAll(columns), ", ")) == Some(columns)
    decreases |columns|
  {
    var q := QuoteAll(columns);
    if |columns| == 1 {
      QuoteRoundTrip(columns[0], "");
      assert Quote(columns[0]) + "" == Quote(columns[0]);
      assert Join(q, ", ") == Quote(columns[0]);
      assert columns == [columns[0]];
    } else {
      var more := Join(q[1..], ", ");
      assert q[1..] == QuoteAll(columns[1..]);
      QuotedRoundTrip(columns[1..]);
      var s := Join(q, ", ");
      assert s == Quote(columns[0]) + (", " + more);
      QuoteRoundTrip(columns[0], ", " + more);
      SplitQuotedStep(s, columns[0], more);
      assert [columns[0]] + columns[1..] == columns;
    }
  }

  lemma SplitQuotedStep(s: string, column: string, more: string)
    requires Unquote(s) == Some((column, ", " + more))
    ensures SplitQuoted(s) ==
      match SplitQuoted(more)
      case None => None
      case Some(cols) => Some([column] + cols)
  {
    var rest := ", " + more;
    assert rest != "" && |rest| >= 2 && rest[..2] == ", " && rest[2..] == more;
  }

  /** Plain names (printable ASCII with no quote or backslash) are quoted by
      wrapping them in double quotes and nothing else. */
  lemma {:induction false} QuotePlain(s: string)
    requires forall i :: 0 <= i < |s| ==> ' ' <= s[i] < '\U{7F}' && s[i] != '"' && s[i] != '\\'
    ensures Quote(s) == "\"" + s + "\""
  {
    EscapePlain(s);
  }

  lemma {:induction false} EscapePlain(s: string)
    requires forall i :: 0 <= i < |s| ==> ' ' <= s[i] < '\U{7F}' && s[i] != '"' && s[i] != '\\'
    ensures EscapeAll(s) == s
  {
    if s != [] {
      EscapePlain(s[1..]);
      assert [s[0]] + s[1..] == s;
    }
  }

  /** For a header built from explicit columns `id` and `name`. */
  lemma ExplicitColumns()
    ensures ColumnList(["id", "name"]) == "\"id\", \"name\""
  {
    QuotePlain("id");
    QuotePlain("name");
    assert "\"" + "id" + "\"" == "\"id\"";
    assert "\"" + "name" + "\"" == "\"name\"";
    var q := QuoteAll(["id", "name"]);
    assert q[0] == "\"id\"" && q[1] == "\"name\"";
    assert QuoteAll(["id", "name"]) == ["\"id\"", "\"name\""];
  }
}
