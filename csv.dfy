/**
 * The CSV text the bot writes when it stops (`generateCsv` in testing/bot.js):
 * every field has each double quote doubled and is wrapped in double quotes,
 * fields are joined by commas and rows by CR LF.
 *
 * A reader for exactly that format is the partner of the writer: reading back
 * the text of a non-empty table of non-empty rows gives the table.
 */
module Csv {
  import opened Wrappers

  /** The number of double quotes in `s`. */
  function Quotes(s: string): nat
  {
    if s == [] then 0 else (if s[0] == '"' then 1 else 0) + Quotes(s[1..])
  }

  lemma {:induction false} QuotesAppend(a: string, b: string)
    ensures Quotes(a + b) == Quotes(a) + Quotes(b)
  {
    if a != [] {
      assert (a + b)[1..] == a[1..] + b;
      QuotesAppend(a[1..], b);
    } else {
      assert a + b == b;
    }
  }

  /** `v` with every `"` doubled. */
  function Escape(v: string): (r: string)
    ensures |r| >= |v|
    ensures Quotes(r) == 2 * Quotes(v)
    ensures forall i :: 0 <= i < |v| && v[i] != '"' ==> v[i] in r
  {
    if v == [] then []
    else
      var head := if v[0] == '"' then "\"\"" else [v[0]];
      QuotesAppend(head, Escape(v[1..]));
      head + Escape(v[1..])
  }

  /** A field as written: escaped and wrapped in quotes, so its quotes pair up. */
  function Quote(v: string): (r: string)
    ensures |r| >= |v| + 2 && r[0] == '"' && r[|r| - 1] == '"'
    ensures Quotes(r) == 2 * Quotes(v) + 2
  {
    QuotesAppend("\"", Escape(v));
    QuotesAppend("\"" + Escape(v), "\"");
    "\"" + Escape(v) + "\""
  }

  /** The quoted fields of `row`, joined by commas. */
  function RowText(row: seq<string>): (r: string)
    ensures row == [] <==> r == []
    ensures row != [] ==> r[0] == '"' && r[|r| - 1] == '"'
  {
    if row == [] then ""
    else if |row| == 1 then Quote(row[0])
    else Quote(row[0]) + "," + RowText(row[1..])
  }

  /** The rows' texts, joined by CR LF. */
  function CsvText(rows: seq<seq<string>>): (r: string)
    ensures rows != [] && rows[0] != [] ==> |r| > 0 && r[0] == '"'
    ensures rows != [] && rows[|rows| - 1] != [] ==> |r| > 0 && r[|r| - 1] == '"'
  {
    if rows == [] then ""
    else if |rows| == 1 then RowText(rows[0])
    else RowText(rows[0]) + "\r\n" + CsvText(rows[1..])
  }

  /**
   * Reads a quoted field's content up to its closing quote (the opening quote
   * already consumed): a doubled quote stands for one quote. Answers the
   * content and what follows the closing quote.
   */
  function ReadQuoted(s: string): (r: Option<(string, string)>)
    ensures r.Some? ==> |r.value.1| < |s|
  {
    if s == [] then None
    else if s[0] == '"' then
      if |s| >= 2 && s[1] == '"' then
        match ReadQuoted(s[2..])
        case None => None
        case Some((v, rest)) => Some(("\"" + v, rest))
      else Some(("", s[1..]))
    else
      match ReadQuoted(s[1..])
      case None => None
      case Some((v, rest)) => Some(([s[0]] + v, rest))
  }

  function ReadField(s: string): (r: Option<(string, string)>)
    ensures r.Some? ==> |r.value.1| < |s|
  {
    if s != [] && s[0] == '"' then ReadQuoted(s[1..]) else None
  }

  /** Reads comma-separated quoted fields; answers them and the unread rest. */
  function ReadRow(s: string): (r: Option<(seq<string>, string)>)
    ensures r.Some? ==> |r.value.1| < |s|
    decreases |s|
  {
    match ReadField(s)
    case None => None
    case Some((f, rest)) =>
      if rest != [] && rest[0] == ',' then
        match ReadRow(rest[1..])
        case None => None
        case Some((fs, rest2)) => Some(([f] + fs, rest2))
      else Some(([f], rest))
  }

  /** Reads CR LF separated rows up to the end of `s`. */
  function ParseCsv(s: string): Option<seq<seq<string>>>
    decreases |s|
  {
    match ReadRow(s)
    case None => None
    case Some((row, rest)) =>
      if rest == [] then Some([row])
      else if |rest| >= 2 && rest[0] == '\r' && rest[1] == '\n' then
        match ParseCsv(rest[2..])
        case None => None
        case Some(rows) => Some([row] + rows)
      else None
  }

  /** The escaped content followed by the closing quote reads back as `v`. */
  lemma {:induction false} ReadQuotedEscape(v: string, rest: string)
    requires rest == [] || rest[0] != '"'
    ensures ReadQuoted(Escape(v) + "\"" + rest) == Some((v, rest))
  {
    if v == [] {
      assert Escape(v) + "\"" + rest == "\"" + rest;
    } else {
      ReadQuotedEscape(v[1..], rest);
      var tail := Escape(v[1..]) + "\"" + rest;
      EscapeFirst(v, rest);
      if v[0] == '"' {
        ReadQuotedDoubled(tail, v[1..], rest);
        assert "\"" + v[1..] == v;
      } else {
        ReadQuotedPlain(v[0], tail, v[1..], rest);
        assert [v[0]] + v[1..] == v;
      }
    }
  }

  /** The escaped text starts with the escape of the first character. */
  lemma EscapeFirst(v: string, rest: string)
    requires v != []
    ensures Escape(v) + "\"" + rest == (if v[0] == '"' then "\"\"" else [v[0]]) + (Escape(v[1..]) + "\"" + rest)
  {
  }

  /** A doubled quote reads as one quote in front of what follows. */
  lemma ReadQuotedDoubled(tail: string, v: string, rest: string)
    requires ReadQuoted(tail) == Some((v, rest))
    ensures ReadQuoted("\"\"" + tail) == Some(("\"" + v, rest))
  {
    assert ("\"\"" + tail)[2..] == tail;
  }

  /** Any other character reads as itself in front of what follows. */
  lemma ReadQuotedPlain(c: char, tail: string, v: string, rest: string)
    requires c != '"' && ReadQuoted(tail) == Some((v, rest))
    ensures ReadQuoted([c] + tail) == Some(([c] + v, rest))
  {
    assert ([c] + tail)[1..] == tail;
  }

  lemma ReadFieldQuote(v: string, rest: string)
    requires rest == [] || rest[0] != '"'
    ensures ReadField(Quote(v) + rest) == Some((v, rest))
  {
    ReadQuotedEscape(v, rest);
    assert Quote(v) + rest == "\"" + (Escape(v) + "\"" + rest);
  }

  /** A row's text, followed by a line break or the end, reads back as the row. */
  lemma {:induction false} ReadRowText(row: seq<string>, rest: string)
    requires row != []
    requires rest == [] || rest[0] == '\r'
    ensures ReadRow(RowText(row) + rest) == Some((row, rest))
  {
    if |row| == 1 {
      ReadFieldQuote(row[0], rest);
      assert [row[0]] == row;
    } else {
      ReadRowText(row[1..], rest);
      ReadRowStep(row[0], RowText(row[1..]) + rest, row[1..], rest);
      RowTextFirst(row, rest);
      assert [row[0]] + row[1..] == row;
    }
  }

  /** A row of several fields is written as its first field, a comma and the rest. */
  lemma RowTextFirst(row: seq<string>, rest: string)
    requires |row| >= 2
    ensures RowText(row) + rest == Quote(row[0]) + "," + (RowText(row[1..]) + rest)
  {
  }

  /** A quoted field and a comma in front of readable fields read as one more field. */
  lemma ReadRowStep(f: string, after: string, fs: seq<string>, rest: string)
    requires ReadRow(after) == Some((fs, rest))
    ensures ReadRow(Quote(f) + "," + after) == Some(([f] + fs, rest))
  {
    var comma := "," + after;
    assert Quote(f) + "," + after == Quote(f) + comma;
    ReadFieldQuote(f, comma);
    assert comma[1..] == after;
  }

  /**
   * Round trip: the text of a non-empty table whose rows are all non-empty
   * reads back as that table.
   */
  lemma {:induction false} CsvRoundTrip(rows: seq<seq<string>>)
    requires rows != []
    requires forall i :: 0 <= i < |rows| ==> rows[i] != []
    ensures ParseCsv(CsvText(rows)) == Some(rows)
  {
    if |rows| == 1 {
      ReadRowText(rows[0], "");
      assert RowText(rows[0]) + "" == RowText(rows[0]);
      assert [rows[0]] == rows;
    } else {
      var after := CsvText(rows[1..]);
      ReadRowText(rows[0], "\r\n" + after);
      CsvRoundTrip(rows[1..]);
      ParseCsvStep(rows[0], after, rows[1..]);
      CsvTextFirst(rows);
      assert [rows[0]] + rows[1..] == rows;
    }
  }

  /** A table of several rows is written as its first row, a line break and the rest. */
  lemma CsvTextFirst(rows: seq<seq<string>>)
    requires |rows| >= 2
    ensures CsvText(rows) == RowText(rows[0]) + ("\r\n" + CsvText(rows[1..]))
  {
  }

  /** A row read up to a line break, in front of a readable table, adds that row to the table. */
  lemma ParseCsvStep(row: seq<string>, after: string, rows: seq<seq<string>>)
    requires ReadRow(RowText(row) + ("\r\n" + after)) == Some((row, "\r\n" + after))
    requires ParseCsv(after) == Some(rows)
    ensures ParseCsv(RowText(row) + ("\r\n" + after)) == Some([row] + rows)
  {
    assert ("\r\n" + after)[2..] == after;
  }
}
