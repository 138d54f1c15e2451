/** The text that `exportCSV` writes: every cell wrapped in double quotes
    with each inner double quote doubled, cells joined by `,` and rows by a
    line feed. This is the quoted-field form of section 2 (rules 5 to 7) of
    RFC 4180, with a bare line feed as the record separator. A reader for
    that form is given as the writer's inverse. */
module Csv {
  import opened Wrappers
  import Text

  /** `s.replace(/"/g, '""')`. */
  function DoubleQuotes(s: string): string
  {
    if s == [] then [] else (if s[0] == '"' then "\"\"" else [s[0]]) + DoubleQuotes(s[1..])
  }

  /** One cell as written: quoted, inner quotes doubled. */
  function EscapeCell(cell: string): (r: string)
    ensures |r| >= 2 && r[0] == '"' && r[|r| - 1] == '"'
  {
    "\"" + DoubleQuotes(cell) + "\""
  }

  /** `r.map(cell => escape(cell)).join(',')`. */
  function Row(cells: seq<string>): string
  {
    Text.Join(seq(|cells|, i requires 0 <= i < |cells| => EscapeCell(cells[i])), ',')
  }

  /** `rows.map(Row).join('\n')`: the whole exported text. */
  function Document(rows: seq<seq<string>>): string
  {
    Text.Join(seq(|rows|, i requires 0 <= i < |rows| => Row(rows[i])), '\n')
  }

  /** A parsed value and the text after it. */
  datatype Parsed<T> = Parsed(value: T, rest: string)

  /** Reads the inside of a quoted field up to its closing quote; a doubled
      quote stands for one quote. */
  function UnquoteBody(s: string): (r: Option<Parsed<string>>)
    ensures r.Some? ==> |r.value.rest| < |s|
    decreases |s|
  {
    if s == [] then None
    else if s[0] == '"' then
      if |s| >= 2 && s[1] == '"' then
        match UnquoteBody(s[2..])
        case None => None
        case Some(p) => Some(Parsed("\"" + p.value, p.rest))
      else Some(Parsed("", s[1..]))
    else
      match UnquoteBody(s[1..])
      case None => None
      case Some(p) => Some(Parsed([s[0]] + p.value, p.rest))
  }

  /** Reads one quoted field. */
  function ParseCell(s: string): (r: Option<Parsed<string>>)
    ensures r.Some? ==> |r.value.rest| < |s|
  {
    if s != [] && s[0] == '"' then UnquoteBody(s[1..]) else None
  }

  /** Reads comma-separated quoted fields up to the end of a record. */
  function ParseCells(s: string): (r: Option<Parsed<seq<string>>>)
    ensures r.Some? ==> |r.value.rest| < |s|
    decreases |s|
  {
    match ParseCell(s)
    case None => None
    case Some(c) =>
      if c.rest != [] && c.rest[0] == ',' then
        match ParseCells(c.rest[1..])
        case None => None
        case Some(more) => Some(Parsed([c.value] + more.value, more.rest))
      else Some(Parsed([c.value], c.rest))
  }

  /** Reads records separated by line feeds up to the end of the text. */
  function ParseDocument(s: string): Option<seq<seq<string>>>
    decreases |s|
  {
    match ParseCells(s)
    case None => None
    case Some(r) =>
      if r.rest == [] then Some([r.value])
      else if r.rest[0] == '\n' then
        match ParseDocument(r.rest[1..])
        case None => None
        case Some(more) => Some([r.value] + more)
      else None
  }

  lemma {:induction false} UnquoteDoubled(s: string, rest: string)
    requires rest == [] || rest[0] != '"'
    ensures UnquoteBody(DoubleQuotes(s) + "\"" + rest) == Some(Parsed(s, rest))
  {
    var t := DoubleQuotes(s) + "\"" + rest;
    if s == [] {
      assert t == "\"" + rest;
      assert t[1..] == rest;
    } else {
      UnquoteDoubled(s[1..], rest);
      var tail := DoubleQuotes(s[1..]) + "\"" + rest;
      assert s == [s[0]] + s[1..];
      if s[0] == '"' {
        assert t == "\"\"" + tail;
        assert t[2..] == tail;
      } else {
        assert t == [s[0]] + tail;
        assert t[1..] == tail;
      }
    }
  }

  /** Reading an escaped cell gives the cell back. */
  lemma ParseEscapedCell(cell: string, rest: string)
    requires rest == [] || rest[0] != '"'
    ensures ParseCell(EscapeCell(cell) + rest) == Some(Parsed(cell, rest))
  {
    var t := EscapeCell(cell) + rest;
    assert t[1..] == DoubleQuotes(cell) + "\"" + rest;
    UnquoteDoubled(cell, rest);
  }

  lemma {:induction false} ParseRowCells(cells: seq<string>, rest: string)
    requires |cells| >= 1
    requires rest == [] || rest[0] == '\n'
    ensures ParseCells(Row(cells) + rest) == Some(Parsed(cells, rest))
  {
    if |cells| == 1 {
      RowSingle(cells);
      ParseEscapedCell(cells[0], rest);
    } else {
      var tail := cells[1..];
      ParseRowCells(tail, rest);
      RowCons(cells, rest);
      ParseCellsCons(cells[0], Row(tail) + rest, tail, rest);
    }
  }

  /** A row of several cells is the first cell, a comma and the rest. */
  lemma RowCons(cells: seq<string>, rest: string)
    requires |cells| >= 2
    ensures Row(cells) + rest == EscapeCell(cells[0]) + [','] + (Row(cells[1..]) + rest)
    ensures cells == [cells[0]] + cells[1..]
  {
    var escaped := seq(|cells|, i requires 0 <= i < |cells| => EscapeCell(cells[i]));
    var tail := cells[1..];
    assert seq(|tail|, i requires 0 <= i < |tail| => EscapeCell(tail[i])) == escaped[1..];
  }

  lemma RowSingle(cells: seq<string>)
    requires |cells| == 1
    ensures Row(cells) == EscapeCell(cells[0]) && cells == [cells[0]]
  {
  }

  /** An escaped cell and a comma in front of readable cells are read as
      one more cell. */
  lemma ParseCellsCons(cell: string, text: string, more: seq<string>, rest: string)
    requires ParseCells(text) == Some(Parsed(more, rest))
    ensures ParseCells(EscapeCell(cell) + [','] + text) == Some(Parsed([cell] + more, rest))
  {
    var after := [','] + text;
    assert EscapeCell(cell) + [','] + text == EscapeCell(cell) + after;
    ParseEscapedCell(cell, after);
    assert after[1..] == text;
  }

  /** Reading the exported text gives back the rows, when there is at least
      one row and no row is empty (an empty row would be an empty line). */
  lemma {:induction false} ParseDocumentRoundTrip(rows: seq<seq<string>>)
    requires |rows| >= 1
    requires forall i :: 0 <= i < |rows| ==> |rows[i]| >= 1
    ensures ParseDocument(Document(rows)) == Some(rows)
  {
    if |rows| == 1 {
      DocumentSingle(rows);
      ParseRowCells(rows[0], "");
    } else {
      var tail := rows[1..];
      ParseDocumentRoundTrip(tail);
      DocumentCons(rows);
      ParseRowCells(rows[0], ['\n'] + Document(tail));
      ParseDocumentCons(rows[0], ['\n'] + Document(tail), tail);
    }
  }

  lemma DocumentSingle(rows: seq<seq<string>>)
    requires |rows| == 1
    ensures Document(rows) == Row(rows[0]) + "" && rows == [rows[0]]
  {
  }

  /** A document of several rows is the first row, a line feed and the rest. */
  lemma DocumentCons(rows: seq<seq<string>>)
    requires |rows| >= 2
    ensures Document(rows) == Row(rows[0]) + (['\n'] + Document(rows[1..]))
    ensures rows == [rows[0]] + rows[1..]
  {
    var lines := seq(|rows|, i requires 0 <= i < |rows| => Row(rows[i]));
    var tail := rows[1..];
    assert seq(|tail|, i requires 0 <= i < |tail| => Row(tail[i])) == lines[1..];
  }

  /** A record read up to a line feed, followed by a readable document, is
      read as one more record. */
  lemma ParseDocumentCons(cells: seq<string>, after: string, more: seq<seq<string>>)
    requires after != [] && after[0] == '\n'
    requires ParseCells(Row(cells) + after) == Some(Parsed(cells, after))
    requires ParseDocument(after[1..]) == Some(more)
    ensures ParseDocument(Row(cells) + after) == Some([cells] + more)
  {
  }
}
