/** CSV export and import of the command-line client: `csv_escape` and `render_csv`
    (crates/keystone/tpt-keystone-cli/src/format.rs:125-146) and `parse_csv`
    (crates/keystone/tpt-keystone-cli/src/data.rs:37-75). */
module Csv {

  import opened Wrappers

  /** A query result; a cell is NULL or text. */
  datatype Table = Table(columns: seq<string>, rows: seq<seq<Option<string>>>)

  type Line = seq<string>

  // ----- rendering -----

  predicate NeedsQuotes(s: string) {
    ',' in s || '"' in s || '\n' in s || '\r' in s
  }

  function Doubled(s: string): string {
    if |s| == 0 then "" else (if s[0] == '"' then "\"\"" else [s[0]]) + Doubled(s[1..])
  }

  function Escape(s: string): string {
    if NeedsQuotes(s) then "\"" + Doubled(s) + "\"" else s
  }

  function JoinEscaped(fields: Line): string {
    if |fields| == 0 then ""
    else if |fields| == 1 then Escape(fields[0])
    else Escape(fields[0]) + "," + JoinEscaped(fields[1..])
  }

  /** The text of cell i, with NULL and missing cells as the empty string. */
  function CellText(row: seq<Option<string>>, i: nat): string {
    if i < |row| && row[i].Some? then row[i].value else ""
  }

  function RowText(row: seq<Option<string>>, width: nat): (line: Line)
    ensures |line| == width
  {
    seq(width, i requires 0 <= i < width => CellText(row, i))
  }

  function RowTexts(t: Table): (lines: seq<Line>)
    ensures |lines| == |t.rows|
  {
    seq(|t.rows|, i requires 0 <= i < |t.rows| => RowText(t.rows[i], |t.columns|))
  }

  function RenderLines(lines: seq<Line>): string {
    if |lines| == 0 then "" else JoinEscaped(lines[0]) + "\n" + RenderLines(lines[1..])
  }

  function Render(t: Table): string {
    RenderLines([t.columns] + RowTexts(t))
  }

  lemma {:induction false} RenderAppend(lines: seq<Line>, last: Line)
    ensures RenderLines(lines + [last]) == RenderLines(lines) + JoinEscaped(last) + "\n"
  {
    if |lines| == 0 {
      assert lines + [last] == [last];
      assert RenderLines([last][1..]) == "";
    } else {
      assert (lines + [last])[1..] == lines[1..] + [last];
      RenderAppend(lines[1..], last);
    }
  }

  /** format.rs:133-146 */
  method RenderCsv(t: Table) returns (out: string)
    ensures out == Render(t)
  {
    hide JoinEscaped;
    var texts := RowTexts(t);
    out := JoinEscaped(t.columns);
    out := out + "\n";
    RenderAppend([], t.columns);
    assert [] + [t.columns] == [t.columns];
    for i := 0 to |t.rows|
      invariant out == RenderLines([t.columns] + texts[..i])
    {
      var line := JoinEscaped(RowText(t.rows[i], |t.columns|));
      RenderAppend([t.columns] + texts[..i], texts[i]);
      assert [t.columns] + texts[..i] + [texts[i]] == [t.columns] + texts[..i + 1];
      out := out + line;
      out := out + "\n";
    }
    assert texts[..|t.rows|] == texts;
  }

  // ----- parsing -----

  /** The parser's variables. */
  datatype Parser = Parser(rows: seq<Line>, row: Line, field: string, inQuotes: bool)

  /** The variables after the rest of the text. */
  function Scan(s: string, p: Parser): Parser
    decreases |s|
  {
    if |s| == 0 then p
    else if p.inQuotes then
      if s[0] == '"' then
        if |s| > 1 && s[1] == '"' then Scan(s[2..], p.(field := p.field + "\""))
        else Scan(s[1..], p.(inQuotes := false))
      else Scan(s[1..], p.(field := p.field + [s[0]]))
    else if s[0] == '"' then Scan(s[1..], p.(inQuotes := true))
    else if s[0] == ',' then Scan(s[1..], p.(row := p.row + [p.field], field := ""))
    else if s[0] == '\r' then Scan(s[1..], p)
    else if s[0] == '\n' then Scan(s[1..], p.(rows := p.rows + [p.row + [p.field]], row := [], field := ""))
    else Scan(s[1..], p.(field := p.field + [s[0]]))
  }

  predicate Blank(line: Line) {
    |line| == 1 && line[0] == ""
  }

  function Kept(lines: seq<Line>): seq<Line> {
    if |lines| == 0 then [] else (if Blank(lines[0]) then [] else [lines[0]]) + Kept(lines[1..])
  }

  function Finish(p: Parser): seq<Line> {
    Kept(if p.field != "" || p.row != [] then p.rows + [p.row + [p.field]] else p.rows)
  }

  const EMPTY := Parser([], [], "", false)

  function Parse(content: string): seq<Line> {
    Finish(Scan(content, EMPTY))
  }

  lemma {:induction false} KeptAppend(a: seq<Line>, b: seq<Line>)
    ensures Kept(a + b) == Kept(a) + Kept(b)
  {
    if |a| == 0 {
      assert a + b == b;
    } else {
      assert (a + b)[1..] == a[1..] + b;
      KeptAppend(a[1..], b);
    }
  }

  /** data.rs:37-75 */
  method ParseCsv(content: string) returns (rows: seq<Line>)
    ensures rows == Parse(content)
  {
    rows := [];
    var row: Line := [];
    var field: string := "";
    var inQuotes := false;
    var i := 0;
    while i < |content|
      invariant 0 <= i <= |content|
      invariant Scan(content[i..], Parser(rows, row, field, inQuotes)) == Scan(content, EMPTY)
    {
      var c := content[i];
      assert content[i..][1..] == content[i + 1..];
      i := i + 1;
      if inQuotes {
        if c == '"' {
          if i < |content| && content[i] == '"' {
            assert content[i - 1..][2..] == content[i + 1..];
            field := field + "\"";
            i := i + 1;
          } else {
            inQuotes := false;
          }
        } else {
          field := field + [c];
        }
      } else {
        match c {
          case '"' => inQuotes := true;
          case ',' => row, field := row + [field], "";
          case '\r' =>
          case '\n' => rows, row, field := rows + [row + [field]], [], "";
          case _ => field := field + [c];
        }
      }
    }
    assert Scan(content[i..], Parser(rows, row, field, inQuotes)) == Parser(rows, row, field, inQuotes);
    if field != "" || row != [] {
      rows := rows + [row + [field]];
    }
    rows := Retain(rows);
  }

  /** data.rs:73 */
  method Retain(lines: seq<Line>) returns (kept: seq<Line>)
    ensures kept == Kept(lines)
  {
    kept := [];
    for i := 0 to |lines|
      invariant kept == Kept(lines[..i])
    {
      assert lines[..i + 1] == lines[..i] + [lines[i]];
      KeptAppend(lines[..i], [lines[i]]);
      if !Blank(lines[i]) {
        kept := kept + [lines[i]];
      }
    }
    assert lines[..|lines|] == lines;
  }

  // ----- the round trip -----

  lemma {:induction false} PlainScan(s: string, rest: string, p: Parser)
    requires !p.inQuotes && !NeedsQuotes(s)
    ensures Scan(s + rest, p) == Scan(rest, p.(field := p.field + s))
    decreases |s|
  {
    if |s| == 0 {
      assert s + rest == rest && p.field + s == p.field;
    } else {
      assert (s + rest)[1..] == s[1..] + rest;
      assert s[0] in s;
      assert forall c :: c in s[1..] ==> c in s;
      PlainScan(s[1..], rest, p.(field := p.field + [s[0]]));
      assert p.field + [s[0]] + s[1..] == p.field + s;
    }
  }

  lemma {:induction false} QuotedScan(s: string, rest: string, p: Parser)
    requires p.inQuotes && (rest == "" || rest[0] != '"')
    ensures Scan(Doubled(s) + "\"" + rest, p) == Scan(rest, p.(field := p.field + s, inQuotes := false))
    decreases |s|
  {
    var text := Doubled(s) + "\"" + rest;
    if |s| == 0 {
      assert text[1..] == rest && p.field + s == p.field;
    } else {
      var tail := Doubled(s[1..]) + "\"" + rest;
      QuotedScan(s[1..], rest, p.(field := p.field + [s[0]]));
      assert p.field + [s[0]] + s[1..] == p.field + s;
      if s[0] == '"' {
        assert text == "\"\"" + tail;
        assert text[2..] == tail;
      } else {
        assert text == [s[0]] + tail;
        assert text[1..] == tail;
      }
    }
  }

  /** An escaped field followed by a separator scans to the field itself. */
  lemma FieldScan(s: string, rest: string, p: Parser)
    requires !p.inQuotes && p.field == "" && (rest == "" || rest[0] != '"')
    ensures Scan(Escape(s) + rest, p) == Scan(rest, p.(field := s))
  {
    hide Scan;
    if NeedsQuotes(s) {
      var inner := Doubled(s) + "\"" + rest;
      assert Escape(s) + rest == "\"" + inner;
      OpenQuote(inner, p);
      QuotedScan(s, rest, p.(inQuotes := true));
      assert "" + s == s;
    } else {
      PlainScan(s, rest, p);
      assert "" + s == s;
    }
  }

  lemma OpenQuote(inner: string, p: Parser)
    requires !p.inQuotes
    ensures Scan("\"" + inner, p) == Scan(inner, p.(inQuotes := true))
  {
    assert ("\"" + inner)[1..] == inner;
  }

  /** One rendered line scans to one row; a line without columns reads back as one empty field. */
  lemma {:induction false} LineScan(fields: Line, rest: string, p: Parser)
    requires !p.inQuotes && p.field == ""
    ensures Scan(JoinEscaped(fields) + "\n" + rest, p)
         == Scan(rest, Parser(p.rows + [p.row + (if fields == [] then [""] else fields)], [], "", false))
    decreases |fields|
  {
    hide Escape;
    var text := JoinEscaped(fields) + "\n" + rest;
    if |fields| == 0 {
      assert text[1..] == rest;
    } else if |fields| == 1 {
      assert text == Escape(fields[0]) + ("\n" + rest);
      FieldScan(fields[0], "\n" + rest, p);
      assert ("\n" + rest)[1..] == rest;
      assert fields == [fields[0]];
    } else {
      var tail := JoinEscaped(fields[1..]) + "\n" + rest;
      assert text == Escape(fields[0]) + ("," + tail);
      FieldScan(fields[0], "," + tail, p);
      assert ("," + tail)[1..] == tail;
      LineScan(fields[1..], rest, p.(row := p.row + [fields[0]]));
      assert p.row + [fields[0]] + fields[1..] == p.row + fields;
    }
  }

  function AsRead(line: Line): Line {
    if line == [] then [""] else line
  }

  function AllAsRead(lines: seq<Line>): (r: seq<Line>)
    ensures |r| == |lines| && forall i :: 0 <= i < |lines| ==> r[i] == AsRead(lines[i])
  {
    seq(|lines|, i requires 0 <= i < |lines| => AsRead(lines[i]))
  }

  lemma EmptyScan(p: Parser)
    ensures Scan("", p) == p
  {}

  lemma {:induction false} LinesScan(lines: seq<Line>, rows: seq<Line>)
    ensures Scan(RenderLines(lines), Parser(rows, [], "", false)) == Parser(rows + AllAsRead(lines), [], "", false)
    decreases |lines|
  {
    hide JoinEscaped, Scan, AllAsRead;
    if |lines| == 0 {
      assert AllAsRead(lines) == [];
      assert rows + AllAsRead(lines) == rows;
      EmptyScan(Parser(rows, [], "", false));
    } else {
      var first, p := AsRead(lines[0]), Parser(rows, [], "", false);
      LineScan(lines[0], RenderLines(lines[1..]), p);
      assert p.row + first == first;
      LinesScan(lines[1..], rows + [first]);
      AllAsReadCons(lines);
      Regroup(rows, first, AllAsRead(lines[1..]));
    }
  }

  lemma AllAsReadCons(lines: seq<Line>)
    requires |lines| > 0
    ensures AllAsRead(lines) == [AsRead(lines[0])] + AllAsRead(lines[1..])
  {}

  lemma Regroup(rows: seq<Line>, first: Line, rest: seq<Line>)
    ensures rows + ([first] + rest) == rows + [first] + rest
  {}

  lemma ParseOfRender(t: Table)
    ensures Parse(Render(t)) == Kept(AllAsRead([t.columns] + RowTexts(t)))
  {
    var lines := [t.columns] + RowTexts(t);
    LinesScan(lines, []);
    assert [] + AllAsRead(lines) == AllAsRead(lines);
  }

  lemma {:induction false} KeptAll(lines: seq<Line>)
    ensures |Kept(lines)| <= |lines|
    ensures Kept(lines) == lines <==> forall i :: 0 <= i < |lines| ==> !Blank(lines[i])
  {
    if |lines| > 0 {
      KeptAll(lines[1..]);
      assert lines == [lines[0]] + lines[1..];
      if !Blank(lines[0]) {
        assert Kept(lines)[1..] == Kept(lines[1..]);
        assert forall i :: 1 <= i < |lines| ==> lines[i] == lines[1..][i - 1];
      }
    }
  }

  /** Importing what was exported gives back the header and the rows, with NULL as the empty
      string, exactly when there is a column and no line is a single empty field. */
  lemma RoundTrip(t: Table)
    ensures var lines := [t.columns] + RowTexts(t);
            Parse(Render(t)) == lines <==>
              |t.columns| > 0 && forall i :: 0 <= i < |lines| ==> !Blank(lines[i])
  {
    hide Parse, Render;
    var lines := [t.columns] + RowTexts(t);
    ParseOfRender(t);
    KeptAll(AllAsRead(lines));
    KeptAll(lines);
    assert lines[0] == t.columns;
    if |t.columns| > 0 {
      assert forall i :: 0 < i < |lines| ==> lines[i] == RowTexts(t)[i - 1];
      assert AllAsRead(lines) == lines;
    } else {
      NothingKept(AllAsRead(lines), lines, t);
    }
  }

  lemma NothingKept(read: seq<Line>, lines: seq<Line>, t: Table)
    requires |t.columns| == 0 && lines == [t.columns] + RowTexts(t) && read == AllAsRead(lines)
    ensures Kept(read) == []
  {
    assert forall i :: 0 < i < |lines| ==> lines[i] == RowTexts(t)[i - 1];
    assert forall i :: 0 <= i < |read| ==> Blank(read[i]);
    BlankLinesVanish(read);
  }

  lemma {:induction false} BlankLinesVanish(lines: seq<Line>)
    requires forall i :: 0 <= i < |lines| ==> Blank(lines[i])
    ensures Kept(lines) == []
  {
    if |lines| > 0 {
      BlankLinesVanish(lines[1..]);
    }
  }

  // ----- other line ends -----

  /** A rendered line scans to its fields, the last of them still open. */
  lemma {:induction false} JoinScan(fields: Line, rest: string, p: Parser)
    requires !p.inQuotes && p.field == "" && (rest == "" || rest[0] != '"')
    ensures var n := |AsRead(fields)| - 1;
      Scan(JoinEscaped(fields) + rest, p)
        == Scan(rest, p.(row := p.row + AsRead(fields)[..n], field := AsRead(fields)[n]))
    decreases |fields|
  {
    hide Escape, Scan, JoinEscaped;
    JoinEscapedStep(fields);
    if |fields| == 0 {
      assert JoinEscaped(fields) + rest == rest;
      assert p.row + [""][..0] == p.row;
    } else if |fields| == 1 {
      FieldScan(fields[0], rest, p);
      assert p.row + fields[..0] == p.row;
    } else {
      var tail := JoinEscaped(fields[1..]) + rest;
      assert JoinEscaped(fields) + rest == Escape(fields[0]) + ("," + tail);
      FieldScan(fields[0], "," + tail, p);
      CommaScan(tail, p.(field := fields[0]));
      JoinScan(fields[1..], rest, p.(row := p.row + [fields[0]]));
      FrontOf(p.row, fields);
    }
  }

  lemma JoinEscapedStep(fields: Line)
    ensures |fields| == 0 ==> JoinEscaped(fields) == ""
    ensures |fields| == 1 ==> JoinEscaped(fields) == Escape(fields[0])
    ensures |fields| > 1 ==> JoinEscaped(fields) == Escape(fields[0]) + "," + JoinEscaped(fields[1..])
  {
    hide Escape;
  }

  lemma FrontOf(row: Line, fields: Line)
    requires |fields| > 1
    ensures var n := |fields| - 1;
      row + [fields[0]] + fields[1..][..n - 1] == row + fields[..n] && fields[1..][n - 1] == fields[n]
  {
  }

  lemma CommaScan(tail: string, p: Parser)
    requires !p.inQuotes
    ensures Scan("," + tail, p) == Scan(tail, p.(row := p.row + [p.field], field := ""))
  {
    assert ("," + tail)[1..] == tail;
  }

  lemma CrScan(rest: string, p: Parser)
    requires !p.inQuotes
    ensures Scan("\r" + rest, p) == Scan(rest, p)
  {
    assert ("\r" + rest)[1..] == rest;
  }

  lemma LfScan(rest: string, p: Parser)
    requires !p.inQuotes
    ensures Scan("\n" + rest, p) == Scan(rest, p.(rows := p.rows + [p.row + [p.field]], row := [], field := ""))
  {
    assert ("\n" + rest)[1..] == rest;
  }

  lemma TwoThenRest(rest: string)
    ensures "\r\n" + rest == "\r" + ("\n" + rest)
  {
  }

  lemma CrLfScan(rest: string, p: Parser)
    requires !p.inQuotes
    ensures Scan("\r\n" + rest, p) == Scan(rest, p.(rows := p.rows + [p.row + [p.field]], row := [], field := ""))
  {
    hide Scan;
    var tail := "\n" + rest;
    TwoThenRest(rest);
    CrScan(tail, p);
    LfScan(rest, p);
  }

  function RenderCrLf(lines: seq<Line>): string {
    if |lines| == 0 then "" else JoinEscaped(lines[0]) + "\r\n" + RenderCrLf(lines[1..])
  }

  lemma CrLfLineScan(fields: Line, rest: string, rows: seq<Line>)
    ensures Scan(JoinEscaped(fields) + "\r\n" + rest, Parser(rows, [], "", false))
         == Scan(rest, Parser(rows + [AsRead(fields)], [], "", false))
  {
    hide Scan, JoinEscaped;
    var p, line := Parser(rows, [], "", false), AsRead(fields);
    var n := |line| - 1;
    assert JoinEscaped(fields) + "\r\n" + rest == JoinEscaped(fields) + ("\r\n" + rest);
    JoinScan(fields, "\r\n" + rest, p);
    CrLfScan(rest, p.(row := p.row + line[..n], field := line[n]));
    assert p.row + line[..n] + [line[n]] == line;
  }

  lemma {:induction false} CrLfScanAll(lines: seq<Line>, rows: seq<Line>)
    ensures Scan(RenderCrLf(lines), Parser(rows, [], "", false)) == Parser(rows + AllAsRead(lines), [], "", false)
    decreases |lines|
  {
    hide JoinEscaped, Scan, AllAsRead, AsRead;
    if |lines| == 0 {
      assert AllAsRead(lines) == [];
      assert rows + AllAsRead(lines) == rows;
      EmptyScan(Parser(rows, [], "", false));
    } else {
      var first := AsRead(lines[0]);
      CrLfLineScan(lines[0], RenderCrLf(lines[1..]), rows);
      CrLfScanAll(lines[1..], rows + [first]);
      AllAsReadCons(lines);
      Regroup(rows, first, AllAsRead(lines[1..]));
    }
  }

  /** Text with carriage returns before its line feeds parses the same. */
  lemma CrLfParsesSame(lines: seq<Line>)
    ensures Parse(RenderCrLf(lines)) == Parse(RenderLines(lines))
  {
    hide Scan, RenderCrLf, RenderLines;
    CrLfScanAll(lines, []);
    LinesScan(lines, []);
  }

  lemma {:induction false} RenderScan(lines: seq<Line>, rest: string, rows: seq<Line>)
    ensures Scan(RenderLines(lines) + rest, Parser(rows, [], "", false))
         == Scan(rest, Parser(rows + AllAsRead(lines), [], "", false))
    decreases |lines|
  {
    hide JoinEscaped, Scan, AllAsRead, AsRead;
    if |lines| == 0 {
      assert AllAsRead(lines) == [] && rows + AllAsRead(lines) == rows;
      assert RenderLines(lines) + rest == rest;
    } else {
      var first, tail := AsRead(lines[0]), RenderLines(lines[1..]) + rest;
      assert RenderLines(lines) + rest == JoinEscaped(lines[0]) + "\n" + tail;
      FirstLineScan(lines[0], tail, rows);
      RenderScan(lines[1..], rest, rows + [first]);
      AllAsReadCons(lines);
      Regroup(rows, first, AllAsRead(lines[1..]));
    }
  }

  lemma FirstLineScan(fields: Line, rest: string, rows: seq<Line>)
    ensures Scan(JoinEscaped(fields) + "\n" + rest, Parser(rows, [], "", false))
         == Scan(rest, Parser(rows + [AsRead(fields)], [], "", false))
  {
    hide Scan, JoinEscaped;
    LineScan(fields, rest, Parser(rows, [], "", false));
    assert [] + AsRead(fields) == AsRead(fields);
  }

  /** So does text whose last line feed is missing. */
  lemma UnterminatedParsesSame(lines: seq<Line>, last: Line)
    ensures Parse(RenderLines(lines) + JoinEscaped(last)) == Parse(RenderLines(lines + [last]))
  {
    hide Scan, RenderLines, JoinEscaped, AllAsRead, Kept;
    var rows, line := AllAsRead(lines), AsRead(last);
    var n := |line| - 1;
    RenderScan(lines, JoinEscaped(last), []);
    assert [] + rows == rows;
    JoinScan(last, "", Parser(rows, [], "", false));
    assert JoinEscaped(last) + "" == JoinEscaped(last);
    EmptyScan(Parser(rows, line[..n], line[n], false));
    assert [] + line[..n] == line[..n] && line[..n] + [line[n]] == line;
    LinesScan(lines + [last], []);
    assert AllAsRead(lines + [last]) == rows + [line] by {
      AllAsReadLast(lines, last);
    }
    assert [] + (rows + [line]) == rows + [line];
    KeptAppend(rows, [line]);
    BlankDropped(line);
  }

  lemma AllAsReadLast(lines: seq<Line>, last: Line)
    ensures AllAsRead(lines + [last]) == AllAsRead(lines) + [AsRead(last)]
  {
  }

  lemma BlankDropped(line: Line)
    ensures Blank(line) ==> Kept([line]) == []
  {
    assert [line][1..] == [];
  }

  /** What comes back cell by cell: the text, and for NULL or a missing cell the empty string. */
  lemma CellReadBack(t: Table, i: nat, j: nat)
    requires |t.columns| > 0 && i < |t.rows| && j < |t.columns|
    requires !Blank(t.columns) && forall r :: 0 <= r < |t.rows| ==> !Blank(RowTexts(t)[r])
    ensures var read := Parse(Render(t));
      && |read| == 1 + |t.rows| && read[0] == t.columns && |read[i + 1]| == |t.columns|
      && read[i + 1][j] == if j < |t.rows[i]| && t.rows[i][j].Some? then t.rows[i][j].value else ""
  {
    hide Parse, Render;
    var lines := [t.columns] + RowTexts(t);
    forall k | 0 <= k < |lines| ensures !Blank(lines[k]) {
      assert k > 0 ==> lines[k] == RowTexts(t)[k - 1];
    }
    RoundTrip(t);
    assert Parse(Render(t)) == lines;
  }
}
