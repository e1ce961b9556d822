/** The text of the plan table: a printed row is read back exactly, and so is a whole printed forest. */
module OracleTable {
  import opened Text
  import opened PlanResults
  import opened OraclePlan
  import opened OracleRoundTrip

  ghost predicate All(s: string, test: char -> bool) {
    forall i :: 0 <= i < |s| ==> test(s[i])
  }

  // What a printed table looks like, whatever its widths, padding, marks and further columns.

  /** The id, with blanks and predicate marks in front and blanks behind. */
  ghost predicate ShowsId(cell: string, front: string, id: nat, back: string) {
    cell == front + Decimal(id) + back && All(front, IsMark) && All(back, IsSpace)
  }

  predicate IsSpace(c: char) {
    c == ' '
  }

  /** An operation: some text without bars, with nothing to trim. */
  predicate IsOperation(op: string) {
    op != "" && IsTrimmed(op, GoSpace) && '|' !in op
  }

  function Spaces(n: nat): string {
    if n == 0 then "" else " " + Spaces(n - 1)
  }

  /** The operation behind its indentation, with blanks behind. */
  ghost predicate ShowsOperation(cell: string, row: Row, back: string) {
    cell == Spaces(row.indent) + row.op + back && IsOperation(row.op) && All(back, GoSpace)
  }

  ghost predicate AreCells(cells: seq<string>) {
    forall i :: 0 <= i < |cells| ==> '|' !in cells[i]
  }

  /** The cells of a table row: anything, but for the id and the operation in their columns. */
  ghost predicate ShowsRow(cells: seq<string>, row: Row, colID: nat, colOp: nat) {
    colID < |cells| && colOp < |cells| && AreCells(cells)
    && (exists front, id, back :: ShowsId(cells[colID], front, id, back))
    && (exists back :: ShowsOperation(cells[colOp], row, back))
  }

  /** Cells between bars. */
  function Join(cells: seq<string>): string
    requires cells != []
  {
    if |cells| == 1 then cells[0] else cells[0] + ['|'] + Join(cells[1..])
  }

  function Bars(inner: string): string {
    ['|'] + (inner + ['|'])
  }

  /** The line of a table row, possibly with blanks around it. */
  ghost predicate IsLineOf(line: string, before: string, cells: seq<string>, after: string) {
    cells != [] && All(before, GoSpace) && All(after, GoSpace) && line == before + Bars(Join(cells)) + after
  }

  ghost predicate PrintsRow(line: string, row: Row, colID: nat, colOp: nat) {
    exists before, cells, after :: IsLineOf(line, before, cells, after) && ShowsRow(cells, row, colID, colOp)
  }

  ghost predicate PrintsTable(lines: seq<string>, rows: seq<Row>, colID: nat, colOp: nat) {
    |lines| == |rows| && forall i :: 0 <= i < |rows| ==> PrintsRow(lines[i], rows[i], colID, colOp)
  }

  // Reading it back.

  lemma {:induction false} TrimStartOfFront(front: string, s: string, test: char -> bool)
    requires s != "" && !test(s[0])
    ensures TrimStart(front + s, test) == TrimStart(front, test) + s
  {
    if front == "" {
      assert front + s == s;
    } else {
      assert (front + s)[1..] == front[1..] + s;
      TrimStartOfFront(front[1..], s, test);
    }
  }

  lemma {:induction false} TrimStartOfAll(s: string, test: char -> bool)
    requires All(s, test)
    ensures TrimStart(s, test) == ""
  {
    if s != "" {
      TrimStartOfAll(s[1..], test);
    }
  }

  lemma {:induction false} TrimEndSkips(s: string, back: string, test: char -> bool)
    requires s != "" && !test(s[|s| - 1]) && All(back, test)
    ensures TrimEnd(s + back, test) == s
  {
    if back == "" {
      assert s + back == s;
    } else {
      var n := |back| - 1;
      assert (s + back)[..|s| + n] == s + back[..n];
      TrimEndSkips(s, back[..n], test);
    }
  }

  lemma TrimStartKeepsAll(s: string, space: char -> bool, test: char -> bool)
    requires All(s, test)
    ensures All(TrimStart(s, space), test)
  {
    TrimStartSpec(s, space);
  }

  /** Trimming takes off what is around the text, and keeps what is in front of it from the first other character on. */
  lemma TrimPadded(front: string, s: string, back: string)
    requires s != "" && IsTrimmed(s, GoSpace) && All(back, GoSpace)
    ensures TrimSpace(front + s + back) == TrimStart(front, GoSpace) + s
  {
    assert front + s + back == front + (s + back);
    TrimStartOfFront(front, s + back, GoSpace);
    var kept := TrimStart(front, GoSpace) + s;
    assert TrimStart(front, GoSpace) + (s + back) == kept + back;
    TrimEndSkips(kept, back, GoSpace);
  }

  lemma DigitsAreText(n: nat)
    ensures var d := Decimal(n); d != "" && IsTrimmed(d, GoSpace) && !IsMark(d[0])
  {
    var d := Decimal(n);
    assert IsDigit(d[0]) && IsDigit(d[|d| - 1]);
  }

  /** The id is read back behind its padding and its predicate mark. */
  lemma IdIsParsed(cell: string, front: string, id: nat, back: string)
    requires ShowsId(cell, front, id, back)
    ensures ParseOracleIDNumber(TrimSpace(cell)) == id
  {
    var (d, kept) := (Decimal(id), TrimStart(front, GoSpace));
    DigitsAreText(id);
    TrimPadded(front, d, back);
    TrimTwice(cell, GoSpace);
    TrimStartKeepsAll(front, GoSpace, IsMark);
    TrimStartOfFront(kept, d, IsMark);
    TrimStartOfAll(kept, IsMark);
    AtoiDecimal(id);
    assert "" + d == d;
  }

  lemma {:induction false} SpacesAreCounted(n: nat, s: string)
    requires s != "" && s[0] != ' '
    ensures CountLeadingSpaces(Spaces(n) + s) == n
    ensures All(Spaces(n), IsSpace)
  {
    if n == 0 {
      assert Spaces(n) + s == s;
    } else {
      assert (Spaces(n) + s)[1..] == Spaces(n - 1) + s;
      SpacesAreCounted(n - 1, s);
    }
  }

  /** The operation and its indentation are read back behind and before its padding. */
  lemma OperationIsParsed(cell: string, row: Row, back: string)
    requires ShowsOperation(cell, row, back)
    ensures TrimSpace(cell) == row.op && CountLeadingSpaces(cell) == row.indent
  {
    var blank := Spaces(row.indent);
    SpacesAreCounted(row.indent, row.op + back);
    assert cell == blank + (row.op + back);
    TrimPadded(blank, row.op, back);
    TrimStartOfAll(blank, GoSpace);
    assert "" + row.op == row.op;
  }

  lemma {:induction false} SplitField(field: string, rest: string, separator: char)
    requires separator !in field
    ensures Split(field + [separator] + rest, separator) == [field] + Split(rest, separator)
  {
    var text := field + [separator] + rest;
    if field == "" {
      assert text[1..] == rest;
    } else {
      assert text[1..] == field[1..] + [separator] + rest;
      SplitField(field[1..], rest, separator);
      assert field == [field[0]] + field[1..];
    }
  }

  lemma {:induction false} SplitLastField(field: string, separator: char)
    requires separator !in field
    ensures Split(field, separator) == [field]
  {
    if field != "" {
      SplitLastField(field[1..], separator);
      assert field == [field[0]] + field[1..];
    }
  }

  /** Splitting at the bars gives the cells back. */
  lemma {:induction false} SplitJoin(cells: seq<string>)
    requires cells != [] && AreCells(cells)
    ensures Split(Join(cells), '|') == cells
  {
    if |cells| == 1 {
      SplitLastField(cells[0], '|');
    } else {
      SplitField(cells[0], Join(cells[1..]), '|');
      SplitJoin(cells[1..]);
    }
  }

  lemma DropFirst(inner: string, c: char)
    ensures TrimPrefix([c] + inner, c) == inner
  {
  }

  lemma DropLast(inner: string, c: char)
    ensures TrimSuffix(inner + [c], c) == inner
  {
  }

  lemma BarsAreTrimmed(before: string, inner: string, after: string)
    requires All(before, GoSpace) && All(after, GoSpace)
    ensures TrimSpace(before + Bars(inner) + after) == Bars(inner)
  {
    TrimPadded(before, Bars(inner), after);
    TrimStartOfAll(before, GoSpace);
    assert "" + Bars(inner) == Bars(inner);
  }

  /** The blanks around the line and its outer bars are taken off, and nothing else is. */
  lemma LineGivesCells(line: string, before: string, cells: seq<string>, after: string)
    requires IsLineOf(line, before, cells, after) && AreCells(cells) && Join(cells) != ""
    ensures SplitOracleTableRow(line) == cells
  {
    var inner := Join(cells);
    BarsAreTrimmed(before, inner, after);
    DropFirst(inner + ['|'], '|');
    DropLast(inner, '|');
    SplitJoin(cells);
  }

  function Bar(there: bool): string {
    if there then "|" else ""
  }

  lemma BarredIsTrimmed(inner: string, first: bool, last: bool)
    requires inner != "" && IsTrimmed(inner, GoSpace)
    ensures var line := Bar(first) + (inner + Bar(last)); TrimSpace(line) == line
  {
    var line := Bar(first) + (inner + Bar(last));
    assert line[0] == '|' || line[0] == inner[0];
    assert line[|line| - 1] == '|' || line[|line| - 1] == inner[|inner| - 1];
    TrimSpec(line, GoSpace);
  }

  lemma BarsComeOff(inner: string, first: bool, last: bool)
    requires inner != "" && inner[0] != '|' && inner[|inner| - 1] != '|'
    ensures TrimSuffix(TrimPrefix(Bar(first) + (inner + Bar(last)), '|'), '|') == inner
  {
    var behind := inner + Bar(last);
    assert TrimPrefix(Bar(first) + behind, '|') == behind;
  }

  /** The outer bars may be missing: the cells are the same, if the first and the last begin and end with text. */
  lemma BarsAreOptional(cells: seq<string>, first: bool, last: bool)
    requires cells != [] && AreCells(cells) && Join(cells) != "" && IsTrimmed(Join(cells), GoSpace)
    requires Join(cells)[0] != '|' && Join(cells)[|Join(cells)| - 1] != '|'
    ensures SplitOracleTableRow(Bar(first) + (Join(cells) + Bar(last))) == cells
  {
    BarredIsTrimmed(Join(cells), first, last);
    BarsComeOff(Join(cells), first, last);
    SplitJoin(cells);
  }

  lemma {:induction false} JoinIsLong(cells: seq<string>, i: nat)
    requires i < |cells|
    ensures |Join(cells)| >= |cells[i]|
  {
    if |cells| > 1 && i > 0 {
      JoinIsLong(cells[1..], i - 1);
    }
  }

  lemma CellsAreAccepted(cells: seq<string>, row: Row, colID: nat, colOp: nat)
    requires ShowsRow(cells, row, colID, colOp)
    ensures AcceptCells(cells, colID, colOp) == Some(row) && cells[colID] != ""
  {
    var front, id, back :| ShowsId(cells[colID], front, id, back);
    IdIsParsed(cells[colID], front, id, back);
    var behind :| ShowsOperation(cells[colOp], row, behind);
    OperationIsParsed(cells[colOp], row, behind);
  }

  /** A printed row is accepted and read back exactly. */
  lemma PrintedRowIsAccepted(line: string, row: Row, colID: nat, colOp: nat)
    requires PrintsRow(line, row, colID, colOp)
    ensures AcceptRow(line, colID, colOp) == Some(row)
  {
    var before, cells, after :| IsLineOf(line, before, cells, after) && ShowsRow(cells, row, colID, colOp);
    CellsAreAccepted(cells, row, colID, colOp);
    JoinIsLong(cells, colID);
    LineGivesCells(line, before, cells, after);
  }

  // Which rows are refused.

  /** The cell shows a number that is not negative, perhaps behind marks and with a sign, and nothing else. */
  ghost predicate ShowsNumber(cell: string, marks: string, sign: string, digits: string) {
    TrimSpace(cell) == marks + (sign + digits) && All(marks, IsMark)
    && (sign == "" || sign == "+" || sign == "-") && digits != "" && AllDigits(digits)
    && (sign == "-" ==> DigitsValue(digits) == 0)
  }

  lemma {:induction false} FrontIsTrimmed(s: string, test: char -> bool)
    ensures |TrimStart(s, test)| <= |s|
    ensures s == s[..|s| - |TrimStart(s, test)|] + TrimStart(s, test)
    ensures All(s[..|s| - |TrimStart(s, test)|], test)
  {
    if s != "" && test(s[0]) {
      FrontIsTrimmed(s[1..], test);
      var n := |s| - |TrimStart(s, test)|;
      assert forall i :: 1 <= i < n ==> s[..n][i] == s[1..][..n - 1][i - 1];
    }
  }

  function SignedValue(sign: string, digits: string): int
    requires AllDigits(digits)
  {
    var value: int := DigitsValue(digits);
    if sign == "-" then -value else value
  }

  lemma UnsignedNumber(digits: string)
    requires digits != "" && AllDigits(digits)
    ensures Atoi(digits) == Some(DigitsValue(digits))
  {
    assert IsDigit(digits[0]);
  }

  lemma NumberBehindSign(sign: char, digits: string)
    requires (sign == '+' || sign == '-') && digits != "" && AllDigits(digits)
    ensures Atoi([sign] + digits) == Some(SignedValue([sign], digits))
  {
    var s := [sign] + digits;
    assert s[0] == sign && s[1..] == digits;
  }

  lemma SignedNumber(sign: string, digits: string)
    requires (sign == "" || sign == "+" || sign == "-") && digits != "" && AllDigits(digits)
    ensures Atoi(sign + digits) == Some(SignedValue(sign, digits))
  {
    if sign == "" {
      assert sign + digits == digits;
      UnsignedNumber(digits);
    } else {
      assert sign == [sign[0]];
      NumberBehindSign(sign[0], digits);
    }
  }

  lemma NumberIsSigned(s: string) returns (sign: string, digits: string)
    requires Atoi(s).Some?
    ensures s == sign + digits && (sign == "" || sign == "+" || sign == "-") && digits != "" && AllDigits(digits)
  {
    if s[0] in "+-" {
      sign, digits := s[..1], s[1..];
    } else {
      sign, digits := "", s;
    }
  }

  lemma NumberIsShown(cell: string) returns (marks: string, sign: string, digits: string)
    requires ParseOracleIDNumber(TrimSpace(cell)) >= 0
    ensures ShowsNumber(cell, marks, sign, digits)
  {
    var text := TrimSpace(cell);
    TrimTwice(cell, GoSpace);
    var rest := TrimStart(text, IsMark);
    FrontIsTrimmed(text, IsMark);
    marks := text[..|text| - |rest|];
    sign, digits := NumberIsSigned(rest);
    SignedNumber(sign, digits);
  }

  lemma ShownIsNumber(cell: string, marks: string, sign: string, digits: string)
    requires ShowsNumber(cell, marks, sign, digits)
    ensures ParseOracleIDNumber(TrimSpace(cell)) >= 0
  {
    TrimTwice(cell, GoSpace);
    assert IsDigit(digits[0]);
    assert !IsMark((sign + digits)[0]);
    TrimStartOfFront(marks, sign + digits, IsMark);
    TrimStartOfAll(marks, IsMark);
    assert "" + (sign + digits) == sign + digits;
    SignedNumber(sign, digits);
  }

  /**
   A row is taken exactly when its id cell shows a number, and then it is the trimmed operation with its indentation.
   */
  lemma AcceptedExactly(line: string, colID: nat, colOp: nat)
    ensures var cells := SplitOracleTableRow(line);
            && (AcceptRow(line, colID, colOp).Some?
                <==> colID < |cells| && exists marks, sign, digits :: ShowsNumber(cells[colID], marks, sign, digits))
            && (AcceptRow(line, colID, colOp).Some? && colOp < |cells| ==>
                  AcceptRow(line, colID, colOp).value == Row(TrimSpace(cells[colOp]), CountLeadingSpaces(cells[colOp])))
  {
    var cells := SplitOracleTableRow(line);
    var cell := SafeOracleColumn(cells, colID);
    if ParseOracleIDNumber(TrimSpace(cell)) >= 0 {
      var marks, sign, digits := NumberIsShown(cell);
      if colID >= |cells| {
        NothingShown(cell, marks, sign, digits);
      }
    }
    if marks, sign, digits :| ShowsNumber(cell, marks, sign, digits) {
      ShownIsNumber(cell, marks, sign, digits);
    }
  }

  lemma NothingShown(cell: string, marks: string, sign: string, digits: string)
    requires ShowsNumber(cell, marks, sign, digits)
    ensures cell != ""
  {
    assert |marks + (sign + digits)| > 0;
  }

  lemma {:induction false} AcceptedAll(lines: seq<string>, accept: Acceptor, rows: seq<Row>)
    requires |lines| == |rows| && forall i :: 0 <= i < |rows| ==> accept(lines[i]) == Some(rows[i])
    ensures AcceptedRows(lines, accept) == rows
  {
    if lines != [] {
      AcceptedAll(lines[..|lines| - 1], accept, rows[..|rows| - 1]);
      assert rows == rows[..|rows| - 1] + [rows[|rows| - 1]];
    }
  }

  /**
   The round trip through text: the parser accepts every line of a printed table and reads back exactly the
   printed rows, wherever the two columns are.
   */
  lemma PrintedTableIsRead(lines: seq<string>, rows: seq<Row>, colID: nat, colOp: nat, accept: Acceptor)
    requires PrintsTable(lines, rows, colID, colOp) && AcceptsAs(accept, colID, colOp)
    ensures AcceptedRows(lines, accept) == rows
  {
    forall i | 0 <= i < |rows| ensures accept(lines[i]) == Some(rows[i]) {
      PrintedRowIsAccepted(lines[i], rows[i], colID, colOp);
    }
    AcceptedAll(lines, accept, rows);
  }

  /** From the forest to text, from the text to nodes: the nodes are those of the forest, with its parents. */
  lemma PrintedTableGivesForest(
      lines: seq<string>, f: Forest, indentOf: nat -> nat, colID: nat, colOp: nat, accept: Acceptor, i: nat)
    requires Growing(indentOf) && PrintsTable(lines, Print(f, 0, indentOf), colID, colOp)
    requires AcceptsAs(accept, colID, colOp) && i < Size(f)
    ensures var nodes := NodesOf(AcceptedRows(lines, accept));
            var parent := TreeParents(f, 0, -1)[i];
            |nodes| == Size(f)
            && nodes[i] == Node(i + 1, if parent < 0 then None else Some(parent + 1), Operations(f)[i])
  {
    PrintedTableIsRead(lines, Print(f, 0, indentOf), colID, colOp, accept);
    PrintedForestIsRecovered(f, indentOf, i);
  }

  // Every forest of operations has such tables: the layout of DBMS_XPLAN is one.

  /** A line with the id right-aligned behind its mark and the operation padded on the right. */
  function XplanLine(id: nat, marked: bool, row: Row, idPadding: nat, opPadding: nat, others: seq<string>): string {
    Bars(Join([(if marked then "*" else " ") + Spaces(idPadding) + Decimal(id) + " ",
               Spaces(row.indent) + row.op + Spaces(opPadding)] + others))
  }

  lemma {:induction false} SpacesAreBlank(n: nat)
    ensures All(Spaces(n), IsSpace)
  {
    if n > 0 {
      SpacesAreBlank(n - 1);
    }
  }

  lemma XplanIdShows(id: nat, marked: bool, padding: nat)
    ensures var front := (if marked then "*" else " ") + Spaces(padding);
            ShowsId(front + Decimal(id) + " ", front, id, " ") && '|' !in front + Decimal(id) + " "
  {
    SpacesAreBlank(padding);
    forall i | 0 <= i < |Decimal(id)| ensures Decimal(id)[i] != '|' {
      assert IsDigit(Decimal(id)[i]);
    }
  }

  lemma XplanOperationShows(row: Row, padding: nat)
    requires IsOperation(row.op)
    ensures var cell := Spaces(row.indent) + row.op + Spaces(padding);
            ShowsOperation(cell, row, Spaces(padding)) && '|' !in cell
  {
    SpacesAreBlank(row.indent);
    SpacesAreBlank(padding);
  }

  lemma XplanLinePrintsRow(id: nat, marked: bool, row: Row, idPadding: nat, opPadding: nat, others: seq<string>)
    requires IsOperation(row.op) && AreCells(others)
    ensures PrintsRow(XplanLine(id, marked, row, idPadding, opPadding, others), row, 0, 1)
  {
    var front := (if marked then "*" else " ") + Spaces(idPadding);
    var cells := [front + Decimal(id) + " ", Spaces(row.indent) + row.op + Spaces(opPadding)] + others;
    XplanIdShows(id, marked, idPadding);
    XplanOperationShows(row, opPadding);
    assert ShowsId(cells[0], front, id, " ") && ShowsOperation(cells[1], row, Spaces(opPadding));
    assert ShowsRow(cells, row, 0, 1);
    var line := Bars(Join(cells));
    assert "" + line + "" == line;
    assert IsLineOf(line, "", cells, "");
  }
}
