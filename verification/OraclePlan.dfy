/** Recovering a plan tree from the indentation of Oracle's DBMS_XPLAN table. */
module OraclePlan {
  import opened Text
  import opened PlanResults

  /** An accepted row of the table: its operation and how far that is indented. */
  datatype Row = Row(op: string, indent: nat)

  /** The last position with a number below `x`, or -1. */
  function Nearest(numbers: seq<nat>, x: nat): (j: int)
    ensures -1 <= j < |numbers|
  {
    if numbers == [] then -1
    else if numbers[|numbers| - 1] < x then |numbers| - 1
    else Nearest(numbers[..|numbers| - 1], x)
  }

  /** Position `j` has a number below `x`, and none of the later ones has; -1 when there is no such position. */
  ghost predicate IsNearest(numbers: seq<nat>, x: nat, j: int) {
    -1 <= j < |numbers|
    && (0 <= j ==> numbers[j] < x)
    && forall k :: j < k < |numbers| ==> x <= numbers[k]
  }

  lemma {:induction false} NearestSpec(numbers: seq<nat>, x: nat)
    ensures IsNearest(numbers, x, Nearest(numbers, x))
  {
    if numbers != [] && x <= numbers[|numbers| - 1] {
      NearestSpec(numbers[..|numbers| - 1], x);
    }
  }

  lemma NearestIsUnique(numbers: seq<nat>, x: nat, j: int)
    requires IsNearest(numbers, x, j)
    ensures Nearest(numbers, x) == j
  {
    NearestSpec(numbers, x);
  }

  function Indents(rows: seq<Row>): seq<nat> {
    seq(|rows|, i requires 0 <= i < |rows| => rows[i].indent)
  }

  /** The parent of a row: the nearest earlier row with strictly smaller indentation. */
  function ParentRow(rows: seq<Row>, i: nat): int
    requires i < |rows|
  {
    Nearest(Indents(rows)[..i], rows[i].indent)
  }

  function NodeOf(rows: seq<Row>, i: nat): Node<string>
    requires i < |rows|
  {
    var parent := ParentRow(rows, i);
    Node(i + 1, if parent < 0 then None else Some(parent + 1), rows[i].op)
  }

  function NodesOf(rows: seq<Row>): seq<Node<string>> {
    seq(|rows|, i requires 0 <= i < |rows| => NodeOf(rows, i))
  }

  /** Below its place on the stack a row has its own parent. */
  ghost predicate Linked(stack: seq<nat>, indents: seq<nat>, p: nat)
    requires p < |stack|
  {
    stack[p] < |indents|
    && Nearest(indents[..stack[p]], indents[stack[p]]) == if p == 0 then -1 else stack[p - 1]
  }

  ghost predicate AllLinked(stack: seq<nat>, indents: seq<nat>) {
    forall p :: 0 <= p < |stack| ==> Linked(stack, indents, p)
  }

  /** The parser's stack after some rows: the last row on top, and under each row its own parent, down to a root. */
  ghost predicate IsParentChain(stack: seq<nat>, indents: seq<nat>) {
    AllLinked(stack, indents) && (indents != [] ==> stack != [] && stack[|stack| - 1] == |indents| - 1)
  }

  /** Popping leaves a chain. */
  lemma PopKeepsLinks(stack: seq<nat>, indents: seq<nat>)
    requires stack != [] && AllLinked(stack, indents)
    ensures AllLinked(stack[..|stack| - 1], indents)
  {
    var popped := stack[..|stack| - 1];
    forall p | 0 <= p < |popped| ensures Linked(popped, indents, p) {
      assert Linked(stack, indents, p);
    }
  }

  lemma PushKeepsLinks(stack: seq<nat>, before: seq<nat>, indent: nat)
    requires AllLinked(stack, before)
    requires Nearest(before, indent) == if stack == [] then -1 else stack[|stack| - 1]
    ensures IsParentChain(stack + [|before|], before + [indent])
  {
    var (after, pushed) := (before + [indent], stack + [|before|]);
    forall p | 0 <= p < |pushed| ensures Linked(pushed, after, p) {
      if p < |stack| {
        assert Linked(stack, before, p);
        assert after[..pushed[p]] == before[..stack[p]];
      } else {
        assert after[..|before|] == before;
      }
    }
  }

  /** Where the search for a parent stands when the stack has been popped down to `stack`. */
  function SearchEnd(stack: seq<nat>): nat {
    if stack == [] then 0 else stack[|stack| - 1] + 1
  }

  /** Leaving out a row that is not below `x`, and the rows it shadows, does not change what is nearest to `x`. */
  lemma NearestSkips(numbers: seq<nat>, x: nat, top: nat)
    requires top < |numbers| && x <= numbers[top]
    ensures var under := Nearest(numbers[..top], numbers[top]);
            Nearest(numbers[..top + 1], x) == Nearest(numbers[..under + 1], x)
  {
    var under := Nearest(numbers[..top], numbers[top]);
    var j := Nearest(numbers[..under + 1], x);
    NearestSpec(numbers[..top], numbers[top]);
    NearestSpec(numbers[..under + 1], x);
    forall k | j < k < top + 1 ensures x <= numbers[k] {
      if k <= under {
        assert numbers[..under + 1][k] == numbers[k];
      } else if k < top {
        assert numbers[..top][k] == numbers[k];
      }
    }
    NearestIsUnique(numbers[..top + 1], x, j);
  }

  lemma IndentsExtend(rows: seq<Row>, row: Row)
    ensures Indents(rows + [row]) == Indents(rows) + [row.indent]
    ensures NodesOf(rows + [row]) == NodesOf(rows) + [NodeOf(rows + [row], |rows|)]
  {
    var all := rows + [row];
    forall i | 0 <= i < |rows| ensures NodeOf(all, i) == NodeOf(rows, i) {
      assert Indents(all)[..i] == Indents(rows)[..i];
    }
  }

  /** Popping a row that is not below `x` takes the search for `x` to the next row on the stack. */
  lemma PopContinuesSearch(stack: seq<nat>, indents: seq<nat>, x: nat)
    requires stack != [] && AllLinked(stack, indents)
    requires Linked(stack, indents, |stack| - 1) && x <= indents[stack[|stack| - 1]]
    ensures SearchEnd(stack[..|stack| - 1]) <= |indents|
    ensures Nearest(indents[..SearchEnd(stack)], x) == Nearest(indents[..SearchEnd(stack[..|stack| - 1])], x)
  {
    NearestSkips(indents, x, stack[|stack| - 1]);
  }

  /** The pop-while loop: what is left on the stack starts with the nearest earlier row below `row`, if there is one. */
  method PopTo(rows: seq<Row>, stack: seq<nat>, row: Row) returns (popped: seq<nat>)
    requires IsParentChain(stack, Indents(rows))
    ensures AllLinked(popped, Indents(rows))
    ensures Nearest(Indents(rows), row.indent) == SearchEnd(popped) - 1
  {
    ghost var before := Indents(rows);
    popped := stack;
    if stack != [] {
      assert Linked(stack, before, |stack| - 1);
    }
    assert before[..SearchEnd(stack)] == before;
    while popped != [] && rows[popped[|popped| - 1]].indent >= row.indent
      invariant AllLinked(popped, before) && SearchEnd(popped) <= |before|
      invariant Nearest(before, row.indent) == Nearest(before[..SearchEnd(popped)], row.indent)
    {
      assert Linked(popped, before, |popped| - 1);
      PopContinuesSearch(popped, before, row.indent);
      PopKeepsLinks(popped, before);
      popped := popped[..|popped| - 1];
    }
    if popped == [] {
      assert Nearest(before[..0], row.indent) == -1;
    }
  }

  /** The fields of a text between separators; there is always one more field than separators. */
  function Split(text: string, separator: char): (parts: seq<string>)
    ensures parts != []
  {
    if text == "" then [""]
    else
      var rest := Split(text[1..], separator);
      if text[0] == separator then [""] + rest else [[text[0]] + rest[0]] + rest[1..]
  }

  function TrimPrefix(text: string, c: char): string {
    if text != "" && text[0] == c then text[1..] else text
  }

  function TrimSuffix(text: string, c: char): string {
    if text != "" && text[|text| - 1] == c then text[..|text| - 1] else text
  }

  /** The cells of a table row, with their leading spaces. */
  function SplitOracleTableRow(line: string): seq<string> {
    var text := TrimSuffix(TrimPrefix(TrimSpace(line), '|'), '|');
    if text == "" then [] else Split(text, '|')
  }

  function SafeOracleColumn(cols: seq<string>, idx: int): string {
    if 0 <= idx < |cols| then cols[idx] else ""
  }

  function CountLeadingSpaces(s: string): nat {
    if s != "" && s[0] == ' ' then 1 + CountLeadingSpaces(s[1..]) else 0
  }

  predicate IsMark(c: char) {
    c == '*' || c == ' '
  }

  /** The number in the Id column, behind an optional predicate mark, or -1. */
  function ParseOracleIDNumber(s: string): int {
    match Atoi(TrimStart(TrimSpace(s), IsMark))
    case Some(n) => n
    case None => -1
  }

  /** A table row is accepted when its Id column holds a number that is not negative. */
  function AcceptCells(cols: seq<string>, colID: int, colOp: int): Option<Row> {
    var (idCell, opCell) := (SafeOracleColumn(cols, colID), SafeOracleColumn(cols, colOp));
    if cols == [] || ParseOracleIDNumber(TrimSpace(idCell)) < 0 then None
    else Some(Row(TrimSpace(opCell), CountLeadingSpaces(opCell)))
  }

  type Acceptor = string -> Option<Row>

  function AcceptRow(line: string, colID: int, colOp: int): Option<Row> {
    AcceptCells(SplitOracleTableRow(line), colID, colOp)
  }

  /** `accept` reads the Id column at `colID` and the Operation column at `colOp`. */
  ghost predicate AcceptsAs(accept: Acceptor, colID: int, colOp: int) {
    forall line: string :: accept(line) == AcceptRow(line, colID, colOp)
  }

  function AcceptedRows(lines: seq<string>, accept: Acceptor): seq<Row> {
    if lines == [] then []
    else
      var rest := AcceptedRows(lines[..|lines| - 1], accept);
      match accept(lines[|lines| - 1])
      case None => rest
      case Some(row) => rest + [row]
  }

  /**
   The table parser: each accepted row becomes a node under the nearest earlier accepted row with smaller
   indentation.
   */
  method ParseOracleRows(lines: seq<string>, accept: Acceptor) returns (result: PlanResult<string>)
    ensures fresh(result) && result.Valid()
    ensures result.nodes == NodesOf(AcceptedRows(lines, accept))
  {
    result := new PlanResult();
    var stack: seq<nat> := [];
    var rows: seq<Row> := [];
    for i := 0 to |lines|
      invariant rows == AcceptedRows(lines[..i], accept)
      invariant fresh(result) && result.Valid() && result.nodes == NodesOf(rows)
      invariant IsParentChain(stack, Indents(rows))
    {
      var accepted := accept(lines[i]);
      assert lines[..i + 1][..i] == lines[..i];
      if accepted.None? {
        continue;
      }
      stack := AppendRow(result, rows, stack, accepted.value);
      rows := rows + [accepted.value];
    }
    assert lines[..|lines|] == lines;
  }

  /** One turn of the loop: pop, append under what is left on top, push. */
  method AppendRow(result: PlanResult<string>, rows: seq<Row>, stack: seq<nat>, row: Row) returns (stack': seq<nat>)
    requires result.Valid() && result.nodes == NodesOf(rows) && IsParentChain(stack, Indents(rows))
    modifies result
    ensures result.Valid() && result.nodes == NodesOf(rows + [row])
    ensures IsParentChain(stack', Indents(rows + [row]))
  {
    var popped := PopTo(rows, stack, row);
    PushRow(rows, popped, row);
    var parent := if popped == [] then None else Some(popped[|popped| - 1] + 1);
    var id := result.AppendChild(parent, row.op);
    stack' := popped + [|rows|];
  }

  /** The node of one more row, and the stack with that row on top. */
  lemma PushRow(rows: seq<Row>, stack: seq<nat>, row: Row)
    requires AllLinked(stack, Indents(rows)) && Nearest(Indents(rows), row.indent) == SearchEnd(stack) - 1
    ensures IsParentChain(stack + [|rows|], Indents(rows + [row]))
    ensures NodesOf(rows + [row])
         == NodesOf(rows)
            + [Node(|rows| + 1, if stack == [] then None else Some(stack[|stack| - 1] + 1), row.op)]
  {
    IndentsExtend(rows, row);
    PushKeepsLinks(stack, Indents(rows), row.indent);
    assert Indents(rows + [row])[..|rows|] == Indents(rows);
  }
}
