/** Printing a plan forest as an indented table and parsing the table gives the forest back. */
module OracleRoundTrip {
  import opened Text
  import opened PlanResults
  import opened OraclePlan

  /** An ordered forest: a first tree with its own sub-forest, and the trees after it. */
  datatype Forest = Empty | Tree(op: string, kids: Forest, rest: Forest)

  function Size(f: Forest): nat {
    match f
    case Empty => 0
    case Tree(_, kids, rest) => 1 + Size(kids) + Size(rest)
  }

  /** Preorder, each operation indented by its depth. */
  function Print(f: Forest, depth: nat, indentOf: nat -> nat): (rows: seq<Row>)
    ensures |rows| == Size(f)
  {
    match f
    case Empty => []
    case Tree(op, kids, rest) =>
      [Row(op, indentOf(depth))] + Print(kids, depth + 1, indentOf) + Print(rest, depth, indentOf)
  }

  /** The parent of one node in the forest itself: roots have `parent`, and positions count from `base`. */
  function ParentAt(f: Forest, base: nat, parent: int, i: nat): int
    requires i < Size(f)
  {
    if i == 0 then parent
    else if i <= Size(f.kids) then ParentAt(f.kids, base + 1, base, i - 1)
    else ParentAt(f.rest, base + 1 + Size(f.kids), parent, i - 1 - Size(f.kids))
  }

  /** The parents of all nodes in preorder. */
  function TreeParents(f: Forest, base: nat, parent: int): (parents: seq<int>)
    ensures |parents| == Size(f)
  {
    match f
    case Empty => []
    case Tree(_, kids, rest) =>
      [parent] + TreeParents(kids, base + 1, base) + TreeParents(rest, base + 1 + Size(kids), parent)
  }

  function Operations(f: Forest): (ops: seq<string>)
    ensures |ops| == Size(f)
  {
    match f
    case Empty => []
    case Tree(op, kids, rest) => [op] + Operations(kids) + Operations(rest)
  }

  /** Indentation grows with depth. */
  ghost predicate Growing(indentOf: nat -> nat) {
    forall a: nat, b: nat :: a < b ==> indentOf(a) < indentOf(b)
  }

  /** From position `base` on, the numbers are the indentations of the printed forest. */
  ghost predicate PrintedAt(numbers: seq<nat>, base: nat, f: Forest, depth: nat, indentOf: nat -> nat)
    decreases f
  {
    match f
    case Empty => true
    case Tree(_, kids, rest) =>
      base + Size(f) <= |numbers|
      && numbers[base] == indentOf(depth)
      && PrintedAt(numbers, base + 1, kids, depth + 1, indentOf)
      && PrintedAt(numbers, base + 1 + Size(kids), rest, depth, indentOf)
  }

  /** What stands at a place of a printed forest: the root, a row of its sub-forest, or a row of the other trees. */
  lemma PrintParts(f: Forest, depth: nat, indentOf: nat -> nat)
    requires f.Tree?
    ensures var rows := Print(f, depth, indentOf);
            rows[0].indent == indentOf(depth)
            && rows[1..1 + Size(f.kids)] == Print(f.kids, depth + 1, indentOf)
            && rows[1 + Size(f.kids)..] == Print(f.rest, depth, indentOf)
  {
  }

  /** A printed forest stands at `base`, row by row. */
  ghost predicate StandsAt(numbers: seq<nat>, base: nat, rows: seq<Row>) {
    base + |rows| <= |numbers| && forall i :: 0 <= i < |rows| ==> numbers[base + i] == rows[i].indent
  }

  lemma SliceStandsAt(numbers: seq<nat>, base: nat, rows: seq<Row>, from: nat, to: nat)
    requires from <= to <= |rows| && StandsAt(numbers, base, rows)
    ensures StandsAt(numbers, base + from, rows[from..to])
  {
    forall i | 0 <= i < to - from ensures numbers[base + from + i] == rows[from..to][i].indent {
      assert numbers[base + (from + i)] == rows[from + i].indent;
    }
  }

  lemma {:induction false} PrintedIsPrintedAt(numbers: seq<nat>, base: nat, f: Forest, depth: nat, indentOf: nat -> nat)
    requires StandsAt(numbers, base, Print(f, depth, indentOf))
    ensures PrintedAt(numbers, base, f, depth, indentOf)
    decreases f
  {
    if f.Tree? {
      var (rows, k) := (Print(f, depth, indentOf), 1 + Size(f.kids));
      PrintParts(f, depth, indentOf);
      assert numbers[base + 0] == rows[0].indent;
      SliceStandsAt(numbers, base, rows, 1, k);
      SliceStandsAt(numbers, base, rows, k, |rows|);
      assert rows[k..] == rows[k..|rows|];
      PrintedIsPrintedAt(numbers, base + 1, f.kids, depth + 1, indentOf);
      PrintedIsPrintedAt(numbers, base + k, f.rest, depth, indentOf);
      assert base + k == base + 1 + Size(f.kids);
    }
  }

  /** Nothing in a printed forest is indented less than its roots. */
  lemma {:induction false} PrintedBelow(numbers: seq<nat>, base: nat, f: Forest, depth: nat, indentOf: nat -> nat)
    requires Growing(indentOf) && PrintedAt(numbers, base, f, depth, indentOf) && base + Size(f) <= |numbers|
    ensures forall k :: base <= k < base + Size(f) ==> indentOf(depth) <= numbers[k]
    decreases f
  {
    if f.Tree? {
      PrintedBelow(numbers, base + 1, f.kids, depth + 1, indentOf);
      PrintedBelow(numbers, base + 1 + Size(f.kids), f.rest, depth, indentOf);
    }
  }

  /** Numbers that are not below `x` do not change what is nearest to `x`. */
  lemma NearestBehind(numbers: seq<nat>, from: nat, to: nat, x: nat)
    requires from <= to <= |numbers|
    requires forall k :: from <= k < to ==> x <= numbers[k]
    ensures Nearest(numbers[..to], x) == Nearest(numbers[..from], x)
  {
    var j := Nearest(numbers[..from], x);
    NearestSpec(numbers[..from], x);
    forall k | j < k < to ensures x <= numbers[..to][k] {
      if k < from {
        assert numbers[..from][k] == numbers[k];
      }
    }
    NearestIsUnique(numbers[..to], x, j);
  }

  lemma NearestJustBefore(numbers: seq<nat>, at: nat, x: nat)
    requires at < |numbers| && numbers[at] < x
    ensures Nearest(numbers[..at + 1], x) == at
  {
    NearestIsUnique(numbers[..at + 1], x, at);
  }

  /** The sub-forest of the first tree is printed behind its root, and its roots find that root. */
  lemma KidsStart(numbers: seq<nat>, base: nat, f: Forest, depth: nat, indentOf: nat -> nat)
    requires Growing(indentOf) && f.Tree? && PrintedAt(numbers, base, f, depth, indentOf)
    ensures PrintedAt(numbers, base + 1, f.kids, depth + 1, indentOf)
    ensures base + 1 + Size(f.kids) <= |numbers| && Nearest(numbers[..base + 1], indentOf(depth + 1)) == base
  {
    NearestJustBefore(numbers, base, indentOf(depth + 1));
  }

  /** The other trees are printed behind the first one, and their roots find what its root found. */
  lemma RestStarts(numbers: seq<nat>, base: nat, f: Forest, depth: nat, indentOf: nat -> nat)
    requires Growing(indentOf) && f.Tree? && PrintedAt(numbers, base, f, depth, indentOf)
    ensures var after := base + 1 + Size(f.kids);
            after + Size(f.rest) <= |numbers|
            && PrintedAt(numbers, after, f.rest, depth, indentOf)
            && Nearest(numbers[..after], indentOf(depth)) == Nearest(numbers[..base], indentOf(depth))
  {
    PrintedBelow(numbers, base + 1, f.kids, depth + 1, indentOf);
    NearestBehind(numbers, base, base + 1 + Size(f.kids), indentOf(depth));
  }

  /** Wherever a forest is printed, the nearest smaller indentation before each of its rows belongs to its parent. */
  lemma {:induction false} NearestIsParent(numbers: seq<nat>, base: nat, f: Forest, depth: nat, indentOf: nat -> nat,
                                           parent: int, i: nat)
    requires Growing(indentOf) && i < Size(f) && base + Size(f) <= |numbers|
    requires PrintedAt(numbers, base, f, depth, indentOf)
    requires Nearest(numbers[..base], indentOf(depth)) == parent
    ensures Nearest(numbers[..base + i], numbers[base + i]) == ParentAt(f, base, parent, i)
    decreases f
  {
    if 0 < i <= Size(f.kids) {
      KidsStart(numbers, base, f, depth, indentOf);
      NearestIsParent(numbers, base + 1, f.kids, depth + 1, indentOf, base, i - 1);
      assert base + 1 + (i - 1) == base + i;
    } else if i > 0 {
      RestStarts(numbers, base, f, depth, indentOf);
      var (after, j) := (base + 1 + Size(f.kids), i - 1 - Size(f.kids));
      NearestIsParent(numbers, after, f.rest, depth, indentOf, parent, j);
      assert after + j == base + i;
    }
  }

  lemma {:induction false} TreeParentsAt(f: Forest, base: nat, parent: int, i: nat)
    requires i < Size(f)
    ensures TreeParents(f, base, parent)[i] == ParentAt(f, base, parent, i)
  {
    if 0 < i <= Size(f.kids) {
      TreeParentsAt(f.kids, base + 1, base, i - 1);
    } else if i > 0 {
      TreeParentsAt(f.rest, base + 1 + Size(f.kids), parent, i - 1 - Size(f.kids));
    }
  }

  lemma {:induction false} PrintedOperations(f: Forest, depth: nat, indentOf: nat -> nat)
    ensures forall i :: 0 <= i < Size(f) ==> Print(f, depth, indentOf)[i].op == Operations(f)[i]
  {
    if f.Tree? {
      PrintedOperations(f.kids, depth + 1, indentOf);
      PrintedOperations(f.rest, depth, indentOf);
    }
  }

  /** The table printed from a forest is parsed into exactly its nodes, in preorder, with exactly its parents. */
  lemma PrintedForestIsRecovered(f: Forest, indentOf: nat -> nat, i: nat)
    requires Growing(indentOf) && i < Size(f)
    ensures var parent := TreeParents(f, 0, -1)[i];
            NodesOf(Print(f, 0, indentOf))[i]
            == Node(i + 1, if parent < 0 then None else Some(parent + 1), Operations(f)[i])
  {
    var numbers := Indents(Print(f, 0, indentOf));
    PrintedIsPrintedAt(numbers, 0, f, 0, indentOf);
    NearestIsParent(numbers, 0, f, 0, indentOf, -1, i);
    TreeParentsAt(f, 0, -1, i);
    PrintedOperations(f, 0, indentOf);
  }

  lemma {:induction false} ParentsAtLeast(f: Forest, base: nat, parent: int)
    requires parent < base
    ensures forall i :: 0 <= i < Size(f) ==> TreeParents(f, base, parent)[i] >= parent
    ensures f.Tree? ==> TreeParents(f, base, parent)[0] == parent
  {
    if f.Tree? {
      ParentsAtLeast(f.kids, base + 1, base);
      ParentsAtLeast(f.rest, base + 1 + Size(f.kids), parent);
    }
  }

  /** The first tree ends where the parent of the roots appears again. */
  lemma KidsSpan(f: Forest, base: nat, parent: int)
    requires parent < base && f.Tree?
    ensures forall i :: 1 <= i <= Size(f.kids) ==> TreeParents(f, base, parent)[i] >= base
    ensures Size(f.kids) + 1 < Size(f) ==> TreeParents(f, base, parent)[Size(f.kids) + 1] == parent
  {
    ParentsAtLeast(f.kids, base + 1, base);
    ParentsAtLeast(f.rest, base + 1 + Size(f.kids), parent);
  }

  lemma FirstTreesMatch(f: Forest, g: Forest, base: nat, parent: int)
    requires parent < base && f.Tree? && g.Tree?
    requires TreeParents(f, base, parent) == TreeParents(g, base, parent)
    ensures Size(f) == Size(g) && Size(f.kids) == Size(g.kids)
  {
    assert Size(f) == |TreeParents(f, base, parent)| == |TreeParents(g, base, parent)| == Size(g);
    KidsSpan(f, base, parent);
    KidsSpan(g, base, parent);
  }

  /** The operations and parents of the parts of a forest are slices of those of the whole. */
  lemma Parts(f: Forest, base: nat, parent: int)
    requires f.Tree?
    ensures var k := 1 + Size(f.kids);
            Operations(f)[0] == f.op
            && Operations(f)[1..k] == Operations(f.kids) && Operations(f)[k..] == Operations(f.rest)
            && TreeParents(f, base, parent)[1..k] == TreeParents(f.kids, base + 1, base)
            && TreeParents(f, base, parent)[k..] == TreeParents(f.rest, base + k, parent)
  {
  }

  lemma PartsMatch(f: Forest, g: Forest, base: nat, parent: int)
    requires parent < base && f.Tree? && g.Tree?
    requires Operations(f) == Operations(g) && TreeParents(f, base, parent) == TreeParents(g, base, parent)
    ensures f.op == g.op && Size(f.kids) == Size(g.kids)
    ensures Operations(f.kids) == Operations(g.kids) && Operations(f.rest) == Operations(g.rest)
    ensures TreeParents(f.kids, base + 1, base) == TreeParents(g.kids, base + 1, base)
    ensures TreeParents(f.rest, base + 1 + Size(f.kids), parent) == TreeParents(g.rest, base + 1 + Size(g.kids), parent)
  {
    FirstTreesMatch(f, g, base, parent);
    Parts(f, base, parent);
    Parts(g, base, parent);
  }

  /** The parent relation determines the forest: two forests with the same operations and parents are the same. */
  lemma {:induction false} ParentsDetermineForest(f: Forest, g: Forest, base: nat, parent: int)
    requires parent < base
    requires Operations(f) == Operations(g) && TreeParents(f, base, parent) == TreeParents(g, base, parent)
    ensures f == g
    decreases f
  {
    assert Size(f) == |Operations(f)| == |Operations(g)| == Size(g);
    if f.Tree? {
      PartsMatch(f, g, base, parent);
      ParentsDetermineForest(f.kids, g.kids, base + 1, base);
      ParentsDetermineForest(f.rest, g.rest, base + 1 + Size(f.kids), parent);
    }
  }
}
