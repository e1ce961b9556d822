/** Flattening a nested query plan into a list of nodes, leaving out steps that carry no information. */
module PlanFlattening {
  import opened Text
  import opened PlanResults

  /** A step of a plan with its inputs; a step whose JSON does not have the expected form is malformed. */
  datatype Plan<F> = Malformed(reason: string) | Step(fields: F, inputs: seq<Plan<F>>)

  /** The way from the root of a plan to one of its steps: which input to take at each step. */
  type Path = seq<nat>

  /** One emitted node: the step it stands for, and the id of its parent node. */
  datatype Visit<F> = Visit(path: Path, parent: Option<nat>, fields: F)

  /** Which steps become nodes, given their fields, whether they have no inputs, and whether they are the root. */
  type Keep<!F> = (F, bool, bool) -> bool

  predicate Keeps<F>(keep: Keep<F>, plan: Plan<F>, at: Path) {
    plan.Step? && keep(plan.fields, plan.inputs == [], at == [])
  }

  function WithStep<F>(
      before: seq<Visit<F>>, plan: Plan<F>, at: Path, parent: Option<nat>, keep: Keep<F>): seq<Visit<F>>
    requires plan.Step?
  {
    if Keeps(keep, plan, at) then before + [Visit(at, parent, plan.fields)] else before
  }

  function ParentBelow<F>(
      before: seq<Visit<F>>, plan: Plan<F>, at: Path, parent: Option<nat>, keep: Keep<F>): Option<nat> {
    if Keeps(keep, plan, at) then Some(|before| + 1) else parent
  }

  /** What has been emitted once the step at `at` and everything below it is done. */
  function Flatten<F>(before: seq<Visit<F>>, plan: Plan<F>, at: Path, parent: Option<nat>, keep: Keep<F>): seq<Visit<F>>
    decreases plan, if plan.Step? then |plan.inputs| + 1 else 0
  {
    if plan.Malformed? then before
    else
      FlattenFirst(WithStep(before, plan, at, parent, keep), plan, |plan.inputs|, at,
                   ParentBelow(before, plan, at, parent, keep), keep)
  }

  /** What has been emitted after the first `count` inputs of a step. */
  function FlattenFirst<F>(
      before: seq<Visit<F>>, plan: Plan<F>, count: nat, at: Path, parent: Option<nat>, keep: Keep<F>)
    : seq<Visit<F>>
    requires plan.Step? && count <= |plan.inputs|
    decreases plan, count
  {
    if count == 0 then before
    else
      Flatten(FlattenFirst(before, plan, count - 1, at, parent, keep),
              plan.inputs[count - 1], at + [count - 1], parent, keep)
  }

  // Where the steps are, said without the traversal.

  /** The step at the end of a path, if there is one. */
  function At<F>(plan: Plan<F>, path: Path): (found: Option<Plan<F>>)
    ensures found.Some? ==> found.value.Step?
  {
    if plan.Malformed? then None
    else if path == [] then Some(plan)
    else if path[0] < |plan.inputs| then At(plan.inputs[path[0]], path[1..])
    else None
  }

  predicate IsKept<F>(top: Plan<F>, path: Path, keep: Keep<F>) {
    At(top, path).Some? && Keeps(keep, At(top, path).value, path)
  }

  /** The nearest kept step above the end of a path. */
  function NearestKept<F>(top: Plan<F>, path: Path, keep: Keep<F>): Option<Path> {
    if path == [] then None
    else
      var above := path[..|path| - 1];
      if IsKept(top, above, keep) then Some(above) else NearestKept(top, above, keep)
  }

  /** Preorder: a step comes before the steps below it, and these before the steps below later inputs. */
  predicate Before(p: Path, q: Path) {
    q != [] && (p == [] || p[0] < q[0] || (p[0] == q[0] && Before(p[1..], q[1..])))
  }

  /** A parent id that stands for the step at the end of `up`. */
  ghost predicate StandsFor<F>(visits: seq<Visit<F>>, parent: Option<nat>, up: Option<Path>) {
    match up
    case None => parent.None?
    case Some(path) => parent.Some? && 1 <= parent.value <= |visits| && visits[parent.value - 1].path == path
  }

  /** A node stands for a kept step, carries its fields, and has the nearest kept step above as its parent. */
  ghost predicate IsFaithful<F>(visits: seq<Visit<F>>, i: nat, top: Plan<F>, keep: Keep<F>)
    requires i < |visits|
  {
    var v := visits[i];
    IsKept(top, v.path, keep)
    && v.fields == At(top, v.path).value.fields
    && StandsFor(visits[..i], v.parent, NearestKept(top, v.path, keep))
  }

  ghost predicate AllFaithful<F>(visits: seq<Visit<F>>, top: Plan<F>, keep: Keep<F>) {
    forall i :: 0 <= i < |visits| ==> IsFaithful(visits, i, top, keep)
  }

  ghost predicate AllBefore<F>(visits: seq<Visit<F>>, q: Path) {
    forall i :: 0 <= i < |visits| ==> Before(visits[i].path, q)
  }

  ghost predicate InPreorder<F>(visits: seq<Visit<F>>) {
    forall i, j :: 0 <= i < j < |visits| ==> Before(visits[i].path, visits[j].path)
  }

  ghost predicate Emitted<F>(visits: seq<Visit<F>>, path: Path) {
    exists i :: 0 <= i < |visits| && visits[i].path == path
  }

  /** Every kept step at or below `at` has been emitted. */
  ghost predicate DoneBelow<F>(visits: seq<Visit<F>>, top: Plan<F>, at: Path, keep: Keep<F>) {
    forall path :: at <= path && IsKept(top, path, keep) ==> Emitted(visits, path)
  }

  // Paths.

  lemma {:induction false} AtInput<F>(top: Plan<F>, at: Path, k: nat)
    ensures At(top, at + [k])
         == match At(top, at)
            case None => None
            case Some(plan) => if k < |plan.inputs| then At(plan.inputs[k], []) else None
  {
    if top.Step? && at != [] && at[0] < |top.inputs| {
      assert (at + [k])[1..] == at[1..] + [k];
      AtInput(top.inputs[at[0]], at[1..], k);
    } else if at == [] {
      assert at + [k] == [k] && [k][1..] == [];
    }
  }

  /** A path below a step leads through one of its inputs. */
  lemma {:induction false} AtPrefix<F>(top: Plan<F>, at: Path, path: Path)
    requires at <= path && At(top, path).Some?
    ensures At(top, at).Some?
  {
    if at != [] {
      AtPrefix(top.inputs[at[0]], at[1..], path[1..]);
    }
  }

  lemma {:induction false} BeforeExtends(p: Path, q: Path, k: nat)
    requires Before(p, q) || p == q
    ensures Before(p, q + [k])
  {
    if p != [] && p[0] == q[0] {
      assert (q + [k])[1..] == q[1..] + [k];
      BeforeExtends(p[1..], q[1..], k);
    }
  }

  lemma {:induction false} BeforeNextInput(p: Path, at: Path, j: nat, k: nat)
    requires at + [j] <= p && j < k
    ensures Before(p, at + [k])
  {
    assert p[|at|] == (at + [j])[|at|] == j;
    if at != [] {
      assert (at + [k])[1..] == at[1..] + [k] && (at + [j])[1..] == at[1..] + [j];
      assert p[0] == (at + [j])[0];
      BeforeNextInput(p[1..], at[1..], j, k);
    }
  }

  // The traversal.

  lemma {:induction false} FlattenOnlyBelow<F>(
      before: seq<Visit<F>>, plan: Plan<F>, at: Path, parent: Option<nat>, keep: Keep<F>)
    ensures var after := Flatten(before, plan, at, parent, keep);
            before <= after && forall i :: |before| <= i < |after| ==> at <= after[i].path
    decreases plan, if plan.Step? then |plan.inputs| + 1 else 0
  {
    if plan.Step? {
      FlattenFirstOnlyBelow(WithStep(before, plan, at, parent, keep), plan, |plan.inputs|, at,
                            ParentBelow(before, plan, at, parent, keep), keep);
    }
  }

  lemma {:induction false} FlattenFirstOnlyBelow<F>(
      before: seq<Visit<F>>, plan: Plan<F>, count: nat, at: Path, parent: Option<nat>, keep: Keep<F>)
    requires plan.Step? && count <= |plan.inputs|
    ensures var after := FlattenFirst(before, plan, count, at, parent, keep);
            before <= after && forall i :: |before| <= i < |after| ==> at <= after[i].path
    decreases plan, count
  {
    if count > 0 {
      FlattenFirstOnlyBelow(before, plan, count - 1, at, parent, keep);
      var middle := FlattenFirst(before, plan, count - 1, at, parent, keep);
      FlattenOnlyBelow(middle, plan.inputs[count - 1], at + [count - 1], parent, keep);
      PrefixesExtend(Flatten(middle, plan.inputs[count - 1], at + [count - 1], parent, keep), |middle|, at, count - 1);
    }
  }

  lemma PrefixesExtend<F>(visits: seq<Visit<F>>, from: nat, at: Path, k: nat)
    requires forall i :: from <= i < |visits| ==> at + [k] <= visits[i].path
    ensures forall i :: from <= i < |visits| ==> at <= visits[i].path
  {
    forall i | from <= i < |visits| ensures at <= visits[i].path {
      assert at <= at + [k] <= visits[i].path;
    }
  }

  lemma {:induction false} FlattenInPreorder<F>(
      before: seq<Visit<F>>, plan: Plan<F>, at: Path, parent: Option<nat>, keep: Keep<F>)
    requires InPreorder(before) && AllBefore(before, at)
    ensures InPreorder(Flatten(before, plan, at, parent, keep))
    decreases plan, if plan.Step? then |plan.inputs| + 1 else 0
  {
    if plan.Step? {
      FlattenFirstInPreorder(WithStep(before, plan, at, parent, keep), plan, |plan.inputs|, at,
                             ParentBelow(before, plan, at, parent, keep), keep);
    }
  }

  /** Before the first input or at it: what has been emitted comes before every input. */
  ghost predicate Opened<F>(visits: seq<Visit<F>>, at: Path) {
    forall i :: 0 <= i < |visits| ==> Before(visits[i].path, at) || visits[i].path == at
  }

  lemma {:induction false} FlattenFirstInPreorder<F>(
      before: seq<Visit<F>>, plan: Plan<F>, count: nat, at: Path, parent: Option<nat>, keep: Keep<F>)
    requires plan.Step? && count <= |plan.inputs|
    requires InPreorder(before) && Opened(before, at)
    ensures InPreorder(FlattenFirst(before, plan, count, at, parent, keep))
    ensures AllBefore(FlattenFirst(before, plan, count, at, parent, keep), at + [count])
    decreases plan, count
  {
    if count == 0 {
      forall i | 0 <= i < |before| ensures Before(before[i].path, at + [0]) {
        BeforeExtends(before[i].path, at, 0);
      }
    } else {
      var middle := FlattenFirst(before, plan, count - 1, at, parent, keep);
      var input := plan.inputs[count - 1];
      FlattenFirstInPreorder(before, plan, count - 1, at, parent, keep);
      FlattenInPreorder(middle, input, at + [count - 1], parent, keep);
      FlattenOnlyBelow(middle, input, at + [count - 1], parent, keep);
      NextInput(middle, Flatten(middle, input, at + [count - 1], parent, keep), at, count - 1);
    }
  }

  lemma {:induction false} BeforeLaterInput(p: Path, at: Path, j: nat, k: nat)
    requires Before(p, at + [j]) && j < k
    ensures Before(p, at + [k])
  {
    if at != [] {
      assert (at + [j])[1..] == at[1..] + [j] && (at + [k])[1..] == at[1..] + [k];
      if p != [] && p[0] == at[0] {
        BeforeLaterInput(p[1..], at[1..], j, k);
      }
    } else {
      assert at + [j] == [j] && at + [k] == [k];
    }
  }

  lemma NextInput<F>(middle: seq<Visit<F>>, after: seq<Visit<F>>, at: Path, j: nat)
    requires AllBefore(middle, at + [j]) && middle <= after
    requires forall i :: |middle| <= i < |after| ==> at + [j] <= after[i].path
    ensures AllBefore(after, at + [j + 1])
  {
    forall i | 0 <= i < |after| ensures Before(after[i].path, at + [j + 1]) {
      if i < |middle| {
        assert after[i] == middle[i];
        BeforeLaterInput(after[i].path, at, j, j + 1);
      } else {
        BeforeNextInput(after[i].path, at, j, j + 1);
      }
    }
  }

  lemma {:induction false} FlattenFaithful<F>(
      before: seq<Visit<F>>, plan: Plan<F>, at: Path, parent: Option<nat>, keep: Keep<F>, top: Plan<F>)
    requires plan.Step? ==> At(top, at) == Some(plan)
    requires AllFaithful(before, top, keep) && StandsFor(before, parent, NearestKept(top, at, keep))
    ensures AllFaithful(Flatten(before, plan, at, parent, keep), top, keep)
    decreases plan, if plan.Step? then |plan.inputs| + 1 else 0
  {
    if plan.Step? {
      StepIsFaithful(before, plan, at, parent, keep, top);
      FlattenFirstFaithful(WithStep(before, plan, at, parent, keep), plan, |plan.inputs|, at,
                           ParentBelow(before, plan, at, parent, keep), keep, top);
    }
  }

  /** The nearest kept step for the inputs of a step: the step itself, if it is kept. */
  function NearestKeptFrom<F>(top: Plan<F>, at: Path, keep: Keep<F>): Option<Path> {
    if IsKept(top, at, keep) then Some(at) else NearestKept(top, at, keep)
  }

  lemma StepIsFaithful<F>(
      before: seq<Visit<F>>, plan: Plan<F>, at: Path, parent: Option<nat>, keep: Keep<F>, top: Plan<F>)
    requires plan.Step? && At(top, at) == Some(plan)
    requires AllFaithful(before, top, keep) && StandsFor(before, parent, NearestKept(top, at, keep))
    ensures AllFaithful(WithStep(before, plan, at, parent, keep), top, keep)
    ensures StandsFor(WithStep(before, plan, at, parent, keep), ParentBelow(before, plan, at, parent, keep),
                      NearestKeptFrom(top, at, keep))
  {
    var after := WithStep(before, plan, at, parent, keep);
    forall i | 0 <= i < |after| ensures IsFaithful(after, i, top, keep) {
      if i < |before| {
        assert after[..i] == before[..i] && IsFaithful(before, i, top, keep);
      } else {
        assert after[..i] == before;
      }
    }
  }

  lemma StandsForStill<F>(visits: seq<Visit<F>>, more: seq<Visit<F>>, parent: Option<nat>, up: Option<Path>)
    requires visits <= more && StandsFor(visits, parent, up)
    ensures StandsFor(more, parent, up)
  {
  }

  lemma InputPlace<F>(top: Plan<F>, plan: Plan<F>, at: Path, k: nat, keep: Keep<F>)
    requires plan.Step? && At(top, at) == Some(plan) && k < |plan.inputs|
    ensures plan.inputs[k].Step? ==> At(top, at + [k]) == Some(plan.inputs[k])
    ensures NearestKept(top, at + [k], keep) == NearestKeptFrom(top, at, keep)
  {
    AtInput(top, at, k);
    assert (at + [k])[..|at|] == at;
  }

  lemma {:induction false} FlattenFirstFaithful<F>(
      before: seq<Visit<F>>, plan: Plan<F>, count: nat, at: Path, parent: Option<nat>, keep: Keep<F>, top: Plan<F>)
    requires plan.Step? && count <= |plan.inputs| && At(top, at) == Some(plan)
    requires AllFaithful(before, top, keep) && StandsFor(before, parent, NearestKeptFrom(top, at, keep))
    ensures AllFaithful(FlattenFirst(before, plan, count, at, parent, keep), top, keep)
    decreases plan, count
  {
    if count > 0 {
      var middle := FlattenFirst(before, plan, count - 1, at, parent, keep);
      FlattenFirstFaithful(before, plan, count - 1, at, parent, keep, top);
      FlattenFirstOnlyBelow(before, plan, count - 1, at, parent, keep);
      InputPlace(top, plan, at, count - 1, keep);
      StandsForStill(before, middle, parent, NearestKeptFrom(top, at, keep));
      FlattenFaithful(middle, plan.inputs[count - 1], at + [count - 1], parent, keep, top);
    }
  }

  lemma {:induction false} FlattenComplete<F>(
      before: seq<Visit<F>>, plan: Plan<F>, at: Path, parent: Option<nat>, keep: Keep<F>, top: Plan<F>)
    requires At(top, at) == if plan.Step? then Some(plan) else None
    ensures DoneBelow(Flatten(before, plan, at, parent, keep), top, at, keep)
    decreases plan, if plan.Step? then |plan.inputs| + 1 else 0
  {
    var after := Flatten(before, plan, at, parent, keep);
    if plan.Step? {
      var (shown, under) := (WithStep(before, plan, at, parent, keep), ParentBelow(before, plan, at, parent, keep));
      FlattenFirstOnlyBelow(shown, plan, |plan.inputs|, at, under, keep);
      forall path | at <= path && IsKept(top, path, keep) ensures Emitted(after, path) {
        if path == at {
          assert after[|before|].path == at;
        } else {
          var k := path[|at|];
          ThroughInput(top, plan, at, path);
          FlattenFirstComplete(shown, plan, |plan.inputs|, at, under, keep, top, k);
        }
      }
    } else {
      NothingBelow(after, top, at, keep);
    }
  }

  /** There are no steps below a place where there is none. */
  lemma NothingBelow<F>(visits: seq<Visit<F>>, top: Plan<F>, at: Path, keep: Keep<F>)
    requires At(top, at).None?
    ensures DoneBelow(visits, top, at, keep)
  {
    forall path ensures !(at <= path && IsKept(top, path, keep)) {
      if at <= path && At(top, path).Some? {
        AtPrefix(top, at, path);
      }
    }
  }

  lemma NextOnPath(at: Path, path: Path)
    requires at <= path && at != path
    ensures at + [path[|at|]] <= path
  {
    assert at + [path[|at|]] == path[..|at| + 1];
  }

  lemma InputExists<F>(top: Plan<F>, plan: Plan<F>, at: Path, k: nat)
    requires plan.Step? && At(top, at) == Some(plan) && At(top, at + [k]).Some?
    ensures k < |plan.inputs|
  {
    AtInput(top, at, k);
  }

  lemma ThroughInput<F>(top: Plan<F>, plan: Plan<F>, at: Path, path: Path)
    requires plan.Step? && At(top, at) == Some(plan) && at <= path && at != path && At(top, path).Some?
    ensures at + [path[|at|]] <= path && path[|at|] < |plan.inputs|
  {
    NextOnPath(at, path);
    AtPrefix(top, at + [path[|at|]], path);
    InputExists(top, plan, at, path[|at|]);
  }

  lemma {:induction false} FlattenFirstComplete<F>(
      before: seq<Visit<F>>, plan: Plan<F>, count: nat, at: Path, parent: Option<nat>, keep: Keep<F>, top: Plan<F>,
      k: nat)
    requires plan.Step? && k < count <= |plan.inputs| && At(top, at) == Some(plan)
    ensures DoneBelow(FlattenFirst(before, plan, count, at, parent, keep), top, at + [k], keep)
    decreases plan, count
  {
    var middle := FlattenFirst(before, plan, count - 1, at, parent, keep);
    var input := plan.inputs[count - 1];
    if k == count - 1 {
      AtInput(top, at, k);
      FlattenComplete(middle, input, at + [k], parent, keep, top);
    } else {
      FlattenFirstComplete(before, plan, count - 1, at, parent, keep, top, k);
      FlattenOnlyBelow(middle, input, at + [count - 1], parent, keep);
      DoneStill(middle, Flatten(middle, input, at + [count - 1], parent, keep), top, at + [k], keep);
    }
  }

  lemma DoneStill<F>(visits: seq<Visit<F>>, more: seq<Visit<F>>, top: Plan<F>, at: Path, keep: Keep<F>)
    requires visits <= more && DoneBelow(visits, top, at, keep)
    ensures DoneBelow(more, top, at, keep)
  {
    forall path | at <= path && IsKept(top, path, keep) ensures Emitted(more, path) {
      assert Emitted(visits, path);
      var i :| 0 <= i < |visits| && visits[i].path == path;
      assert more[i].path == path;
    }
  }

  // The parsers.

  /** The nodes of a result, numbered in the order they were emitted. */
  function NodesOf<F, P>(visits: seq<Visit<F>>, build: (F, bool) -> P): seq<Node<P>> {
    seq(|visits|, i requires 0 <= i < |visits| =>
      Node(i + 1, visits[i].parent, build(visits[i].fields, visits[i].path == [])))
  }

  /** Why steps were skipped, in the order they were reached. */
  function Warnings<F>(plan: Plan<F>): seq<string>
    decreases plan, if plan.Step? then |plan.inputs| + 1 else 0
  {
    match plan
    case Malformed(reason) => [reason]
    case Step(_, inputs) => WarningsFirst(plan, |inputs|)
  }

  function WarningsFirst<F>(plan: Plan<F>, count: nat): seq<string>
    requires plan.Step? && count <= |plan.inputs|
    decreases plan, count
  {
    if count == 0 then [] else WarningsFirst(plan, count - 1) + Warnings(plan.inputs[count - 1])
  }

  lemma NodesOfStep<F, P>(before: seq<Visit<F>>, v: Visit<F>, build: (F, bool) -> P)
    ensures NodesOf(before + [v], build)
         == NodesOf(before, build) + [Node(|before| + 1, v.parent, build(v.fields, v.path == []))]
  {
  }

  /** The recursive parser: it appends a node for a kept step and goes on with the inputs below that node. */
  method ParseStep<F, P>(result: PlanResult<P>, warnings: seq<string>, plan: Plan<F>, parent: Option<nat>, isRoot: bool,
                         keep: Keep<F>, build: (F, bool) -> P, ghost before: seq<Visit<F>>, ghost at: Path)
    returns (warnings': seq<string>)
    requires result.Valid() && result.nodes == NodesOf(before, build)
    requires isRoot == (at == []) && (parent.Some? ==> 1 <= parent.value <= |before|)
    modifies result
    ensures result.Valid() && result.nodes == NodesOf(Flatten(before, plan, at, parent, keep), build)
    ensures warnings' == warnings + Warnings(plan)
    decreases plan, if plan.Step? then |plan.inputs| + 1 else 0
  {
    if plan.Malformed? {
      return warnings + [plan.reason];
    }
    var nextParent := parent;
    ghost var shown := WithStep(before, plan, at, parent, keep);
    if keep(plan.fields, plan.inputs == [], isRoot) {
      NodesOfStep(before, Visit(at, parent, plan.fields), build);
      var id := result.AppendChild(parent, build(plan.fields, isRoot));
      nextParent := Some(id);
    }
    warnings' := ParseInputs(result, warnings, plan, nextParent, keep, build, shown, at);
  }

  method ParseInputs<F, P>(result: PlanResult<P>, warnings: seq<string>, plan: Plan<F>, parent: Option<nat>,
                           keep: Keep<F>, build: (F, bool) -> P, ghost before: seq<Visit<F>>, ghost at: Path)
    returns (warnings': seq<string>)
    requires plan.Step? && result.Valid() && result.nodes == NodesOf(before, build)
    requires parent.Some? ==> 1 <= parent.value <= |before|
    modifies result
    ensures result.Valid()
    ensures result.nodes == NodesOf(FlattenFirst(before, plan, |plan.inputs|, at, parent, keep), build)
    ensures warnings' == warnings + WarningsFirst(plan, |plan.inputs|)
    decreases plan, |plan.inputs|
  {
    warnings' := warnings;
    for i := 0 to |plan.inputs|
      invariant result.Valid() && result.nodes == NodesOf(FlattenFirst(before, plan, i, at, parent, keep), build)
      invariant warnings' == warnings + WarningsFirst(plan, i)
    {
      ghost var middle := FlattenFirst(before, plan, i, at, parent, keep);
      FlattenFirstOnlyBelow(before, plan, i, at, parent, keep);
      warnings' := ParseStep(result, warnings', plan.inputs[i], parent, false, keep, build, middle, at + [i]);
    }
  }

  lemma {:induction false} BeforeIsStrict(p: Path)
    ensures !Before(p, p)
  {
    if p != [] {
      BeforeIsStrict(p[1..]);
    }
  }

  /**
   Leaving out steps preserves the tree: the nodes are exactly the kept steps, each once, in preorder, and
   the parent of each is the nearest kept step above it.
   */
  lemma FlatteningPreservesTree<F>(top: Plan<F>, keep: Keep<F>)
    ensures var visits := Flatten([], top, [], None, keep);
            AllFaithful(visits, top, keep) && InPreorder(visits)
            && (forall i, j :: 0 <= i < j < |visits| ==> visits[i].path != visits[j].path)
            && (forall path :: IsKept(top, path, keep) <==> Emitted(visits, path))
  {
    var visits := Flatten([], top, [], None, keep);
    FlattenFaithful([], top, [], None, keep, top);
    FlattenInPreorder([], top, [], None, keep);
    FlattenComplete([], top, [], None, keep, top);
    forall i, j | 0 <= i < j < |visits| ensures visits[i].path != visits[j].path {
      BeforeIsStrict(visits[i].path);
    }
    FaithfulAreKept(visits, top, keep);
  }

  lemma FaithfulAreKept<F>(visits: seq<Visit<F>>, top: Plan<F>, keep: Keep<F>)
    requires AllFaithful(visits, top, keep)
    ensures forall path :: Emitted(visits, path) ==> IsKept(top, path, keep)
  {
    forall path | Emitted(visits, path) ensures IsKept(top, path, keep) {
      var i :| 0 <= i < |visits| && visits[i].path == path;
      assert IsFaithful(visits, i, top, keep);
    }
  }

  /** There is a node exactly when some step is kept. */
  lemma EmptyExactlyWhenNothingKept<F>(top: Plan<F>, keep: Keep<F>)
    ensures Flatten([], top, [], None, keep) == [] <==> forall path :: !IsKept(top, path, keep)
  {
    FlatteningPreservesTree(top, keep);
    var visits := Flatten([], top, [], None, keep);
    if visits != [] {
      assert Emitted(visits, visits[0].path);
    }
  }

  // MySQL's second JSON format.

  /** The fields that decide whether a step is shown; `rest` holds the others. */
  datatype MySQLFields<R> = MySQLFields(
    operation: string,
    accessType: string,
    tableName: string,
    indexName: string,
    rest: R)

  predicate Blank<R>(f: MySQLFields<R>) {
    TrimSpace(f.operation) == "" && TrimSpace(f.accessType) == ""
    && TrimSpace(f.tableName) == "" && TrimSpace(f.indexName) == ""
  }

  predicate ShouldAppend<R>(f: MySQLFields<R>, isLeaf: bool, isRoot: bool) {
    !Blank(f) || (isLeaf && isRoot)
  }

  /** The parser of the format: it fails on a malformed root and when no step was worth a node. */
  method ParseMySQLJSONExplainV2<R, P>(root: Plan<MySQLFields<R>>, build: (MySQLFields<R>, bool) -> P)
    returns (result: PlanResult<P>, warnings: seq<string>, ok: bool)
    ensures fresh(result) && result.Valid()
    ensures ok <==> exists path :: IsKept(root, path, ShouldAppend)
    ensures !ok <==> root.Malformed? || (root.inputs != [] && NothingTells(root))
    ensures ok ==> warnings == Warnings(root)
    ensures ok ==> result.nodes == NodesOf(Flatten([], root, [], None, ShouldAppend), build)
  {
    result := new PlanResult();
    warnings := [];
    EmptyExactlyWhenNothingKept(root, ShouldAppend);
    MySQLPlanIsEmptyExactly(root);
    if root.Malformed? {
      ok := false;
      return;
    }
    warnings := ParseStep(result, [], root, None, true, ShouldAppend, build, [], []);
    ok := result.nodes != [];
  }

  predicate HasText(s: string) {
    exists i :: 0 <= i < |s| && !GoSpace(s[i])
  }

  /** One of the four fields says something. */
  predicate Tells<R>(f: MySQLFields<R>) {
    HasText(f.operation) || HasText(f.accessType) || HasText(f.tableName) || HasText(f.indexName)
  }

  lemma BlankMeans<R>(f: MySQLFields<R>)
    ensures Blank(f) <==> !Tells(f)
  {
    TrimsToNothing(f.operation, GoSpace);
    TrimsToNothing(f.accessType, GoSpace);
    TrimsToNothing(f.tableName, GoSpace);
    TrimsToNothing(f.indexName, GoSpace);
  }

  /** A step is shown exactly when one of its four fields says something, or when it is the whole plan. */
  lemma ShownExactly<R>(root: Plan<MySQLFields<R>>, path: Path)
    ensures IsKept(root, path, ShouldAppend)
       <==> At(root, path).Some?
            && (Tells(At(root, path).value.fields) || (path == [] && At(root, path).value.inputs == []))
  {
    if At(root, path).Some? {
      BlankMeans(At(root, path).value.fields);
    }
  }

  ghost predicate NothingTells<R>(root: Plan<MySQLFields<R>>) {
    forall path :: At(root, path).Some? ==> !Tells(At(root, path).value.fields)
  }

  /** Nothing is shown exactly of a malformed root, and of a root with inputs when no step says anything. */
  lemma MySQLPlanIsEmptyExactly<R>(root: Plan<MySQLFields<R>>)
    ensures (forall path :: !IsKept(root, path, ShouldAppend))
       <==> root.Malformed? || (root.inputs != [] && NothingTells(root))
  {
    forall path ensures IsKept(root, path, ShouldAppend)
       <==> At(root, path).Some?
            && (Tells(At(root, path).value.fields) || (path == [] && At(root, path).value.inputs == []))
    {
      ShownExactly(root, path);
    }
    if root.Step? && (forall path :: !IsKept(root, path, ShouldAppend)) {
      assert At(root, []) == Some(root) && !IsKept(root, [], ShouldAppend);
      forall path | At(root, path).Some? ensures !Tells(At(root, path).value.fields) {
        assert !IsKept(root, path, ShouldAppend);
      }
    }
  }

  // PostgreSQL: every step becomes a node. The list of plans counts as a root that is not shown.

  predicate BelowRoot<F>(fields: F, isLeaf: bool, isRoot: bool) {
    !isRoot
  }

  method ParsePostgresPlans<F, P>(top: Plan<F>, build: (F, bool) -> P)
    returns (result: PlanResult<P>, warnings: seq<string>)
    requires top.Step?
    ensures fresh(result) && result.Valid() && warnings == Warnings(top)
    ensures result.nodes == NodesOf(Flatten([], top, [], None, BelowRoot), build)
  {
    result := new PlanResult();
    warnings := ParseInputs(result, [], top, None, BelowRoot, build, [], []);
  }

  /**
   Without elision every step is a node, plans are roots, and every other step is a child of the step it is an
   input of.
   */
  lemma PostgresKeepsEveryStep<F>(top: Plan<F>, path: Path)
    requires At(top, path).Some? && path != []
    ensures IsKept(top, path, BelowRoot)
    ensures NearestKept(top, path, BelowRoot) == if |path| == 1 then None else Some(path[..|path| - 1])
  {
    var above := path[..|path| - 1];
    AtPrefix(top, above, path);
    if above == [] {
      assert !IsKept(top, above, BelowRoot);
    } else {
      assert IsKept(top, above, BelowRoot);
    }
  }
}
