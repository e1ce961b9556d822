/** The warnings of a plan parser: one for each malformed place of the plan, in the order of the plan. */
module PlanWarnings {
  import opened Text
  import opened PlanFlattening

  /** A place in the plan that is malformed. */
  predicate IsMalformedAt<F>(plan: Plan<F>, path: Path, reason: string) {
    if path == [] then plan == Malformed(reason)
    else plan.Step? && path[0] < |plan.inputs| && IsMalformedAt(plan.inputs[path[0]], path[1..], reason)
  }

  function Through(k: nat, paths: seq<Path>): (through: seq<Path>)
    ensures |through| == |paths|
    ensures forall i :: 0 <= i < |paths| ==> through[i] != [] && through[i][0] == k && through[i][1..] == paths[i]
  {
    seq(|paths|, i requires 0 <= i < |paths| => [k] + paths[i])
  }

  /** The malformed places, found by going through the plan. */
  function Places<F>(plan: Plan<F>): seq<Path>
    decreases plan, if plan.Step? then |plan.inputs| + 1 else 0
  {
    match plan
    case Malformed(_) => [[]]
    case Step(_, inputs) => PlacesFirst(plan, |inputs|)
  }

  function PlacesFirst<F>(plan: Plan<F>, count: nat): seq<Path>
    requires plan.Step? && count <= |plan.inputs|
    decreases plan, count
  {
    if count == 0 then [] else PlacesFirst(plan, count - 1) + Through(count - 1, Places(plan.inputs[count - 1]))
  }

  ghost predicate AreInOrder(paths: seq<Path>) {
    forall i, j :: 0 <= i < j < |paths| ==> Before(paths[i], paths[j])
  }

  ghost predicate AreReasons<F>(plan: Plan<F>, paths: seq<Path>, reasons: seq<string>) {
    |paths| == |reasons| && forall i :: 0 <= i < |paths| ==> IsMalformedAt(plan, paths[i], reasons[i])
  }

  /** The places lead through the first `count` inputs, and include all malformed ones there. */
  ghost predicate AreAllThrough<F>(plan: Plan<F>, paths: seq<Path>, count: nat) {
    (forall i :: 0 <= i < |paths| ==> paths[i] != [] && paths[i][0] < count)
    && forall path, reason :: path != [] && path[0] < count && IsMalformedAt(plan, path, reason) ==> path in paths
  }

  lemma OneMoreInput<F>(plan: Plan<F>, before: seq<Path>, k: nat, below: seq<Path>)
    requires plan.Step? && k < |plan.inputs|
    requires AreInOrder(before) && AreAllThrough(plan, before, k) && AreInOrder(below)
    requires forall path, reason :: IsMalformedAt(plan.inputs[k], path, reason) ==> path in below
    ensures AreInOrder(before + Through(k, below)) && AreAllThrough(plan, before + Through(k, below), k + 1)
  {
    var (through, all) := (Through(k, below), before + Through(k, below));
    forall path, reason | path != [] && path[0] < k + 1 && IsMalformedAt(plan, path, reason) ensures path in all {
      if path[0] == k {
        assert IsMalformedAt(plan.inputs[k], path[1..], reason);
        var i :| 0 <= i < |below| && below[i] == path[1..];
        assert through[i] == [k] + path[1..] == path;
      }
    }
  }

  lemma MoreReasons<F>(
      plan: Plan<F>, paths: seq<Path>, reasons: seq<string>, k: nat, below: seq<Path>, more: seq<string>)
    requires plan.Step? && k < |plan.inputs|
    requires AreReasons(plan, paths, reasons) && AreReasons(plan.inputs[k], below, more)
    ensures AreReasons(plan, paths + Through(k, below), reasons + more)
  {
    var all := paths + Through(k, below);
    forall i | 0 <= i < |all| ensures IsMalformedAt(plan, all[i], (reasons + more)[i]) {
      if i >= |paths| {
        assert IsMalformedAt(plan.inputs[k], below[i - |paths|], more[i - |paths|]);
      }
    }
  }

  lemma {:induction false} PlacesAre<F>(plan: Plan<F>)
    ensures AreReasons(plan, Places(plan), Warnings(plan)) && AreInOrder(Places(plan))
    ensures forall path, reason :: IsMalformedAt(plan, path, reason) ==> path in Places(plan)
    decreases plan, if plan.Step? then |plan.inputs| + 1 else 0
  {
    if plan.Step? {
      PlacesFirstAre(plan, |plan.inputs|);
    }
  }

  lemma {:induction false} PlacesFirstAre<F>(plan: Plan<F>, count: nat)
    requires plan.Step? && count <= |plan.inputs|
    ensures AreReasons(plan, PlacesFirst(plan, count), WarningsFirst(plan, count))
    ensures AreInOrder(PlacesFirst(plan, count)) && AreAllThrough(plan, PlacesFirst(plan, count), count)
    decreases plan, count
  {
    if count > 0 {
      var k := count - 1;
      PlacesFirstAre(plan, k);
      PlacesAre(plan.inputs[k]);
      OneMoreInput(plan, PlacesFirst(plan, k), k, Places(plan.inputs[k]));
      MoreReasons(plan, PlacesFirst(plan, k), WarningsFirst(plan, k), k, Places(plan.inputs[k]),
                  Warnings(plan.inputs[k]));
    }
  }

  /** Warning by warning: there is one for each malformed place, with its reason, in preorder, and no other. */
  lemma WarningsAreMalformed<F>(plan: Plan<F>) returns (places: seq<Path>)
    ensures |places| == |Warnings(plan)|
    ensures forall i :: 0 <= i < |places| ==> IsMalformedAt(plan, places[i], Warnings(plan)[i])
    ensures forall i, j :: 0 <= i < j < |places| ==> Before(places[i], places[j]) && places[i] != places[j]
    ensures forall path :: (exists reason :: IsMalformedAt(plan, path, reason)) <==> path in places
  {
    places := Places(plan);
    PlacesAre(plan);
    forall i, j | 0 <= i < j < |places| ensures Before(places[i], places[j]) && places[i] != places[j] {
      BeforeIsStrict(places[i]);
    }
  }
}
