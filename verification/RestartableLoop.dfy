/**
 A loop that goes through a list of items and keeps one cell of a store for each: what happens when
 it is cut short, with the store ahead of the list, and run again from the start.
 */
module RestartableLoop {
  import opened Text

  /** What the loop does with one item: give up, or go on with a new item and a new cell. */
  datatype Decision<I, V> = Stop | Go(item: I, cell: Option<V>)

  /** An item is decided from itself and from what the store has in its cell. */
  datatype Loop<!I, !V> = Loop(keyOf: I -> string, decide: (I, Option<V>) -> Decision<I, V>)

  function Cell<V>(store: map<string, V>, key: string): Option<V> {
    if key in store then Some(store[key]) else None
  }

  function SetCell<V>(store: map<string, V>, key: string, cell: Option<V>): (store': map<string, V>)
    ensures Cell(store', key) == cell
    ensures forall other :: other != key ==> Cell(store', other) == Cell(store, other)
    ensures Cell(store, key) == cell ==> store' == store
  {
    match cell
    case None =>
      assert key !in store ==> store - {key} == store;
      store - {key}
    case Some(v) => store[key := v]
  }

  datatype Pass<I, V> = Pass(items: seq<I>, store: map<string, V>, complete: bool)

  function DecideIn<I, V>(item: I, store: map<string, V>, loop: Loop<I, V>): Decision<I, V> {
    loop.decide(item, Cell(store, loop.keyOf(item)))
  }

  function StoreAfter<I, V>(item: I, store: map<string, V>, loop: Loop<I, V>): map<string, V>
    requires DecideIn(item, store, loop).Go?
  {
    SetCell(store, loop.keyOf(item), DecideIn(item, store, loop).cell)
  }

  /** One pass of the loop; it ends early at the first item that makes it give up. */
  function Process<I, V>(items: seq<I>, store: map<string, V>, loop: Loop<I, V>): (pass: Pass<I, V>)
    ensures |pass.items| <= |items| && (pass.complete <==> |pass.items| == |items|)
  {
    if items == [] then Pass([], store, true)
    else match DecideIn(items[0], store, loop)
      case Stop => Pass([], store, false)
      case Go(item, _) =>
        var rest := Process(items[1..], StoreAfter(items[0], store, loop), loop);
        rest.(items := [item] + rest.items)
  }

  ghost predicate DistinctKeys<I, V>(items: seq<I>, loop: Loop<I, V>) {
    forall i, j :: 0 <= i < j < |items| ==> loop.keyOf(items[i]) != loop.keyOf(items[j])
  }

  ghost predicate HasNoKey<I, V>(items: seq<I>, key: string, loop: Loop<I, V>) {
    forall i :: 0 <= i < |items| ==> loop.keyOf(items[i]) != key
  }

  /** Deciding the item once more would give the same item and leave its cell alone. */
  ghost predicate Settled<I, V>(item: I, result: I, cell: Option<V>, loop: Loop<I, V>) {
    loop.decide(item, cell) == Go(result, cell)
  }

  /** Deciding an item settles it: there is nothing a second look could find. */
  ghost predicate Settling<I, V>(item: I, cell: Option<V>, loop: Loop<I, V>) {
    var decision := loop.decide(item, cell);
    decision.Go? ==> Settled(item, decision.item, decision.cell, loop)
  }

  ghost predicate AllSettling<I, V>(items: seq<I>, store: map<string, V>, loop: Loop<I, V>) {
    forall i :: 0 <= i < |items| ==> Settling(items[i], Cell(store, loop.keyOf(items[i])), loop)
  }

  lemma {:induction false} ProcessKeepsOthers<I, V>(items: seq<I>, store: map<string, V>, loop: Loop<I, V>, key: string)
    requires HasNoKey(items, key, loop)
    ensures Cell(Process(items, store, loop).store, key) == Cell(store, key)
  {
    if items != [] && DecideIn(items[0], store, loop).Go? {
      ProcessKeepsOthers(items[1..], StoreAfter(items[0], store, loop), loop, key);
    }
  }

  /** What a pass makes of one item is decided from the original store, and no other item touches its cell. */
  lemma {:induction false} ProcessItem<I, V>(items: seq<I>, store: map<string, V>, loop: Loop<I, V>, i: nat)
    requires DistinctKeys(items, loop) && i < |Process(items, store, loop).items|
    ensures var pass := Process(items, store, loop);
            DecideIn(items[i], store, loop) == Go(pass.items[i], Cell(pass.store, loop.keyOf(items[i])))
  {
    var store' := StoreAfter(items[0], store, loop);
    if i == 0 {
      ProcessKeepsOthers(items[1..], store', loop, loop.keyOf(items[0]));
    } else {
      ProcessItem(items[1..], store', loop, i - 1);
      assert loop.keyOf(items[i]) != loop.keyOf(items[0]);
      assert items[1..][i - 1] == items[i];
    }
  }

  ghost predicate AllSettled<I, V>(items: seq<I>, results: seq<I>, store: map<string, V>, loop: Loop<I, V>) {
    |items| == |results|
    && forall i :: 0 <= i < |items| ==> Settled(items[i], results[i], Cell(store, loop.keyOf(items[i])), loop)
  }

  lemma {:induction false} SettledItemsReplay<I, V>(
      items: seq<I>, results: seq<I>, store: map<string, V>, loop: Loop<I, V>)
    requires AllSettled(items, results, store, loop)
    ensures Process(items, store, loop) == Pass(results, store, true)
  {
    if items != [] {
      assert Settled(items[0], results[0], Cell(store, loop.keyOf(items[0])), loop);
      assert StoreAfter(items[0], store, loop) == store;
      SettledItemsReplay(items[1..], results[1..], store, loop);
      assert results == [results[0]] + results[1..];
    }
  }

  lemma ProcessSettles<I, V>(items: seq<I>, store: map<string, V>, loop: Loop<I, V>)
    requires DistinctKeys(items, loop) && AllSettling(items, store, loop) && Process(items, store, loop).complete
    ensures var pass := Process(items, store, loop); AllSettled(items, pass.items, pass.store, loop)
  {
    var pass := Process(items, store, loop);
    forall i | 0 <= i < |items|
      ensures Settled(items[i], pass.items[i], Cell(pass.store, loop.keyOf(items[i])), loop)
    {
      ProcessItem(items, store, loop, i);
      assert Settling(items[i], Cell(store, loop.keyOf(items[i])), loop);
    }
  }

  lemma JoinBehind<I, V>(item: I, first: seq<I>, second: Pass<I, V>)
    ensures second.(items := [item] + (first + second.items)) == second.(items := ([item] + first) + second.items)
  {
    assert [item] + (first + second.items) == ([item] + first) + second.items;
  }

  lemma {:induction false} ProcessInTwoParts<I, V>(a: seq<I>, b: seq<I>, store: map<string, V>, loop: Loop<I, V>)
    requires Process(a, store, loop).complete
    ensures var first := Process(a, store, loop);
            var second := Process(b, first.store, loop);
            Process(a + b, store, loop) == second.(items := first.items + second.items)
  {
    if a == [] {
      assert a + b == b;
    } else {
      var store' := StoreAfter(a[0], store, loop);
      ProcessInTwoParts(a[1..], b, store', loop);
      assert (a + b)[0] == a[0] && (a + b)[1..] == a[1..] + b;
      var second := Process(b, Process(a[1..], store', loop).store, loop);
      JoinBehind(DecideIn(a[0], store, loop).item, Process(a[1..], store', loop).items, second);
    }
  }

  /** A pass over one item more: it gives up there, or adds that item's outcome. */
  lemma ProcessOneMore<I, V>(items: seq<I>, store: map<string, V>, loop: Loop<I, V>, n: nat)
    requires n < |items| && Process(items[..n], store, loop).complete
    ensures var pass := Process(items[..n], store, loop);
            match DecideIn(items[n], pass.store, loop)
            case Stop => Process(items, store, loop) == pass.(complete := false)
            case Go(item, cell) =>
              Process(items[..n + 1], store, loop)
              == Pass(pass.items + [item], SetCell(pass.store, loop.keyOf(items[n]), cell), true)
  {
    assert items == items[..n] + items[n..];
    ProcessInTwoParts(items[..n], items[n..], store, loop);
    assert items[..n + 1] == items[..n] + [items[n]];
    ProcessInTwoParts(items[..n], [items[n]], store, loop);
  }

  /** A pass that gives up leaves what a complete pass over the items before it leaves. */
  lemma {:induction false} StoppedPassIsPrefix<I, V>(items: seq<I>, store: map<string, V>, loop: Loop<I, V>)
    ensures var pass := Process(items, store, loop);
            Process(items[..|pass.items|], store, loop) == pass.(complete := true)
  {
    if items != [] && DecideIn(items[0], store, loop).Go? {
      var pass := Process(items, store, loop);
      StoppedPassIsPrefix(items[1..], StoreAfter(items[0], store, loop), loop);
      assert items[..|pass.items|][1..] == items[1..][..|pass.items| - 1];
    }
  }

  /** The store left by a run cut short after `n` items; the list of items is still the old one. */
  function CutShort<I, V>(items: seq<I>, store: map<string, V>, loop: Loop<I, V>, n: nat): map<string, V>
    requires n <= |items|
  {
    Process(items[..n], store, loop).store
  }

  /** How many items a pass goes through before it ends or gives up. */
  function Reached<I, V>(items: seq<I>, store: map<string, V>, loop: Loop<I, V>): (n: nat)
    ensures n <= |items|
  {
    |Process(items, store, loop).items|
  }

  /** Every item that the pass goes through is settled by its decision. */
  ghost predicate SettlingWhileReached<I, V>(items: seq<I>, store: map<string, V>, loop: Loop<I, V>) {
    AllSettling(items[..Reached(items, store, loop)], store, loop)
  }

  lemma DistinctPrefix<I, V>(items: seq<I>, n: nat, loop: Loop<I, V>)
    requires DistinctKeys(items, loop) && n <= |items|
    ensures DistinctKeys(items[..n], loop)
  {
  }

  lemma RerunAfterPrefix<I, V>(items: seq<I>, store: map<string, V>, loop: Loop<I, V>, n: nat)
    requires DistinctKeys(items, loop) && n <= |items| && AllSettling(items[..n], store, loop)
    requires Process(items[..n], store, loop).complete
    ensures Process(items, CutShort(items, store, loop, n), loop) == Process(items, store, loop)
  {
    var (a, b) := (items[..n], items[n..]);
    var first := Process(a, store, loop);
    assert items == a + b;
    DistinctPrefix(items, n, loop);
    ProcessSettles(a, store, loop);
    SettledItemsReplay(a, first.items, first.store, loop);
    ProcessInTwoParts(a, b, store, loop);
    ProcessInTwoParts(a, b, first.store, loop);
  }

  /** A pass over the first `n` items goes as far as the whole pass does, and no further. */
  lemma ReachedInPrefix<I, V>(items: seq<I>, store: map<string, V>, loop: Loop<I, V>, n: nat)
    requires n <= |items|
    ensures Reached(items[..n], store, loop) <= Reached(items, store, loop)
  {
    var m := Reached(items[..n], store, loop);
    StoppedPassIsPrefix(items[..n], store, loop);
    assert items[..n][..m] == items[..m] && items == items[..m] + items[m..];
    ProcessInTwoParts(items[..m], items[m..], store, loop);
  }

  /** How many items come before the first one that fails the test. */
  function Leading<T>(items: seq<T>, test: T -> bool): (n: nat)
    ensures n <= |items| && forall i :: 0 <= i < n ==> test(items[i])
    ensures n < |items| ==> !test(items[n])
  {
    if items == [] || !test(items[0]) then 0 else 1 + Leading(items[1..], test)
  }

  /** How far a pass goes is decided by the store it starts from: up to the first item that makes it give up there. */
  lemma ReachedIsFirstStop<I, V>(items: seq<I>, store: map<string, V>, loop: Loop<I, V>)
    requires DistinctKeys(items, loop)
    ensures forall i :: 0 <= i < Reached(items, store, loop) ==> DecideIn(items[i], store, loop).Go?
    ensures var n := Reached(items, store, loop); n < |items| ==> DecideIn(items[n], store, loop).Stop?
  {
    var n := Reached(items, store, loop);
    forall i | 0 <= i < n ensures DecideIn(items[i], store, loop).Go? {
      ProcessItem(items, store, loop, i);
    }
    if n < |items| {
      StoppedPassIsPrefix(items, store, loop);
      ProcessOneMore(items, store, loop, n);
      ReachedInPrefix(items, store, loop, n + 1);
      ProcessKeepsOthers(items[..n], store, loop, loop.keyOf(items[n]));
    }
  }

  lemma CutIsPrefix<I, V>(items: seq<I>, store: map<string, V>, loop: Loop<I, V>, n: nat) returns (m: nat)
    requires n <= |items|
    ensures m <= n && m <= Reached(items, store, loop) && Process(items[..m], store, loop).complete
    ensures CutShort(items, store, loop, n) == CutShort(items, store, loop, m)
  {
    m := Reached(items[..n], store, loop);
    StoppedPassIsPrefix(items[..n], store, loop);
    assert items[..n][..m] == items[..m];
    ReachedInPrefix(items, store, loop, n);
  }

  /** Cut short after any number of items and run again, a pass ends exactly as if it had not been cut. */
  lemma RerunConverges<I, V>(items: seq<I>, store: map<string, V>, loop: Loop<I, V>, n: nat)
    requires DistinctKeys(items, loop) && SettlingWhileReached(items, store, loop) && n <= |items|
    ensures Process(items, CutShort(items, store, loop, n), loop) == Process(items, store, loop)
  {
    var m := CutIsPrefix(items, store, loop, n);
    var reached := items[..Reached(items, store, loop)];
    forall i | 0 <= i < m ensures items[..m][i] == reached[i] {
    }
    RerunAfterPrefix(items, store, loop, m);
  }

  lemma SettlingAfterCut<I, V>(items: seq<I>, store: map<string, V>, loop: Loop<I, V>, m: nat, i: nat)
    requires DistinctKeys(items, loop) && m <= |items| && i < |items| && Process(items[..m], store, loop).complete
    requires Settling(items[i], Cell(store, loop.keyOf(items[i])), loop)
    requires forall k :: 0 <= k < m ==> Settling(items[k], Cell(store, loop.keyOf(items[k])), loop)
    ensures Settling(items[i], Cell(CutShort(items, store, loop, m), loop.keyOf(items[i])), loop)
  {
    var (done, cut) := (items[..m], CutShort(items, store, loop, m));
    DistinctPrefix(items, m, loop);
    ProcessSettles(done, store, loop);
    if i < m {
      assert Settled(done[i], Process(done, store, loop).items[i], Cell(cut, loop.keyOf(done[i])), loop);
    } else {
      assert HasNoKey(done, loop.keyOf(items[i]), loop);
      ProcessKeepsOthers(done, store, loop, loop.keyOf(items[i]));
    }
  }

  lemma CutKeepsSettling<I, V>(items: seq<I>, store: map<string, V>, loop: Loop<I, V>, n: nat)
    requires DistinctKeys(items, loop) && SettlingWhileReached(items, store, loop) && n <= |items|
    ensures SettlingWhileReached(items, CutShort(items, store, loop, n), loop)
  {
    var m := CutIsPrefix(items, store, loop, n);
    var reached := items[..Reached(items, store, loop)];
    RerunConverges(items, store, loop, n);
    forall k | 0 <= k < |reached| ensures Settling(items[k], Cell(store, loop.keyOf(items[k])), loop) {
      assert Settling(reached[k], Cell(store, loop.keyOf(reached[k])), loop);
    }
    forall i | 0 <= i < |reached|
      ensures Settling(reached[i], Cell(CutShort(items, store, loop, n), loop.keyOf(reached[i])), loop)
    {
      SettlingAfterCut(items, store, loop, m, i);
    }
  }

  /** Several runs cut short, one after the other. */
  ghost function AfterCuts<I, V>(items: seq<I>, store: map<string, V>, loop: Loop<I, V>, cuts: seq<nat>): map<string, V>
    requires forall k :: 0 <= k < |cuts| ==> cuts[k] <= |items|
    decreases |cuts|
  {
    if cuts == [] then store else AfterCuts(items, CutShort(items, store, loop, cuts[0]), loop, cuts[1..])
  }

  /** However often it is cut short, the pass that is not cut ends as if it had been the first. */
  lemma {:induction false} ManyCutsConverge<I, V>(
      items: seq<I>, store: map<string, V>, loop: Loop<I, V>, cuts: seq<nat>)
    requires DistinctKeys(items, loop) && SettlingWhileReached(items, store, loop)
    requires forall k :: 0 <= k < |cuts| ==> cuts[k] <= |items|
    ensures Process(items, AfterCuts(items, store, loop, cuts), loop) == Process(items, store, loop)
    decreases |cuts|
  {
    if cuts != [] {
      RerunConverges(items, store, loop, cuts[0]);
      CutKeepsSettling(items, store, loop, cuts[0]);
      ManyCutsConverge(items, CutShort(items, store, loop, cuts[0]), loop, cuts[1..]);
    }
  }

  /** If an item is not settled by its decision, a run cut short at the very end does not converge. */
  lemma UnsettlingItemDiverges<I, V>(items: seq<I>, store: map<string, V>, loop: Loop<I, V>, i: nat)
    requires DistinctKeys(items, loop) && Process(items, store, loop).complete
    requires i < |items| && !Settling(items[i], Cell(store, loop.keyOf(items[i])), loop)
    ensures Process(items, CutShort(items, store, loop, |items|), loop) != Process(items, store, loop)
  {
    assert items[..|items|] == items;
    var pass := Process(items, store, loop);
    ProcessItem(items, store, loop, i);
    var again := Process(items, pass.store, loop);
    if again.complete {
      ProcessItem(items, pass.store, loop, i);
    }
  }

  /** The same for a pass that gives up behind the item: cut short where it gives up, it does not converge. */
  lemma UnsettlingReachedDiverges<I, V>(items: seq<I>, store: map<string, V>, loop: Loop<I, V>, i: nat)
    requires DistinctKeys(items, loop) && i < Reached(items, store, loop)
    requires !Settling(items[i], Cell(store, loop.keyOf(items[i])), loop)
    ensures var cut := CutShort(items, store, loop, Reached(items, store, loop));
            Process(items, cut, loop) != Process(items, store, loop)
  {
    var m := Reached(items, store, loop);
    var (front, cut) := (items[..m], CutShort(items, store, loop, m));
    StoppedPassIsPrefix(items, store, loop);
    StoppedPassIsPrefix(items, cut, loop);
    DistinctPrefix(items, m, loop);
    assert front[..m] == front && front[i] == items[i];
    UnsettlingItemDiverges(front, store, loop, i);
  }

  /**
   Restarts are harmless, after every cut, exactly when the decision on every item that is reached settles it.
   That holds for passes that go through and for passes that give up at some item.
   */
  lemma ConvergesExactlyWhenSettling<I, V>(items: seq<I>, store: map<string, V>, loop: Loop<I, V>)
    requires DistinctKeys(items, loop)
    ensures (forall n: nat :: n <= |items| ==>
               Process(items, CutShort(items, store, loop, n), loop) == Process(items, store, loop))
            <==> SettlingWhileReached(items, store, loop)
  {
    if SettlingWhileReached(items, store, loop) {
      forall n: nat | n <= |items|
        ensures Process(items, CutShort(items, store, loop, n), loop) == Process(items, store, loop)
      {
        RerunConverges(items, store, loop, n);
      }
    } else {
      var reached := items[..Reached(items, store, loop)];
      var i :| 0 <= i < |reached| && !Settling(reached[i], Cell(store, loop.keyOf(reached[i])), loop);
      UnsettlingReachedDiverges(items, store, loop, i);
      assert Reached(items, store, loop) <= |items|;
    }
  }

  /** If every outcome is itself settled, a complete second pass over the results changes nothing. */
  lemma SecondPassChangesNothing<I, V>(items: seq<I>, store: map<string, V>, loop: Loop<I, V>)
    requires DistinctKeys(items, loop) && Process(items, store, loop).complete
    requires forall i :: 0 <= i < |items| ==>
               var d := DecideIn(items[i], store, loop);
               d.Go? ==> loop.keyOf(d.item) == loop.keyOf(items[i]) && Settled(d.item, d.item, d.cell, loop)
    ensures var pass := Process(items, store, loop); Process(pass.items, pass.store, loop) == pass
  {
    var pass := Process(items, store, loop);
    forall i | 0 <= i < |items|
      ensures Settled(pass.items[i], pass.items[i], Cell(pass.store, loop.keyOf(pass.items[i])), loop)
    {
      ProcessItem(items, store, loop, i);
    }
    SettledItemsReplay(pass.items, pass.items, pass.store, loop);
  }

  datatype End = Done | Failed | Killed

  /** The two files: the list of items, rewritten as a whole, and the store, rewritten at every change of a cell. */
  class ItemFiles<I(==), V(==)> {
    var items: seq<I>
    var store: map<string, V>

    constructor (items: seq<I>, store: map<string, V>)
      ensures this.items == items && this.store == store
    {
      this.items, this.store := items, store;
    }

    /**
     The loop, in a process that dies after `lifetime` items if there are as many. After the last one it dies before
     the items are written.
     */
    method Run(loop: Loop<I, V>, lifetime: nat) returns (end: End)
      modifies this
      ensures end.Killed? ==> lifetime <= |items| && items == old(items)
                              && store == CutShort(items, old(store), loop, lifetime)
      ensures end.Done? ==> lifetime > |items|
      ensures var pass := Process(old(items), old(store), loop);
              && (end.Failed? ==> !pass.complete && items == old(items) && store == pass.store)
              && (end.Done? ==> pass == Pass(items, store, true))
    {
      var loaded, changed := items, false;
      var index := 0;
      while index < |loaded|
        invariant 0 <= index <= |items| == |loaded| && items == old(items)
        invariant index <= lifetime
        invariant forall k :: index <= k < |items| ==> loaded[k] == items[k]
        invariant Process(items[..index], old(store), loop) == Pass(loaded[..index], store, true)
        invariant !changed ==> loaded == items
      {
        if index == lifetime {
          return Killed;
        }
        ProcessOneMore(items, old(store), loop, index);
        var item := loaded[index];
        var key := loop.keyOf(item);
        match loop.decide(item, Cell(store, key)) {
          case Stop => return Failed;
          case Go(result, cell) =>
            ghost var done := loaded[..index];
            store := SetCell(store, key, cell);
            if result != item {
              loaded, changed := loaded[index := result], true;
            }
            assert loaded[..index + 1] == done + [result];
        }
        index := index + 1;
      }
      assert items[..index] == items && loaded[..index] == loaded;
      if index == lifetime {
        return Killed;
      }
      if changed {
        items := loaded;
      }
      end := Done;
    }
  }
}
