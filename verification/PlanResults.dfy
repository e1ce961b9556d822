/** The flat form of a query plan: nodes in the order they were found, and edges from parents to children. */
module PlanResults {
  import opened Text

  /** Node ids are counted from 1 within one parse and printed as "n1", "n2", and so on. */
  datatype Node<P> = Node(id: nat, parent: Option<nat>, payload: P)

  datatype Edge = Edge(from: nat, to: nat)

  function EdgesOf<P>(nodes: seq<Node<P>>): seq<Edge> {
    if nodes == [] then []
    else
      var (rest, last) := (nodes[..|nodes| - 1], nodes[|nodes| - 1]);
      EdgesOf(rest) + if last.parent.Some? then [Edge(last.parent.value, last.id)] else []
  }

  /** Nodes are numbered in order, and parents come before their children. */
  ghost predicate WellNumbered<P>(nodes: seq<Node<P>>) {
    forall i :: 0 <= i < |nodes| ==>
      nodes[i].id == i + 1 && (nodes[i].parent.Some? ==> 1 <= nodes[i].parent.value <= i)
  }

  /**
   There is one edge to each node that has a parent, none to the others, and edges lead from earlier to later
   nodes.
   */
  lemma {:induction false} OneEdgePerChild<P>(nodes: seq<Node<P>>)
    requires WellNumbered(nodes)
    ensures forall e :: e in EdgesOf(nodes) <==>
              exists i :: 0 <= i < |nodes| && nodes[i].parent == Some(e.from) && nodes[i].id == e.to
    ensures forall e :: e in EdgesOf(nodes) ==> 1 <= e.from < e.to <= |nodes|
    ensures forall i, j :: 0 <= i < j < |EdgesOf(nodes)| ==> EdgesOf(nodes)[i].to < EdgesOf(nodes)[j].to
  {
    if nodes != [] {
      var (rest, last) := (nodes[..|nodes| - 1], nodes[|nodes| - 1]);
      OneEdgePerChild(rest);
      forall e ensures e in EdgesOf(nodes) <==>
                         exists i :: 0 <= i < |nodes| && nodes[i].parent == Some(e.from) && nodes[i].id == e.to
      {
        if e in EdgesOf(nodes) {
          if e in EdgesOf(rest) {
            var i :| 0 <= i < |rest| && rest[i].parent == Some(e.from) && rest[i].id == e.to;
            assert nodes[i] == rest[i];
          } else {
            assert nodes[|rest|].parent == Some(e.from) && nodes[|rest|].id == e.to;
          }
        }
        if i :| 0 <= i < |nodes| && nodes[i].parent == Some(e.from) && nodes[i].id == e.to {
          assert i < |rest| ==> rest[i] == nodes[i];
        }
      }
    }
  }

  class PlanResult<P> {
    var nodes: seq<Node<P>>
    var edges: seq<Edge>
    var counter: nat

    ghost predicate Valid()
      reads this
    {
      counter == |nodes| && WellNumbered(nodes) && edges == EdgesOf(nodes)
    }

    constructor ()
      ensures Valid() && nodes == []
    {
      nodes, edges, counter := [], [], 0;
    }

    /** Appends a node under a parent that is already there, or a root. */
    method AppendChild(parent: Option<nat>, payload: P) returns (id: nat)
      requires Valid() && (parent.Some? ==> 1 <= parent.value <= |nodes|)
      modifies this
      ensures Valid() && id == |old(nodes)| + 1
      ensures nodes == old(nodes) + [Node(id, parent, payload)]
    {
      counter := counter + 1;
      id := counter;
      if parent.Some? {
        edges := edges + [Edge(parent.value, id)];
      }
      nodes := nodes + [Node(id, parent, payload)];
      assert nodes[..|nodes| - 1] == old(nodes);
    }
  }
}
