/** The directed graph the pipeline builds: an append-only store of node
    weights addressed by their insertion index, and a list of directed edges
    between those indices. Node indices are never reused or removed. */
module Graph {

  /** The demographic view of one subject that an individual node carries. */
  datatype Individual = Individual(
    id: string,
    gender: string,
    race: string,
    ethnicity: string,
    payerFactor: string,
    atopicMarchCohort: bool)

  /** The two kinds of node: a subject, or a nut-allergy category by name. */
  datatype NodeType =
    | IndividualNode(individual: Individual)
    | NutAllergyStatus(status: string)

  /** A directed edge from the node at index src to the node at index dst. */
  datatype Edge = Edge(src: nat, dst: nat)

  /** Number of edges leaving v; this is what iterating the neighbours of v in
      a directed graph counts (one per outgoing edge). */
  function OutDegree(edges: seq<Edge>, v: nat): (d: nat)
    ensures d <= |edges|
    ensures d == 0 <==> forall j :: 0 <= j < |edges| ==> edges[j].src != v
  {
    if edges == [] then 0
    else OutDegree(edges[..|edges| - 1], v) + (if edges[|edges| - 1].src == v then 1 else 0)
  }

  /** Number of edges entering v. */
  function InDegree(edges: seq<Edge>, v: nat): (d: nat)
    ensures d <= |edges|
    ensures d == 0 <==> forall j :: 0 <= j < |edges| ==> edges[j].dst != v
  {
    if edges == [] then 0
    else InDegree(edges[..|edges| - 1], v) + (if edges[|edges| - 1].dst == v then 1 else 0)
  }

  lemma {:induction false} OutDegreeAppend(a: seq<Edge>, b: seq<Edge>, v: nat)
    ensures OutDegree(a + b, v) == OutDegree(a, v) + OutDegree(b, v)
    decreases |b|
  {
    if b != [] {
      var b' := b[..|b| - 1];
      assert (a + b)[..|a + b| - 1] == a + b';
      OutDegreeAppend(a, b', v);
    } else {
      assert a + b == a;
    }
  }

  lemma {:induction false} InDegreeAppend(a: seq<Edge>, b: seq<Edge>, v: nat)
    ensures InDegree(a + b, v) == InDegree(a, v) + InDegree(b, v)
    decreases |b|
  {
    if b != [] {
      var b' := b[..|b| - 1];
      assert (a + b)[..|a + b| - 1] == a + b';
      InDegreeAppend(a, b', v);
    } else {
      assert a + b == a;
    }
  }

  class DiGraph {
    var nodes: seq<NodeType>
    var edges: seq<Edge>

    /** Every edge joins two nodes that exist. */
    ghost predicate Valid()
      reads this
    {
      forall e :: e in edges ==> e.src < |nodes| && e.dst < |nodes|
    }

    constructor ()
      ensures Valid() && nodes == [] && edges == []
    {
      nodes := [];
      edges := [];
    }

    /** Appends a node and returns its index. */
    method AddNode(weight: NodeType) returns (index: nat)
      requires Valid()
      modifies this
      ensures Valid()
      ensures index == |old(nodes)| && nodes == old(nodes) + [weight] && edges == old(edges)
    {
      index := |nodes|;
      nodes := nodes + [weight];
    }

    /** Appends an edge between two existing nodes. */
    method AddEdge(a: nat, b: nat)
      requires Valid() && a < |nodes| && b < |nodes|
      modifies this
      ensures Valid()
      ensures nodes == old(nodes) && edges == old(edges) + [Edge(a, b)]
    {
      edges := edges + [Edge(a, b)];
    }

    /** How many neighbours iterating from v yields: its outgoing edges. */
    function NeighborCount(v: nat): (c: nat)
      reads this
      ensures c <= |edges|
      ensures c == 0 <==> forall j :: 0 <= j < |edges| ==> edges[j].src != v
    {
      OutDegree(edges, v)
    }
  }
}
