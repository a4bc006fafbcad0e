/** Building the bipartite graph from a batch of records: the nine category
    nodes first, then one individual node per record in input order, each
    followed by its edges to the categories whose onset marker is present. */
module Builder {
  import opened Records
  import opened Graph

  /** The demographic attributes of a record, copied verbatim. */
  function IndividualOf(r: Record): Individual
  {
    Individual(r.subjectId, r.genderFactor, r.raceFactor, r.ethnicityFactor,
               r.payerFactor, r.atopicMarchCohort)
  }

  /** The category nodes, at indices 0 .. 8. */
  function CategoryNodes(): (s: seq<NodeType>)
    ensures |s| == CategoryCount
  {
    seq(CategoryCount, k requires 0 <= k < CategoryCount => NutAllergyStatus(Allergies[k]))
  }

  /** One individual node per record, in input order. */
  function IndividualNodes(records: seq<Record>): (s: seq<NodeType>)
    ensures |s| == |records|
  {
    seq(|records|, i requires 0 <= i < |records| => IndividualNode(IndividualOf(records[i])))
  }

  /** The node list of the graph built from records. */
  function BuiltNodes(records: seq<Record>): seq<NodeType>
  {
    CategoryNodes() + IndividualNodes(records)
  }

  /** The edges from node v for the first k categories, in category order:
      one to category j exactly when r's marker j is present. */
  function EdgesFor(r: Record, v: nat, k: nat): seq<Edge>
    requires k <= CategoryCount
  {
    if k == 0 then []
    else EdgesFor(r, v, k - 1) + (if Starts(r)[k - 1].Some? then [Edge(v, k - 1)] else [])
  }

  /** All edges of the individual node v created from record r. */
  function RecordEdges(r: Record, v: nat): seq<Edge>
  {
    EdgesFor(r, v, CategoryCount)
  }

  /** The edge list of the graph built from records. */
  function BuiltEdges(records: seq<Record>): seq<Edge>
  {
    if records == [] then []
    else
      var n := |records| - 1;
      BuiltEdges(records[..n]) + RecordEdges(records[n], CategoryCount + n)
  }

  lemma IndividualNodesSnoc(records: seq<Record>, r: Record)
    ensures IndividualNodes(records + [r]) == IndividualNodes(records) + [IndividualNode(IndividualOf(r))]
  {
  }

  /** Models create_graph: adds the nine category nodes, remembering each
      one's index by name, then for each record an individual node and an
      edge to every category whose onset marker is present. */
  method CreateGraph(records: seq<Record>) returns (graph: DiGraph)
    ensures fresh(graph) && graph.Valid()
    ensures graph.nodes == BuiltNodes(records)
    ensures graph.edges == BuiltEdges(records)
  {
    graph := new DiGraph();
    var allergyNodes: map<string, nat> := map[];
    AllergiesDistinct();
    for k := 0 to CategoryCount
      invariant graph.Valid() && graph.edges == []
      invariant graph.nodes == CategoryNodes()[..k]
      invariant forall j :: 0 <= j < k ==> Allergies[j] in allergyNodes && allergyNodes[Allergies[j]] == j
    {
      var node := graph.AddNode(NutAllergyStatus(Allergies[k]));
      allergyNodes := allergyNodes[Allergies[k] := node];
    }
    assert CategoryNodes()[..CategoryCount] == BuiltNodes([]);
    for i := 0 to |records|
      invariant graph.Valid()
      invariant graph.nodes == BuiltNodes(records[..i])
      invariant graph.edges == BuiltEdges(records[..i])
    {
      var record := records[i];
      assert records[..i + 1] == records[..i] + [record];
      IndividualNodesSnoc(records[..i], record);
      var individualNode := graph.AddNode(IndividualNode(IndividualOf(record)));
      assert individualNode == CategoryCount + i;
      for k := 0 to CategoryCount
        invariant graph.Valid()
        invariant graph.nodes == BuiltNodes(records[..i + 1])
        invariant graph.edges == BuiltEdges(records[..i]) + EdgesFor(record, individualNode, k)
      {
        var allergy := Allergies[k];
        GetAllergyStartAt(record, k);
        if GetAllergyStart(record, allergy).Some? {
          if allergy in allergyNodes {
            graph.AddEdge(individualNode, allergyNodes[allergy]);
          }
        }
      }
      assert records[..i + 1][..i] == records[..i];
    }
    assert records[..|records|] == records;
  }
}
