/** What the built graph looks like: node layout, edge shape and degrees. */
module BuilderFacts {
  import opened Records
  import opened Graph
  import opened Builder

  /** Total number of present onset markers over all records. */
  function TotalPresent(records: seq<Record>): nat
  {
    if records == [] then 0
    else TotalPresent(records[..|records| - 1]) + PresentCount(records[|records| - 1])
  }

  /** Number of records whose onset marker for category k is present. */
  function DiagnosedCount(records: seq<Record>, k: nat): nat
    requires k < CategoryCount
  {
    if records == [] then 0
    else DiagnosedCount(records[..|records| - 1], k)
         + (if Starts(records[|records| - 1])[k].Some? then 1 else 0)
  }

  /** Nodes 0 .. 8 are the nine categories in declared order, whatever the
      records; node 9 + i is the individual copied from record i, so there is
      one node per record even when subject identifiers repeat. */
  lemma NodeLayout(records: seq<Record>)
    ensures |BuiltNodes(records)| == CategoryCount + |records|
    ensures forall k :: 0 <= k < CategoryCount ==> BuiltNodes(records)[k] == NutAllergyStatus(Allergies[k])
    ensures forall i :: 0 <= i < |records| ==>
              BuiltNodes(records)[CategoryCount + i] == IndividualNode(IndividualOf(records[i]))
    ensures forall k :: 0 <= k < |BuiltNodes(records)| ==>
              (BuiltNodes(records)[k].NutAllergyStatus? <==> k < CategoryCount)
  {
  }

  /** One individual's edges number its present markers among the first k. */
  lemma {:induction false} EdgesForLength(r: Record, v: nat, k: nat)
    requires k <= CategoryCount
    ensures |EdgesFor(r, v, k)| == PresentUpTo(r, k)
  {
    if k > 0 {
      EdgesForLength(r, v, k - 1);
    }
  }

  /** One individual's edges all leave v and enter one of the first k categories. */
  lemma {:induction false} EdgesForEnds(r: Record, v: nat, k: nat)
    requires k <= CategoryCount
    ensures forall e :: e in EdgesFor(r, v, k) ==> e.src == v && e.dst < k
  {
    if k > 0 {
      EdgesForEnds(r, v, k - 1);
    }
  }

  /** One individual's edges enter their categories in increasing order. */
  lemma {:induction false} EdgesForSorted(r: Record, v: nat, k: nat)
    requires k <= CategoryCount
    ensures forall i, j :: 0 <= i < j < |EdgesFor(r, v, k)| ==>
              EdgesFor(r, v, k)[i].dst < EdgesFor(r, v, k)[j].dst
  {
    if k > 0 {
      var p := EdgesFor(r, v, k - 1);
      EdgesForSorted(r, v, k - 1);
      EdgesForEnds(r, v, k - 1);
      assert forall i :: 0 <= i < |p| ==> p[i] in p;
    }
  }

  /** v has an edge to category c < k exactly when marker c is present. */
  lemma {:induction false} EdgesForHas(r: Record, v: nat, k: nat)
    requires k <= CategoryCount
    ensures forall c :: 0 <= c < k ==> (Edge(v, c) in EdgesFor(r, v, k) <==> Starts(r)[c].Some?)
  {
    if k > 0 {
      var p := EdgesFor(r, v, k - 1);
      var q := if Starts(r)[k - 1].Some? then [Edge(v, k - 1)] else [];
      EdgesForHas(r, v, k - 1);
      EdgesForEnds(r, v, k - 1);
      assert EdgesFor(r, v, k) == p + q;
      forall c | 0 <= c < k ensures Edge(v, c) in p + q <==> Starts(r)[c].Some? {
        if c < k - 1 {
          assert Edge(v, c) !in q;
        } else {
          assert Edge(v, c) !in p;
        }
      }
    }
  }

  /** Out-degree of a node within one individual's edges. */
  lemma {:induction false} EdgesForOutDegree(r: Record, v: nat, k: nat, u: nat)
    requires k <= CategoryCount
    ensures OutDegree(EdgesFor(r, v, k), u) == if u == v then PresentUpTo(r, k) else 0
  {
    if k > 0 {
      var p := EdgesFor(r, v, k - 1);
      var q := if Starts(r)[k - 1].Some? then [Edge(v, k - 1)] else [];
      EdgesForOutDegree(r, v, k - 1, u);
      OutDegreeAppend(p, q, u);
      assert OutDegree(q, u) == if u == v && Starts(r)[k - 1].Some? then 1 else 0 by {
        if q != [] { assert q[..0] == []; }
      }
    }
  }

  /** In-degree of a category within one individual's edges. */
  lemma {:induction false} EdgesForInDegree(r: Record, v: nat, k: nat, c: nat)
    requires k <= CategoryCount && c < CategoryCount
    ensures InDegree(EdgesFor(r, v, k), c) == if c < k && Starts(r)[c].Some? then 1 else 0
  {
    if k > 0 {
      var p := EdgesFor(r, v, k - 1);
      var q := if Starts(r)[k - 1].Some? then [Edge(v, k - 1)] else [];
      EdgesForInDegree(r, v, k - 1, c);
      InDegreeAppend(p, q, c);
      assert InDegree(q, c) == if c == k - 1 && Starts(r)[k - 1].Some? then 1 else 0 by {
        if q != [] { assert q[..0] == []; }
      }
    }
  }

  /** Every edge leaves an individual node 9 + i and enters a category c
      whose onset marker is present in record i. */
  lemma {:induction false} EdgeSound(records: seq<Record>)
    ensures forall e :: e in BuiltEdges(records) ==>
              CategoryCount <= e.src < CategoryCount + |records| && e.dst < CategoryCount
              && Starts(records[e.src - CategoryCount])[e.dst].Some?
  {
    if records != [] {
      var n := |records| - 1;
      var prefix := records[..n];
      var p := BuiltEdges(prefix);
      var q := RecordEdges(records[n], CategoryCount + n);
      EdgeSound(prefix);
      EdgesForEnds(records[n], CategoryCount + n, CategoryCount);
      EdgesForHas(records[n], CategoryCount + n, CategoryCount);
      assert BuiltEdges(records) == p + q;
      forall e: Edge | e in p + q
        ensures CategoryCount <= e.src < CategoryCount + |records| && e.dst < CategoryCount
                && Starts(records[e.src - CategoryCount])[e.dst].Some?
      {
        if e in p {
          assert records[e.src - CategoryCount] == prefix[e.src - CategoryCount];
        } else {
          var j :| 0 <= j < |q| && q[j] == e;
          assert e == Edge(CategoryCount + n, e.dst);
        }
      }
    }
  }

  /** For every present onset marker c of record i there is an edge from
      individual 9 + i to category c. */
  lemma {:induction false} EdgeComplete(records: seq<Record>)
    ensures forall i, c :: 0 <= i < |records| && 0 <= c < CategoryCount && Starts(records[i])[c].Some? ==>
              Edge(CategoryCount + i, c) in BuiltEdges(records)
  {
    if records != [] {
      var n := |records| - 1;
      var prefix := records[..n];
      var p := BuiltEdges(prefix);
      var q := RecordEdges(records[n], CategoryCount + n);
      EdgeComplete(prefix);
      EdgesForHas(records[n], CategoryCount + n, CategoryCount);
      assert BuiltEdges(records) == p + q;
      forall i, c | 0 <= i < |records| && 0 <= c < CategoryCount && Starts(records[i])[c].Some?
        ensures Edge(CategoryCount + i, c) in p + q
      {
        if i < n {
          assert records[i] == prefix[i];
          assert Edge(CategoryCount + i, c) in p;
        } else {
          assert Edge(CategoryCount + i, c) in q;
        }
      }
    }
  }

  /** At most one edge per (individual, category) pair. */
  lemma {:induction false} EdgesDistinct(records: seq<Record>)
    ensures forall i, j :: 0 <= i < j < |BuiltEdges(records)| ==> BuiltEdges(records)[i] != BuiltEdges(records)[j]
  {
    if records != [] {
      var n := |records| - 1;
      var prefix := records[..n];
      var p := BuiltEdges(prefix);
      var q := RecordEdges(records[n], CategoryCount + n);
      EdgesDistinct(prefix);
      EdgeSound(prefix);
      EdgesForEnds(records[n], CategoryCount + n, CategoryCount);
      EdgesForSorted(records[n], CategoryCount + n, CategoryCount);
      assert BuiltEdges(records) == p + q;
      forall i, j | 0 <= i < j < |p + q| ensures (p + q)[i] != (p + q)[j] {
        if j >= |p| && i < |p| {
          assert p[i] in p;
        }
      }
    }
  }

  /** The out-degree of individual 9 + i is the number of present onset
      markers of record i; the end markers play no part. */
  lemma {:induction false} IndividualOutDegree(records: seq<Record>, i: nat)
    requires i < |records|
    ensures OutDegree(BuiltEdges(records), CategoryCount + i) == PresentCount(records[i])
  {
    var n := |records| - 1;
    var prefix := records[..n];
    var q := RecordEdges(records[n], CategoryCount + n);
    OutDegreeAppend(BuiltEdges(prefix), q, CategoryCount + i);
    EdgesForOutDegree(records[n], CategoryCount + n, CategoryCount, CategoryCount + i);
    if i < n {
      IndividualOutDegree(prefix, i);
    } else {
      EdgeSound(prefix);
      assert OutDegree(BuiltEdges(prefix), CategoryCount + i) == 0;
    }
  }

  /** No edge leaves a category node. */
  lemma CategoryOutDegree(records: seq<Record>, k: nat)
    requires k < CategoryCount
    ensures OutDegree(BuiltEdges(records), k) == 0
  {
    EdgeSound(records);
  }

  /** The edge count is the total number of present onset markers. */
  lemma {:induction false} EdgeCount(records: seq<Record>)
    ensures |BuiltEdges(records)| == TotalPresent(records)
  {
    if records != [] {
      var n := |records| - 1;
      EdgeCount(records[..n]);
      EdgesForLength(records[n], CategoryCount + n, CategoryCount);
    }
  }

  /** The in-degree of category k is the number of records diagnosed with it. */
  lemma {:induction false} CategoryInDegree(records: seq<Record>, k: nat)
    requires k < CategoryCount
    ensures InDegree(BuiltEdges(records), k) == DiagnosedCount(records, k)
  {
    if records != [] {
      var n := |records| - 1;
      CategoryInDegree(records[..n], k);
      InDegreeAppend(BuiltEdges(records[..n]), RecordEdges(records[n], CategoryCount + n), k);
      EdgesForInDegree(records[n], CategoryCount + n, CategoryCount, k);
    }
  }
}
