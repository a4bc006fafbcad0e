/** What the analysis tables hold for any graph: each bucket's count is the
    number of individuals with that key and its sum their total out-degree,
    the two tables of a dimension share their keys, and over all keys the
    counts and sums add up to the individual count and total degree. */
module CentralityFacts {
  import opened Graph
  import opened Centrality

  /** Number of individuals among nodes 0 .. n-1 whose key in d is key. */
  function MemberCount(nodes: seq<NodeType>, d: Dimension, key: string, n: nat): nat
    requires n <= |nodes|
  {
    if n == 0 then 0
    else MemberCount(nodes, d, key, n - 1)
         + (if nodes[n - 1].IndividualNode? && Key(nodes[n - 1].individual, d) == key then 1 else 0)
  }

  /** Total out-degree of those individuals. */
  function DegreeSum(nodes: seq<NodeType>, edges: seq<Edge>, d: Dimension, key: string, n: nat): nat
    requires n <= |nodes|
  {
    if n == 0 then 0
    else DegreeSum(nodes, edges, d, key, n - 1)
         + (if nodes[n - 1].IndividualNode? && Key(nodes[n - 1].individual, d) == key
            then OutDegree(edges, n - 1) else 0)
  }

  /** Number of individuals among nodes 0 .. n-1. */
  function IndividualCount(nodes: seq<NodeType>, n: nat): nat
    requires n <= |nodes|
  {
    if n == 0 then 0
    else IndividualCount(nodes, n - 1) + (if nodes[n - 1].IndividualNode? then 1 else 0)
  }

  /** Total out-degree of the individuals among nodes 0 .. n-1. */
  function IndividualDegreeTotal(nodes: seq<NodeType>, edges: seq<Edge>, n: nat): nat
    requires n <= |nodes|
  {
    if n == 0 then 0
    else IndividualDegreeTotal(nodes, edges, n - 1)
         + (if nodes[n - 1].IndividualNode? then OutDegree(edges, n - 1) else 0)
  }

  /** Sum of the values of a table. */
  ghost function SumValues(m: map<string, nat>): nat
    decreases |m|
  {
    if m == map[] then 0
    else
      var k :| k in m;
      m[k] + SumValues(m - {k})
  }

  /** The bucket table of dimension d after visiting one node. */
  lemma VisitBucket(rep: Report, node: NodeType, degree: nat, d: Dimension)
    ensures Visit(rep, node, degree).Bucket(d)
            == if node.IndividualNode? then AddMember(rep.Bucket(d), Key(node.individual, d), degree)
               else rep.Bucket(d)
  {
  }

  /** Visiting any node keeps the sum and count tables of a dimension on the
      same keys, never drops or lowers a count, and adds category entries
      only for analysed names. */
  lemma VisitKeeps(rep: Report, node: NodeType, degree: nat, d: Dimension)
    ensures var b := rep.Bucket(d); var b' := Visit(rep, node, degree).Bucket(d);
      && (b.sum.Keys == b.count.Keys ==> b'.sum.Keys == b'.count.Keys)
      && (forall key :: key in b.count ==> key in b'.count && b'.count[key] >= b.count[key])
    ensures forall name :: name in Visit(rep, node, degree).allergy ==> name in rep.allergy || name in AnalyzedAllergies
  {
    VisitBucket(rep, node, degree, d);
  }

  /** Adding one member under k changes only the entries for k. */
  lemma AddMemberAt(b: Buckets, k: string, degree: nat, key: string)
    ensures var b' := AddMember(b, k, degree);
      && (key in b'.count <==> key in b.count || key == k)
      && (key in b'.sum <==> key in b.sum || key == k)
      && (key in b'.count ==> b'.count[key] == (if key in b.count then b.count[key] else 0) + (if key == k then 1 else 0))
      && (key in b'.sum ==> b'.sum[key] == (if key in b.sum then b.sum[key] else 0) + (if key == k then degree else 0))
  {
  }

  /** What visiting node n-1 does to the entries for key in dimension d:
      they grow by one member of its degree when it is an individual with
      that key, and stay as they were otherwise. */
  lemma BucketStep(nodes: seq<NodeType>, edges: seq<Edge>, n: nat, d: Dimension, key: string)
    requires 0 < n <= |nodes|
    ensures var b := AnalyzeUpTo(nodes, edges, n).Bucket(d);
      var b0 := AnalyzeUpTo(nodes, edges, n - 1).Bucket(d);
      var hit := nodes[n - 1].IndividualNode? && Key(nodes[n - 1].individual, d) == key;
      && (key in b.count <==> key in b0.count || hit)
      && (key in b.sum <==> key in b0.sum || hit)
      && (key in b.count ==> b.count[key] == (if key in b0.count then b0.count[key] else 0) + (if hit then 1 else 0))
      && (key in b.sum ==> b.sum[key] == (if key in b0.sum then b0.sum[key] else 0)
                                         + (if hit then OutDegree(edges, n - 1) else 0))
  {
    var prev := AnalyzeUpTo(nodes, edges, n - 1);
    VisitBucket(prev, nodes[n - 1], OutDegree(edges, n - 1), d);
    if nodes[n - 1].IndividualNode? {
      AddMemberAt(prev.Bucket(d), Key(nodes[n - 1].individual, d), OutDegree(edges, n - 1), key);
    }
  }

  /** A key is in a count table exactly when some individual has it, and its
      count is the number of those individuals; so every count is at least 1. */
  lemma {:induction false} BucketCount(nodes: seq<NodeType>, edges: seq<Edge>, n: nat, d: Dimension, key: string)
    requires n <= |nodes|
    ensures var b := AnalyzeUpTo(nodes, edges, n).Bucket(d);
      && (key in b.count <==> MemberCount(nodes, d, key, n) > 0)
      && (key in b.count ==> b.count[key] == MemberCount(nodes, d, key, n))
  {
    if n > 0 {
      BucketCount(nodes, edges, n - 1, d, key);
      BucketStep(nodes, edges, n, d, key);
    }
  }

  /** A key is in a sum table exactly when it is in the count table, and its
      sum is the total out-degree of the individuals that have it. */
  lemma {:induction false} BucketSum(nodes: seq<NodeType>, edges: seq<Edge>, n: nat, d: Dimension, key: string)
    requires n <= |nodes|
    ensures var b := AnalyzeUpTo(nodes, edges, n).Bucket(d);
      && (key in b.sum <==> key in b.count)
      && (key in b.sum ==> b.sum[key] == DegreeSum(nodes, edges, d, key, n))
      && (key !in b.sum ==> DegreeSum(nodes, edges, d, key, n) == 0)
  {
    if n > 0 {
      BucketSum(nodes, edges, n - 1, d, key);
      BucketStep(nodes, edges, n, d, key);
    }
  }

  /** Both of the above for the finished tables. */
  lemma BucketContents(nodes: seq<NodeType>, edges: seq<Edge>, d: Dimension, key: string)
    ensures var b := Analyze(nodes, edges).Bucket(d);
      && (key in b.count <==> MemberCount(nodes, d, key, |nodes|) > 0)
      && (key in b.sum <==> key in b.count)
      && (key in b.count ==> b.count[key] == MemberCount(nodes, d, key, |nodes|)
                             && b.sum[key] == DegreeSum(nodes, edges, d, key, |nodes|))
  {
    BucketCount(nodes, edges, |nodes|, d, key);
    BucketSum(nodes, edges, |nodes|, d, key);
  }

  /** The sum table and the count table of a dimension have the same keys,
      and no count is 0, so the fallback count of 1 is never needed. */
  lemma BucketKeys(nodes: seq<NodeType>, edges: seq<Edge>, d: Dimension)
    ensures var b := Analyze(nodes, edges).Bucket(d);
      b.sum.Keys == b.count.Keys && forall key :: key in b.count ==> b.count[key] >= 1
  {
    var b := Analyze(nodes, edges).Bucket(d);
    forall key
      ensures (key in b.sum <==> key in b.count) && (key in b.count ==> b.count[key] >= 1)
    {
      BucketContents(nodes, edges, d, key);
    }
  }

  /** The reported average of a key is its members' total degree over their
      number; keys with no member are not reported. */
  lemma AveragesOfAnalysis(nodes: seq<NodeType>, edges: seq<Edge>, d: Dimension, key: string)
    ensures var avg := Averages(Analyze(nodes, edges).Bucket(d));
      && (key in avg <==> MemberCount(nodes, d, key, |nodes|) > 0)
      && (key in avg ==> avg[key] == Ratio(DegreeSum(nodes, edges, d, key, |nodes|),
                                           MemberCount(nodes, d, key, |nodes|)))
  {
    BucketContents(nodes, edges, d, key);
  }

  lemma {:induction false} SumValuesRemove(m: map<string, nat>, k: string)
    requires k in m
    ensures SumValues(m) == m[k] + SumValues(m - {k})
    decreases |m|
  {
    var j :| j in m && SumValues(m) == m[j] + SumValues(m - {j});
    if j != k {
      SumValuesRemove(m - {j}, k);
      SumValuesRemove(m - {k}, j);
      assert m - {j} - {k} == m - {k} - {j};
    }
  }

  /** Adding an amount to one entry adds it to the table's total. */
  lemma SumValuesBump(m: map<string, nat>, key: string, amount: nat)
    ensures SumValues(Bump(m, key, amount)) == SumValues(m) + amount
  {
    var m' := Bump(m, key, amount);
    SumValuesRemove(m', key);
    assert m' - {key} == m - {key};
    if key in m {
      SumValuesRemove(m, key);
    } else {
      assert m - {key} == m;
    }
  }

  /** Over all keys of a dimension, the counts add up to the number of
      individuals and the sums to their total out-degree. */
  lemma {:induction false} BucketTotals(nodes: seq<NodeType>, edges: seq<Edge>, n: nat, d: Dimension)
    requires n <= |nodes|
    ensures SumValues(AnalyzeUpTo(nodes, edges, n).Bucket(d).count) == IndividualCount(nodes, n)
    ensures SumValues(AnalyzeUpTo(nodes, edges, n).Bucket(d).sum) == IndividualDegreeTotal(nodes, edges, n)
  {
    if n > 0 {
      var b := AnalyzeUpTo(nodes, edges, n - 1).Bucket(d);
      BucketTotals(nodes, edges, n - 1, d);
      VisitBucket(AnalyzeUpTo(nodes, edges, n - 1), nodes[n - 1], OutDegree(edges, n - 1), d);
      if nodes[n - 1].IndividualNode? {
        var key := Key(nodes[n - 1].individual, d);
        SumValuesBump(b.count, key, 1);
        SumValuesBump(b.sum, key, OutDegree(edges, n - 1));
      }
    }
  }

  /** The category table only ever has entries for the seven analysed names. */
  lemma {:induction false} AllergyKeys(nodes: seq<NodeType>, edges: seq<Edge>, n: nat)
    requires n <= |nodes|
    ensures forall name :: name in AnalyzeUpTo(nodes, edges, n).allergy ==> name in AnalyzedAllergies
  {
    if n > 0 {
      AllergyKeys(nodes, edges, n - 1);
    }
  }
}
