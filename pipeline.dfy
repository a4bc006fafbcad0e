/** The whole pipeline: build the graph from the records, then analyse it.
    The facts here restate the analysis of the built graph in terms of the
    records themselves. */
module Pipeline {
  import opened Records
  import opened Graph
  import opened Builder
  import opened BuilderFacts
  import opened Centrality
  import opened CentralityFacts

  /** The records flow of the program's entry point, once they are read. */
  method Run(records: seq<Record>) returns (report: Report)
    ensures report == Analyze(BuiltNodes(records), BuiltEdges(records))
  {
    var graph := CreateGraph(records);
    report := CalculateCentrality(graph);
  }

  /** Number of records whose individual has key in dimension d. */
  function RecordsWithKey(records: seq<Record>, d: Dimension, key: string): nat
  {
    if records == [] then 0
    else RecordsWithKey(records[..|records| - 1], d, key)
         + (if Key(IndividualOf(records[|records| - 1]), d) == key then 1 else 0)
  }

  /** Total number of present onset markers of those records. */
  function DegreeWithKey(records: seq<Record>, d: Dimension, key: string): nat
  {
    if records == [] then 0
    else DegreeWithKey(records[..|records| - 1], d, key)
         + (if Key(IndividualOf(records[|records| - 1]), d) == key then PresentCount(records[|records| - 1]) else 0)
  }

  /** The nine category nodes contribute no member and no degree to a bucket. */
  lemma {:induction false} CategoryPrefixMembers(records: seq<Record>, d: Dimension, key: string, n: nat)
    requires n <= CategoryCount
    ensures MemberCount(BuiltNodes(records), d, key, n) == 0
    ensures DegreeSum(BuiltNodes(records), BuiltEdges(records), d, key, n) == 0
  {
    if n > 0 {
      CategoryPrefixMembers(records, d, key, n - 1);
      NodeLayout(records);
    }
  }

  /** The nine category nodes are not individuals. */
  lemma {:induction false} CategoryPrefixTotals(records: seq<Record>, n: nat)
    requires n <= CategoryCount
    ensures IndividualCount(BuiltNodes(records), n) == 0
    ensures IndividualDegreeTotal(BuiltNodes(records), BuiltEdges(records), n) == 0
  {
    if n > 0 {
      CategoryPrefixTotals(records, n - 1);
      NodeLayout(records);
    }
  }

  /** Up to individual 9 + i, bucket membership and degree are those of the
      first i records. */
  lemma {:induction false} BuiltPrefixMembers(records: seq<Record>, d: Dimension, key: string, i: nat)
    requires i <= |records|
    ensures MemberCount(BuiltNodes(records), d, key, CategoryCount + i) == RecordsWithKey(records[..i], d, key)
    ensures DegreeSum(BuiltNodes(records), BuiltEdges(records), d, key, CategoryCount + i)
            == DegreeWithKey(records[..i], d, key)
  {
    NodeLayout(records);
    if i == 0 {
      CategoryPrefixMembers(records, d, key, CategoryCount);
      assert records[..0] == [];
    } else {
      BuiltPrefixMembers(records, d, key, i - 1);
      IndividualOutDegree(records, i - 1);
      assert records[..i][..i - 1] == records[..i - 1];
    }
  }

  /** Up to individual 9 + i there are i individuals, with as many edges as
      the first i records have present markers. */
  lemma {:induction false} BuiltPrefixTotals(records: seq<Record>, i: nat)
    requires i <= |records|
    ensures IndividualCount(BuiltNodes(records), CategoryCount + i) == i
    ensures IndividualDegreeTotal(BuiltNodes(records), BuiltEdges(records), CategoryCount + i)
            == TotalPresent(records[..i])
  {
    NodeLayout(records);
    if i == 0 {
      CategoryPrefixTotals(records, CategoryCount);
      assert records[..0] == [];
    } else {
      BuiltPrefixTotals(records, i - 1);
      IndividualOutDegree(records, i - 1);
      assert records[..i][..i - 1] == records[..i - 1];
    }
  }

  /** For the built graph, a bucket exists exactly for the keys some record
      has; its count is the number of those records and its sum their total
      number of present onset markers. */
  lemma BuiltBuckets(records: seq<Record>, d: Dimension, key: string)
    ensures var b := Analyze(BuiltNodes(records), BuiltEdges(records)).Bucket(d);
      && (key in b.count <==> RecordsWithKey(records, d, key) > 0)
      && (key in b.sum <==> key in b.count)
      && (key in b.count ==> b.count[key] == RecordsWithKey(records, d, key)
                             && b.sum[key] == DegreeWithKey(records, d, key))
  {
    NodeLayout(records);
    BuiltPrefixMembers(records, d, key, |records|);
    assert records[..|records|] == records;
    BucketContents(BuiltNodes(records), BuiltEdges(records), d, key);
  }

  /** The reported average for a key is the number of present markers of
      the records with that key over the number of those records. */
  lemma BuiltAverages(records: seq<Record>, d: Dimension, key: string)
    ensures var avg := Averages(Analyze(BuiltNodes(records), BuiltEdges(records)).Bucket(d));
      && (key in avg <==> RecordsWithKey(records, d, key) > 0)
      && (key in avg ==> avg[key] == Ratio(DegreeWithKey(records, d, key), RecordsWithKey(records, d, key)))
  {
    BuiltBuckets(records, d, key);
  }

  /** Over all keys of a dimension, counts add up to the number of records
      and sums to the number of edges. */
  lemma BuiltTotals(records: seq<Record>, d: Dimension)
    ensures SumValues(Analyze(BuiltNodes(records), BuiltEdges(records)).Bucket(d).count) == |records|
    ensures SumValues(Analyze(BuiltNodes(records), BuiltEdges(records)).Bucket(d).sum) == |BuiltEdges(records)|
  {
    NodeLayout(records);
    BuiltPrefixTotals(records, |records|);
    assert records[..|records|] == records;
    BucketTotals(BuiltNodes(records), BuiltEdges(records), |BuiltNodes(records)|, d);
    EdgeCount(records);
  }

  /** After the first n category nodes, the category table holds 0 for each
      analysed name among the first n categories, and nothing else. */
  lemma {:induction false} CategoryTablePrefix(records: seq<Record>, n: nat)
    requires n <= CategoryCount
    ensures forall name ::
              name in AnalyzeUpTo(BuiltNodes(records), BuiltEdges(records), n).allergy
              <==> name in AnalyzedAllergies && name in Allergies[..n]
    ensures forall name :: name in AnalyzeUpTo(BuiltNodes(records), BuiltEdges(records), n).allergy ==>
              AnalyzeUpTo(BuiltNodes(records), BuiltEdges(records), n).allergy[name] == 0
  {
    if n > 0 {
      CategoryTablePrefix(records, n - 1);
      NodeLayout(records);
      CategoryOutDegree(records, n - 1);
      assert Allergies[..n] == Allergies[..n - 1] + [Allergies[n - 1]];
    }
  }

  /** Individual nodes leave the category table as it is. */
  lemma {:induction false} IndividualTablePrefix(records: seq<Record>, i: nat)
    requires i <= |records|
    ensures AnalyzeUpTo(BuiltNodes(records), BuiltEdges(records), CategoryCount + i).allergy
            == AnalyzeUpTo(BuiltNodes(records), BuiltEdges(records), CategoryCount).allergy
  {
    if i > 0 {
      IndividualTablePrefix(records, i - 1);
      NodeLayout(records);
    }
  }

  /** The category table of the built graph maps exactly the seven analysed
      names, each to 0: the out-degree of a category node. */
  lemma BuiltCategoryKeys(records: seq<Record>)
    ensures forall name :: name in Analyze(BuiltNodes(records), BuiltEdges(records)).allergy <==> name in AnalyzedAllergies
    ensures forall name :: name in Analyze(BuiltNodes(records), BuiltEdges(records)).allergy ==>
              Analyze(BuiltNodes(records), BuiltEdges(records)).allergy[name] == 0
  {
    NodeLayout(records);
    CategoryTablePrefix(records, CategoryCount);
    IndividualTablePrefix(records, |records|);
    assert Allergies[..CategoryCount] == Allergies;
  }

  /** The same, as one table. */
  lemma BuiltCategoryTable(records: seq<Record>)
    ensures Analyze(BuiltNodes(records), BuiltEdges(records)).allergy == map name | name in AnalyzedAllergies :: 0
  {
    BuiltCategoryKeys(records);
  }

  /** Each entry of the category table is the out-degree of that category's
      node. */
  lemma BuiltCategoryDegree(records: seq<Record>, k: nat)
    requires k < CategoryCount && Allergies[k] in AnalyzedAllergies
    ensures Allergies[k] in Analyze(BuiltNodes(records), BuiltEdges(records)).allergy
    ensures Analyze(BuiltNodes(records), BuiltEdges(records)).allergy[Allergies[k]]
            == OutDegree(BuiltEdges(records), k)
  {
    BuiltCategoryKeys(records);
    CategoryOutDegree(records, k);
  }

  /** With no records: nine nodes, no edges, empty bucket tables and a zero
      for each analysed category. */
  lemma EmptyInput()
    ensures |BuiltNodes([])| == CategoryCount && BuiltEdges([]) == []
    ensures forall d :: Analyze(BuiltNodes([]), BuiltEdges([])).Bucket(d) == NoBuckets
    ensures Analyze(BuiltNodes([]), BuiltEdges([])).allergy == map name | name in AnalyzedAllergies :: 0
  {
    BuiltCategoryTable([]);
    forall d ensures Analyze(BuiltNodes([]), BuiltEdges([])).Bucket(d) == NoBuckets {
      var b := Analyze(BuiltNodes([]), BuiltEdges([])).Bucket(d);
      forall key ensures key !in b.sum && key !in b.count {
        BuiltBuckets([], d, key);
      }
      assert b.sum == map[] && b.count == map[];
    }
  }

  /** Two individuals of the same gender with degrees 1 and 3: the gender
      bucket holds sum 4 over 2 members, an average of exactly 2, and no
      other gender is reported. */
  lemma TwoMemberAverage(r1: Record, r2: Record)
    requires r1.genderFactor == r2.genderFactor
    requires PresentCount(r1) == 1 && PresentCount(r2) == 3
    ensures var avg := Averages(Analyze(BuiltNodes([r1, r2]), BuiltEdges([r1, r2])).gender);
      && avg.Keys == {r1.genderFactor}
      && avg[r1.genderFactor] == Ratio(4, 2) && avg[r1.genderFactor].num == 2 * avg[r1.genderFactor].den
  {
    var records := [r1, r2];
    assert records[..1] == [r1];
    assert records[..1][..0] == [];
    var g := r1.genderFactor;
    var avg := Averages(Analyze(BuiltNodes(records), BuiltEdges(records)).gender);
    forall key ensures key in avg <==> key == g {
      assert RecordsWithKey([r1], Gender, key) == if key == g then 1 else 0;
      assert RecordsWithKey(records, Gender, key) == if key == g then 2 else 0;
      BuiltAverages(records, Gender, key);
    }
    assert DegreeWithKey([r1], Gender, g) == 1;
    assert DegreeWithKey(records, Gender, g) == 4;
    BuiltAverages(records, Gender, g);
  }

  /** Members of degrees 2, 4 and 6 average to exactly 4. */
  lemma ThreeMemberAverage(r1: Record, r2: Record, r3: Record)
    requires r1.genderFactor == r2.genderFactor == r3.genderFactor
    requires PresentCount(r1) == 2 && PresentCount(r2) == 4 && PresentCount(r3) == 6
    ensures var avg := Averages(Analyze(BuiltNodes([r1, r2, r3]), BuiltEdges([r1, r2, r3])).gender);
      && r1.genderFactor in avg
      && avg[r1.genderFactor] == Ratio(12, 3) && avg[r1.genderFactor].num == 4 * avg[r1.genderFactor].den
  {
    var records := [r1, r2, r3];
    assert records[..2] == [r1, r2];
    assert records[..2][..1] == [r1];
    assert records[..2][..1][..0] == [];
    var g := r1.genderFactor;
    assert RecordsWithKey([r1], Gender, g) == 1 && DegreeWithKey([r1], Gender, g) == 2;
    assert RecordsWithKey([r1, r2], Gender, g) == 2 && DegreeWithKey([r1, r2], Gender, g) == 6;
    assert RecordsWithKey(records, Gender, g) == 3 && DegreeWithKey(records, Gender, g) == 12;
    BuiltAverages(records, Gender, g);
  }

  /** A single member of degree 3 averages to exactly 3. */
  lemma SingleMemberAverage(r: Record)
    requires PresentCount(r) == 3
    ensures var avg := Averages(Analyze(BuiltNodes([r]), BuiltEdges([r])).gender);
      && r.genderFactor in avg && avg[r.genderFactor] == Ratio(3, 1)
  {
    assert [r][..0] == [];
    BuiltAverages([r], Gender, r.genderFactor);
  }

  /** The category table as evidently intended: each analysed
      category's number of incoming edges, that is, of diagnosed individuals. */
  function IntendedTableUpTo(nodes: seq<NodeType>, edges: seq<Edge>, n: nat): map<string, nat>
    requires n <= |nodes|
  {
    if n == 0 then map[]
    else
      var t := IntendedTableUpTo(nodes, edges, n - 1);
      match nodes[n - 1]
      case IndividualNode(_) => t
      case NutAllergyStatus(name) => if name in AnalyzedAllergies then t[name := InDegree(edges, n - 1)] else t
  }

  function IntendedTable(nodes: seq<NodeType>, edges: seq<Edge>): map<string, nat>
  {
    IntendedTableUpTo(nodes, edges, |nodes|)
  }

  /** After the first n category nodes, the intended table maps the analysed
      names among them to their diagnosed counts. */
  lemma {:induction false} IntendedCategoryPrefix(records: seq<Record>, n: nat)
    requires n <= CategoryCount
    ensures forall name :: name in IntendedTableUpTo(BuiltNodes(records), BuiltEdges(records), n)
              <==> name in AnalyzedAllergies && name in Allergies[..n]
    ensures forall k :: 0 <= k < n && Allergies[k] in AnalyzedAllergies ==>
              IntendedTableUpTo(BuiltNodes(records), BuiltEdges(records), n)[Allergies[k]] == DiagnosedCount(records, k)
  {
    if n > 0 {
      IntendedCategoryPrefix(records, n - 1);
      NodeLayout(records);
      AllergiesDistinct();
      CategoryInDegree(records, n - 1);
      assert Allergies[..n] == Allergies[..n - 1] + [Allergies[n - 1]];
    }
  }

  lemma {:induction false} IntendedIndividualPrefix(records: seq<Record>, i: nat)
    requires i <= |records|
    ensures IntendedTableUpTo(BuiltNodes(records), BuiltEdges(records), CategoryCount + i)
            == IntendedTableUpTo(BuiltNodes(records), BuiltEdges(records), CategoryCount)
  {
    if i > 0 {
      IntendedIndividualPrefix(records, i - 1);
      NodeLayout(records);
    }
  }

  /** The intended table of the built graph has the seven analysed names as
      keys, each mapped to the number of records diagnosed with it. */
  lemma IntendedTableOfBuilt(records: seq<Record>)
    ensures forall name :: name in IntendedTable(BuiltNodes(records), BuiltEdges(records)) <==> name in AnalyzedAllergies
    ensures forall k :: 0 <= k < CategoryCount && Allergies[k] in AnalyzedAllergies ==>
              IntendedTable(BuiltNodes(records), BuiltEdges(records))[Allergies[k]] == DiagnosedCount(records, k)
  {
    NodeLayout(records);
    IntendedCategoryPrefix(records, CategoryCount);
    IntendedIndividualPrefix(records, |records|);
    assert Allergies[..CategoryCount] == Allergies;
  }

  /** A record with the Peanut onset marker present and the other eight
      absent, as in the program's own test data. */
  predicate PeanutOnly(r: Record)
  {
    Starts(r)[0].Some? && forall k :: 1 <= k < CategoryCount ==> Starts(r)[k].None?
  }

  lemma {:induction false} PeanutOnlyPresent(r: Record, k: nat)
    requires PeanutOnly(r) && 1 <= k <= CategoryCount
    ensures PresentUpTo(r, k) == 1
  {
    if k > 1 {
      PeanutOnlyPresent(r, k - 1);
    }
  }

  /** As written, one Peanut-only record gives the individual degree 1 and
      the Peanut node one incoming edge, yet the table records 0 for Peanut. */
  lemma PeanutAsWritten(r: Record)
    requires PeanutOnly(r)
    ensures OutDegree(BuiltEdges([r]), CategoryCount) == 1
    ensures InDegree(BuiltEdges([r]), 0) == 1
    ensures "Peanut" in Analyze(BuiltNodes([r]), BuiltEdges([r])).allergy
    ensures Analyze(BuiltNodes([r]), BuiltEdges([r])).allergy["Peanut"] == 0
  {
    PeanutOnlyPresent(r, CategoryCount);
    IndividualOutDegree([r], 0);
    CategoryInDegree([r], 0);
    assert [r][..0] == [];
    BuiltCategoryKeys([r]);
  }

  /** With the intended in-degree, Peanut gets 1 and the other analysed
      categories 0. */
  lemma PeanutIntended(r: Record)
    requires PeanutOnly(r)
    ensures "Peanut" in IntendedTable(BuiltNodes([r]), BuiltEdges([r]))
    ensures IntendedTable(BuiltNodes([r]), BuiltEdges([r]))["Peanut"] == 1
    ensures forall k :: 1 <= k < CategoryCount && Allergies[k] in AnalyzedAllergies ==>
              Allergies[k] in IntendedTable(BuiltNodes([r]), BuiltEdges([r]))
              && IntendedTable(BuiltNodes([r]), BuiltEdges([r]))[Allergies[k]] == 0
  {
    IntendedTableOfBuilt([r]);
    assert [r][..0] == [];
    assert Allergies[0] == "Peanut" && DiagnosedCount([r], 0) == 1;
    forall k | 1 <= k < CategoryCount
      ensures DiagnosedCount([r], k) == 0
    {
      assert Starts(r)[k].None?;
    }
  }
}
