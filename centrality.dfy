/** Degree aggregation over the graph: every individual's degree is added to
    a sum and a member count in five demographic bucket tables, and the
    degree of each analysed category node is stored by name. */
module Centrality {
  import opened Graph

  /** The five demographic dimensions an individual is bucketed by. */
  datatype Dimension = Gender | Race | Ethnicity | Payer | Cohort

  /** The bucket key of an individual in a dimension; the cohort flag is
      rendered as the text of the boolean. */
  function Key(ind: Individual, d: Dimension): string
  {
    match d
    case Gender => ind.gender
    case Race => ind.race
    case Ethnicity => ind.ethnicity
    case Payer => ind.payerFactor
    case Cohort => BoolText(ind.atopicMarchCohort)
  }

  /** The text of a boolean, as its string conversion renders it. */
  function BoolText(b: bool): string
  {
    if b then "true" else "false"
  }

  /** One dimension's pair of tables: degree sum and member count per key. */
  datatype Buckets = Buckets(sum: map<string, nat>, count: map<string, nat>)

  const NoBuckets: Buckets := Buckets(map[], map[])

  /** The categories whose degree is recorded: all but Brazil and Hazelnut. */
  const AnalyzedAllergies: seq<string> :=
    ["Peanut", "Treenut", "Walnut", "Pecan", "Pistachio", "Almond", "Cashew"]

  /** The eleven tables the analysis fills. */
  datatype Report = Report(
    gender: Buckets,
    race: Buckets,
    ethnicity: Buckets,
    payer: Buckets,
    cohort: Buckets,
    allergy: map<string, nat>)
  {
    function Bucket(d: Dimension): Buckets
    {
      match d
      case Gender => gender
      case Race => race
      case Ethnicity => ethnicity
      case Payer => payer
      case Cohort => cohort
    }
  }

  const EmptyReport: Report := Report(NoBuckets, NoBuckets, NoBuckets, NoBuckets, NoBuckets, map[])

  /** Adds `amount` to the entry for key, starting a missing entry at 0. */
  function Bump(m: map<string, nat>, key: string, amount: nat): map<string, nat>
  {
    m[key := (if key in m then m[key] else 0) + amount]
  }

  /** Adds one member of the given degree to the bucket for key. */
  function AddMember(b: Buckets, key: string, degree: nat): Buckets
  {
    Buckets(Bump(b.sum, key, degree), Bump(b.count, key, 1))
  }

  /** The effect of visiting one node whose out-degree is `degree`. */
  function Visit(rep: Report, node: NodeType, degree: nat): Report
  {
    match node
    case IndividualNode(ind) =>
      Report(AddMember(rep.gender, Key(ind, Gender), degree),
             AddMember(rep.race, Key(ind, Race), degree),
             AddMember(rep.ethnicity, Key(ind, Ethnicity), degree),
             AddMember(rep.payer, Key(ind, Payer), degree),
             AddMember(rep.cohort, Key(ind, Cohort), degree),
             rep.allergy)
    case NutAllergyStatus(name) =>
      if name in AnalyzedAllergies then rep.(allergy := rep.allergy[name := degree]) else rep
  }

  /** The tables after visiting nodes 0 .. n-1 in index order. */
  function AnalyzeUpTo(nodes: seq<NodeType>, edges: seq<Edge>, n: nat): Report
    requires n <= |nodes|
  {
    if n == 0 then EmptyReport
    else Visit(AnalyzeUpTo(nodes, edges, n - 1), nodes[n - 1], OutDegree(edges, n - 1))
  }

  /** The tables after visiting every node. */
  function Analyze(nodes: seq<NodeType>, edges: seq<Edge>): Report
  {
    AnalyzeUpTo(nodes, edges, |nodes|)
  }

  /** An average as an exact quotient num / den. */
  datatype Ratio = Ratio(num: int, den: int)

  /** The reported average per key of a bucket table: its degree sum over its
      member count, with a count of 1 assumed for a key that has none. */
  function Averages(b: Buckets): (avg: map<string, Ratio>)
    ensures avg.Keys == b.sum.Keys
    ensures forall key :: key in b.sum && key !in b.count ==> avg[key] == Ratio(b.sum[key], 1)
  {
    map key | key in b.sum :: Ratio(b.sum[key], if key in b.count then b.count[key] else 1)
  }

  /** Visiting an individual updates each of the ten bucket tables by one
      entry and leaves the category table alone. */
  lemma VisitIndividual(rep: Report, node: NodeType, degree: nat)
    ensures node.IndividualNode? ==> var ind := node.individual; var r := Visit(rep, node, degree);
      && r.gender.sum == Bump(rep.gender.sum, ind.gender, degree)
      && r.gender.count == Bump(rep.gender.count, ind.gender, 1)
      && r.race.sum == Bump(rep.race.sum, ind.race, degree)
      && r.race.count == Bump(rep.race.count, ind.race, 1)
      && r.ethnicity.sum == Bump(rep.ethnicity.sum, ind.ethnicity, degree)
      && r.ethnicity.count == Bump(rep.ethnicity.count, ind.ethnicity, 1)
      && r.payer.sum == Bump(rep.payer.sum, ind.payerFactor, degree)
      && r.payer.count == Bump(rep.payer.count, ind.payerFactor, 1)
      && r.cohort.sum == Bump(rep.cohort.sum, BoolText(ind.atopicMarchCohort), degree)
      && r.cohort.count == Bump(rep.cohort.count, BoolText(ind.atopicMarchCohort), 1)
      && r.allergy == rep.allergy
  {
  }

  /** Models calculate_centrality: one pass over the node indices, updating
      the tables in place. */
  method CalculateCentrality(graph: DiGraph) returns (report: Report)
    ensures report == Analyze(graph.nodes, graph.edges)
  {
    var genderCentrality: map<string, nat>, raceCentrality: map<string, nat>,
      ethnicityCentrality: map<string, nat>, payerCentrality: map<string, nat>,
      cohortCentrality: map<string, nat> := map[], map[], map[], map[], map[];
    var allergyCentrality: map<string, nat> := map[];
    var genderCounts: map<string, nat>, raceCounts: map<string, nat>,
      ethnicityCounts: map<string, nat>, payerCounts: map<string, nat>,
      cohortCounts: map<string, nat> := map[], map[], map[], map[], map[];
    for node := 0 to |graph.nodes|
      invariant var so_far := AnalyzeUpTo(graph.nodes, graph.edges, node);
        && genderCentrality == so_far.gender.sum && genderCounts == so_far.gender.count
        && raceCentrality == so_far.race.sum && raceCounts == so_far.race.count
        && ethnicityCentrality == so_far.ethnicity.sum && ethnicityCounts == so_far.ethnicity.count
        && payerCentrality == so_far.payer.sum && payerCounts == so_far.payer.count
        && cohortCentrality == so_far.cohort.sum && cohortCounts == so_far.cohort.count
        && allergyCentrality == so_far.allergy
    {
      VisitIndividual(AnalyzeUpTo(graph.nodes, graph.edges, node), graph.nodes[node], OutDegree(graph.edges, node));
      match graph.nodes[node]
      case IndividualNode(individual) =>
        var degree := graph.NeighborCount(node);
        var cohort := BoolText(individual.atopicMarchCohort);
        genderCentrality := Bump(genderCentrality, individual.gender, degree);
        raceCentrality := Bump(raceCentrality, individual.race, degree);
        ethnicityCentrality := Bump(ethnicityCentrality, individual.ethnicity, degree);
        payerCentrality := Bump(payerCentrality, individual.payerFactor, degree);
        cohortCentrality := Bump(cohortCentrality, cohort, degree);
        genderCounts := Bump(genderCounts, individual.gender, 1);
        raceCounts := Bump(raceCounts, individual.race, 1);
        ethnicityCounts := Bump(ethnicityCounts, individual.ethnicity, 1);
        payerCounts := Bump(payerCounts, individual.payerFactor, 1);
        cohortCounts := Bump(cohortCounts, cohort, 1);
      case NutAllergyStatus(allergyStatus) =>
        if allergyStatus in AnalyzedAllergies {
          var degree := graph.NeighborCount(node);
          allergyCentrality := allergyCentrality[allergyStatus := degree];
        }
    }
    report := Report(Buckets(genderCentrality, genderCounts), Buckets(raceCentrality, raceCounts),
                     Buckets(ethnicityCentrality, ethnicityCounts), Buckets(payerCentrality, payerCounts),
                     Buckets(cohortCentrality, cohortCounts), allergyCentrality);
  }
}
