# Nut-allergy graph: construction and degree centrality

This project models the batch pipeline of a small Rust program. The program reads per-subject health
records and builds a directed bipartite graph. The graph has nine nut-allergy category nodes
(Peanut, Treenut, Walnut, Pecan, Pistachio, Almond, Brazil, Hazelnut and Cashew) and one individual
node per record. Each individual has an edge to every category whose onset marker (`_start` field)
is present in its record. The program then computes degree centrality:

- every individual's degree is added to a sum table and a member-count table in each of five
  demographic dimensions: gender, race, ethnicity, payer and atopic-march cohort (keyed
  `"true"`/`"false"`);
- seven of the categories (all but Brazil and Hazelnut) have their degree stored by name;
- the averages are each sum divided by its count, falling back to a count of 1.

Modules, one per file:

- `Records` (`records.dfy`) covers the input record, the category order and `get_allergy_start`.
- `Graph` (`graph.dfy`) holds the node and edge types and the class `DiGraph`. The class is an
  append-only store of nodes (`seq<NodeType>`) and edges (`seq<Edge>` of index pairs).
  `NeighborCount` is the count of outgoing edges, which is what iterating neighbours of a directed
  graph yields.
- `Builder` (`builder.dfy`) holds `CreateGraph`, the imperative nested loops over a `DiGraph`. It is
  proved equal to the reference definitions `BuiltNodes` and `BuiltEdges`.
- `BuilderFacts` (`builder_facts.dfy`) has the layout, edge-shape and degree facts of the built graph.
- `Centrality` (`centrality.dfy`) holds `CalculateCentrality`, an imperative loop that updates
  eleven tables in place. It is proved equal to the fold `Analyze`. `Averages` gives the quotients
  per key.
- `CentralityFacts` (`centrality_facts.dfy`) has the facts about `Analyze` on any graph: what each
  bucket holds, shared keys and totals.
- `Pipeline` (`pipeline.dfy`) covers `Run`, which builds then analyses. It restates the analysis of
  a built graph in terms of the records, and holds the worked examples and the finding below.

On the category degree, the code and the evident intent differ. A category's degree is naturally
the number of individuals diagnosed with it, meaning its incoming edges, and the program's Peanut-only
test record would then give Peanut 1. The code counts `neighbors`, and on a directed graph that
counts outgoing edges, so the stored value is always 0. The model follows the code, and the
discrepancy is logged under "## Findings".

## Model

| member | source | states |
|---|---|---|
| Records.GetAllergyStart | src/main.rs:97-110 | any name other than the nine category names gives None |
| Records.GetAllergyStartAt | src/main.rs:97-110 | each of the nine names selects the `_start` marker of its own category, in declaration order |
| Records.AllergiesDistinct | src/main.rs:63-66 | the nine category names are pairwise different, so each maps to a single node |
| Records.PresentUpTo | src/main.rs:85-91 | at most k of the first k markers are present |
| Graph.OutDegree | src/main.rs:133 | a node's outgoing-edge count is bounded by the edge count and is 0 exactly when no edge leaves it |
| Graph.InDegree | src/main.rs:147-151 | a node's incoming-edge count is bounded by the edge count and is 0 exactly when no edge enters it |
| Graph.OutDegreeAppend | src/main.rs:88 | out-degree adds up over concatenated edge lists |
| Graph.InDegreeAppend | src/main.rs:88 | in-degree adds up over concatenated edge lists |
| Graph.DiGraph.constructor | src/main.rs:59 | a new graph has no nodes and no edges |
| Graph.DiGraph.AddNode | src/main.rs:75-82 | appends the node, returns its index (the old node count) and leaves the edges alone |
| Graph.DiGraph.AddEdge | src/main.rs:88 | appends one edge between two existing nodes and leaves the nodes alone |
| Graph.DiGraph.NeighborCount | src/main.rs:133 | the neighbour count of v is 0 exactly when no edge leaves v, and never exceeds the edge count |
| Builder.CreateGraph | src/main.rs:58-94 | the result is a fresh, well-formed graph whose nodes are `BuiltNodes(records)` and whose edges are `BuiltEdges(records)` |
| BuilderFacts.NodeLayout | src/main.rs:63-83 | there are 9 + n nodes in all; nodes 0..8 are the nine categories in order, whatever the records, including none; node 9+i is the individual copied from record i, even when subject ids repeat; a node is a category exactly when its index is below 9 |
| BuilderFacts.EdgesForLength | src/main.rs:85-91 | a record yields one edge per present marker |
| BuilderFacts.EdgesForEnds | src/main.rs:85-91 | every edge of a record leaves its individual node and enters a category node |
| BuilderFacts.EdgesForSorted | src/main.rs:85-91 | a record's edges come in strictly increasing category order |
| BuilderFacts.EdgesForHas | src/main.rs:85-91 | an edge from an individual to category c exists exactly when marker c is present |
| BuilderFacts.EdgesForOutDegree | src/main.rs:85-91 | a record's edges give its individual out-degree equal to its present-marker count, and every other node 0 |
| BuilderFacts.EdgesForInDegree | src/main.rs:85-91 | a record's edges give category c in-degree 1 if marker c is present and 0 otherwise |
| BuilderFacts.EdgeSound | src/main.rs:85-91 | every edge goes from an individual node to a category node whose marker is present in that individual's record |
| BuilderFacts.EdgeComplete | src/main.rs:85-91 | every present marker of every record has its edge |
| BuilderFacts.EdgesDistinct | src/main.rs:85-91 | no edge is added twice: at most one edge per individual-category pair |
| BuilderFacts.IndividualOutDegree | src/main.rs:85-110 | individual 9+i has out-degree equal to the number of present `_start` markers of record i |
| BuilderFacts.CategoryOutDegree | src/main.rs:85-91 | no edge leaves a category node |
| BuilderFacts.EdgeCount | src/main.rs:85-91 | the edge count is the total number of present markers over all records |
| BuilderFacts.CategoryInDegree | src/main.rs:85-91 | category k's in-degree is the number of records with marker k present |
| CentralityFacts.VisitKeeps | src/main.rs:131-154 | visiting any node (the loop body) keeps a dimension's sum and count tables on the same keys, never drops or lowers a count, and adds category entries only for the seven analysed names |
| Centrality.CalculateCentrality | src/main.rs:113-155 | the eleven tables after the loop over all node indices are exactly `Analyze(nodes, edges)` |
| CentralityFacts.AddMemberAt | src/main.rs:135-145 | adding a member under k changes only the sum and count entries for k, creating missing ones at 0 and raising them by the degree and by 1 |
| CentralityFacts.BucketStep | src/main.rs:130-146 | visiting node n-1 grows a key's entries by one member of its degree when it is an individual with that key, and leaves them alone otherwise |
| CentralityFacts.BucketCount | src/main.rs:141-145 | a key has a count exactly when some individual so far has it, and the count is the number of such individuals |
| CentralityFacts.BucketSum | src/main.rs:135-139 | a key has a sum exactly when it has a count, and the sum is the total out-degree of the individuals with that key |
| CentralityFacts.BucketContents | src/main.rs:130-146 | in the finished tables, every key's count and sum are those member counts and degree totals |
| CentralityFacts.BucketKeys | src/main.rs:157-176 | the sum and count tables of a dimension have the same keys and no count is 0, so the `unwrap_or(&1)` fallback is never taken |
| Centrality.Averages | src/main.rs:157-176 | an average is reported for exactly the keys of the sum table; a key with no count is divided by 1 |
| CentralityFacts.AveragesOfAnalysis | src/main.rs:157-176 | a key's average is reported exactly when some individual has it, and equals their degree total over their number |
| CentralityFacts.SumValuesBump | src/main.rs:135-145 | raising one entry of a table by an amount raises the sum of all entries by that amount |
| CentralityFacts.BucketTotals | src/main.rs:130-146 | over all keys of a dimension, the counts add up to the number of individuals and the sums to their total out-degree |
| CentralityFacts.AllergyKeys | src/main.rs:147-151 | the category table only ever has entries for the seven analysed names |
| Pipeline.Run | src/main.rs:182-184 | building then analysing gives `Analyze(BuiltNodes(records), BuiltEdges(records))` |
| Pipeline.BuiltPrefixMembers | src/main.rs:73-146 | up to individual 9+i, bucket membership and degree sums are those of the first i records |
| Pipeline.BuiltPrefixTotals | src/main.rs:73-146 | up to individual 9+i there are i individuals, whose degrees total the first i records' present markers |
| Pipeline.BuiltBuckets | src/main.rs:130-146 | for the built graph, a key has a bucket exactly when some record has it; its count is the number of such records and its sum their total present markers |
| Pipeline.BuiltAverages | src/main.rs:157-176 | a key's reported average is its records' total present markers over their number, and only keys of some record are reported |
| Pipeline.BuiltTotals | src/main.rs:130-146 | per dimension, counts add up to the number of records and sums to the number of edges |
| Pipeline.CategoryTablePrefix | src/main.rs:147-151 | after the first n category nodes, the category table holds 0 for each analysed name among them and nothing else |
| Pipeline.IndividualTablePrefix | src/main.rs:132-146 | individual nodes leave the category table as it is |
| Pipeline.BuiltCategoryKeys | src/main.rs:126-151 | the category table of a built graph has exactly the seven analysed names as keys (never Brazil or Hazelnut), each mapped to 0 |
| Pipeline.BuiltCategoryTable | src/main.rs:126-151 | as one table: every analysed name maps to 0, and no other name is present |
| Pipeline.BuiltCategoryDegree | src/main.rs:149-150 | each category entry equals the outgoing-neighbour count of that category's node |
| Pipeline.EmptyInput | src/main.rs:58-155 | with no records the graph has 9 nodes and no edges, every bucket table is empty, and the seven analysed categories map to 0 |
| Pipeline.TwoMemberAverage | src/main.rs:157-159 | two same-gender individuals of degrees 1 and 3 give the only gender bucket, with average 4/2, which is exactly 2 |
| Pipeline.ThreeMemberAverage | src/main.rs:157-159 | same-gender members of degrees 2, 4 and 6 average 12/3, which is exactly 4 |
| Pipeline.SingleMemberAverage | src/main.rs:157-159 | a single member of degree 3 averages 3/1 |
| Pipeline.IntendedCategoryPrefix | src/main.rs:147-151 | after the first n category nodes, the intended table maps the analysed names among them to their diagnosed counts |
| Pipeline.IntendedTableOfBuilt | src/main.rs:147-151 | the intended category table has the seven analysed names as keys, each mapped to the number of records diagnosed with it |
| Pipeline.PeanutOnlyPresent | src/main.rs:196-229 | a Peanut-only record has exactly one present marker |
| Pipeline.PeanutAsWritten | src/main.rs:149-150 | for one Peanut-only record, the individual has degree 1 and Peanut has one incoming edge, yet the table stores 0 for Peanut |
| Pipeline.PeanutIntended | src/main.rs:147-151 | with the intended in-degree, that record gives Peanut 1 and every other analysed category 0 |

## Left out

- Reading the CSV file (`read_csv`) and serde deserialisation: this is file I/O through external crates. The model starts from a sequence of records.
- The entry point `main` and its hard-coded path. `Pipeline.Run` models its two calls after the read.
- All `println!` output, including the per-node degree line. The order in which the hash tables are iterated for printing is not modelled: it is unspecified and only affects presentation. `Averages` gives the printed quotients as one table per dimension.
- Floating point:
  - The unused age midpoint is left out.
  - Onset values are `Option<real>`, and only their presence is consulted.
  - Degree sums are natural numbers.
  - Averages: the f64 division is kept as an exact `Ratio(sum, count)` rather than a rounded float.
- Integer width: the i32 counts and f64 sums cannot overflow or lose precision in the model, which has unbounded integers. Node and edge indices are `nat`, so the model never fails where petgraph's default `u32` indices make `add_node`/`add_edge` panic once the node or edge count reaches the largest `u32`.
- `birth_year`, `age_start_years`, `age_end_years` and the nine `_end` fields: no result depends on them, so `Record` omits them. Line 74 reads the two ages, but only to compute the unused midpoint (see Floating point).
- The `individual_nodes` map: it is written but never read, and has no observable effect.
- petgraph internals: the graph is an explicit node sequence and edge list.
  - Node indices are insertion positions.
  - `node_indices()` is the range 0 .. node count.
  - An edge to a missing node is excluded by `AddEdge`'s precondition. The library instead panics on one, and the program never passes one.
- The `_ => {}` arm of the node match: it is unreachable, because `NodeType` has two variants.
- The category table is computed but never printed or returned by the program. The model returns it in `Report` so that it can be stated.
- The unit tests: the one that reads a file needs a real file. The non-emptiness checks of the others follow from `BuilderFacts.NodeLayout`. Their mock record is the Peanut-only record of `Pipeline.PeanutOnly`.

## Findings

| source | as written | input that shows it | evidently intended | confidence | as-written member | corrected member |
|---|---|---|---|---|---|---|
| src/main.rs:149 | a category's degree is `graph.neighbors(node).count()`, which on a directed graph counts outgoing edges; every edge goes from an individual to a category, so each analysed category stores 0 | one record with only the Peanut onset present (the program's own test record): Peanut stores 0 while one individual is diagnosed with it | the category degree counts incident (incoming) edges, i.e. the number of individuals diagnosed with it, so Peanut gets 1 | high, not executed | Pipeline.PeanutAsWritten | Pipeline.IntendedTableOfBuilt |
