/** Input records: one row per subject, with five demographic attributes and
    nine optional allergy onset markers. Only the presence of a marker is ever
    consulted; its numeric value is carried along untouched. */
module Records {

  datatype Option<+T> = None | Some(value: T)

  /** The fields of a record that the graph pipeline reads. Each `...Start`
      field is the onset marker for one nut-allergy category. */
  datatype Record = Record(
    subjectId: string,
    genderFactor: string,
    raceFactor: string,
    ethnicityFactor: string,
    payerFactor: string,
    atopicMarchCohort: bool,
    peanutAlgStart: Option<real>,
    treenutAlgStart: Option<real>,
    walnutAlgStart: Option<real>,
    pecanAlgStart: Option<real>,
    pistachAlgStart: Option<real>,
    almondAlgStart: Option<real>,
    brazilAlgStart: Option<real>,
    hazelnutAlgStart: Option<real>,
    cashewAlgStart: Option<real>)

  /** The nine allergy categories, in the order in which the graph creates
      their nodes and tests each record's markers. */
  const Allergies: seq<string> :=
    ["Peanut", "Treenut", "Walnut", "Pecan", "Pistachio", "Almond", "Brazil",
     "Hazelnut", "Cashew"]

  const CategoryCount: nat := 9

  /** The nine onset markers of a record, position k belonging to Allergies[k]. */
  function Starts(r: Record): (s: seq<Option<real>>)
    ensures |s| == |Allergies| == CategoryCount
  {
    [r.peanutAlgStart, r.treenutAlgStart, r.walnutAlgStart, r.pecanAlgStart,
     r.pistachAlgStart, r.almondAlgStart, r.brazilAlgStart, r.hazelnutAlgStart,
     r.cashewAlgStart]
  }

  /** The onset marker that belongs to a category name, or None for a name
      that is not one of the nine. */
  function GetAllergyStart(r: Record, allergy: string): (o: Option<real>)
    ensures allergy !in Allergies ==> o == None
  {
    match allergy
    case "Peanut" => r.peanutAlgStart
    case "Treenut" => r.treenutAlgStart
    case "Walnut" => r.walnutAlgStart
    case "Pecan" => r.pecanAlgStart
    case "Pistachio" => r.pistachAlgStart
    case "Almond" => r.almondAlgStart
    case "Brazil" => r.brazilAlgStart
    case "Hazelnut" => r.hazelnutAlgStart
    case "Cashew" => r.cashewAlgStart
    case _ => None
  }

  /** Each of the nine names selects the marker at its own position. */
  lemma GetAllergyStartAt(r: Record, k: nat)
    requires k < CategoryCount
    ensures GetAllergyStart(r, Allergies[k]) == Starts(r)[k]
  {
  }

  /** The nine category names are pairwise different. */
  lemma AllergiesDistinct()
    ensures forall i, j :: 0 <= i < j < |Allergies| ==> Allergies[i] != Allergies[j]
  {
  }

  /** Number of the first k onset markers of r that are present. */
  function PresentUpTo(r: Record, k: nat): (c: nat)
    requires k <= CategoryCount
    ensures c <= k
  {
    if k == 0 then 0
    else PresentUpTo(r, k - 1) + (if Starts(r)[k - 1].Some? then 1 else 0)
  }

  /** Number of onset markers of r that are present. */
  function PresentCount(r: Record): nat
  {
    PresentUpTo(r, CategoryCount)
  }
}
