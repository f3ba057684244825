/**
 * The comprehensive blood-donation report (`/api/visualize/blood-data`):
 * which panels are produced, in which order, and what each one draws.
 *
 * The request's records become a table whose columns are the union of the
 * records' keys; a record without a key has a missing value (NaN) in that
 * column. A field is "present" when at least one record has it.
 */
module BloodData {

  import opened Common
  import opened Charts

  /** One record of the request's `data` list. */
  type Record = map<string, real>

  /** The fields drawn in the 2x2 histogram grid, cell by cell, and their
      colours. */
  const Fields: seq<string> := ["recency", "frequency", "monetary", "time"]
  const FieldColors: seq<string> := [Blue, Green, Amber, Purple]

  /** `df[field]`: one value per record, missing where the record lacks the
      field. */
  function Column(records: seq<Record>, field: string): (col: seq<Option<real>>)
    ensures |col| == |records|
    ensures forall i :: 0 <= i < |records| ==>
      (col[i].Some? <==> field in records[i]) && (col[i].Some? ==> col[i].value == records[i][field])
  {
    seq(|records|, i requires 0 <= i < |records| =>
      if field in records[i] then Some(records[i][field]) else None)
  }

  /** `field in df.columns`: the table has a column for every key of some
      record, so the field is present exactly when its column holds a
      value somewhere. */
  predicate Present(records: seq<Record>, field: string) {
    exists i :: 0 <= i < |records| && field in records[i]
  }

  /** `field in df.columns` exactly when the column of the field holds a
      value for some record. */
  lemma PresentIffColumnHasValue(records: seq<Record>, field: string)
    ensures Present(records, field) <==> exists i :: 0 <= i < |records| && Column(records, field)[i].Some?
  {
    var col := Column(records, field);
    assert forall i :: 0 <= i < |records| ==> (col[i].Some? <==> field in records[i]);
  }

  /** A column of a selection of records is the selection of the column. */
  lemma ColumnOfPick(records: seq<Record>, ps: seq<nat>, field: string)
    requires forall k :: 0 <= k < |ps| ==> ps[k] < |records|
    ensures Column(Pick(records, ps), field) == Pick(Column(records, field), ps)
  {
  }

  // ---------------------------------------------------------------------
  // Class counts
  // ---------------------------------------------------------------------

  predicate HasClass(r: Record, c: real) {
    "class" in r && r["class"] == c
  }

  /** The positions of the records of class c, in increasing order. */
  function ClassPositions(records: seq<Record>, c: real): (ps: seq<nat>)
    ensures forall k :: 0 <= k < |ps| ==> ps[k] < |records|
  {
    Positions(Column(records, "class"), Some(c))
  }

  /** `df[df['class'] == c]`: the records of class c, in order. Records
      without a class never match. */
  function WithClass(records: seq<Record>, c: real): (rs: seq<Record>)
    ensures rs == Pick(records, ClassPositions(records, c))
  {
    if records == [] then []
    else
      var n := |records| - 1;
      var last := records[n];
      var init := records[..n];
      assert Column(init, "class") == Column(records, "class")[..n];
      assert HasClass(last, c) <==> Column(records, "class")[n] == Some(c);
      assert Pick(init, ClassPositions(init, c)) == Pick(records, ClassPositions(init, c));
      WithClass(init, c) + (if HasClass(last, c) then [last] else [])
  }

  /** The records picked for class c are exactly those of class c. */
  lemma WithClassIsClassC(records: seq<Record>, c: real)
    ensures forall k :: 0 <= k < |WithClass(records, c)| ==> HasClass(WithClass(records, c)[k], c)
    ensures forall i :: 0 <= i < |records| && HasClass(records[i], c) ==> i in ClassPositions(records, c)
    ensures |WithClass(records, c)| == Count(Column(records, "class"), Some(c))
  {
    var col := Column(records, "class");
    PositionsAreTheMatches(col, Some(c));
    assert forall i :: 0 <= i < |records| ==> (HasClass(records[i], c) <==> col[i] == Some(c));
  }

  /** `value_counts().get(c, 0)` */
  function ClassCount(records: seq<Record>, c: real): nat {
    |WithClass(records, c)|
  }

  /** The two bar heights of the class-distribution panel: how many records
      have class 0 (non-return donors), then how many have class 1. */
  function ClassBarValues(records: seq<Record>): (values: seq<nat>)
    ensures values == [Count(Column(records, "class"), Some(0.0)), Count(Column(records, "class"), Some(1.0))]
  {
    WithClassIsClassC(records, 0.0);
    WithClassIsClassC(records, 1.0);
    [ClassCount(records, 0.0), ClassCount(records, 1.0)]
  }

  /** `sum(values)`, the divisor of the percentage labels. */
  function ClassTotal(records: seq<Record>): nat {
    ClassCount(records, 0.0) + ClassCount(records, 1.0)
  }

  /** Each record is counted at most once across the two classes, so the
      total never exceeds the number of records. */
  lemma {:induction false} ClassTotalBounded(records: seq<Record>)
    ensures ClassTotal(records) <= |records|
  {
    if records != [] {
      ClassTotalBounded(records[..|records| - 1]);
    }
  }

  /** The total is zero exactly when no record has class 0 or class 1; the
      percentage step then divides by zero. */
  lemma ClassTotalZero(records: seq<Record>)
    ensures ClassTotal(records) == 0 <==>
      forall i :: 0 <= i < |records| ==> !HasClass(records[i], 0.0) && !HasClass(records[i], 1.0)
  {
    var col := Column(records, "class");
    WithClassIsClassC(records, 0.0);
    WithClassIsClassC(records, 1.0);
    PositionsAreTheMatches(col, Some(0.0));
    PositionsAreTheMatches(col, Some(1.0));
    assert forall i :: 0 <= i < |records| ==>
      (HasClass(records[i], 0.0) <==> col[i] == Some(0.0)) && (HasClass(records[i], 1.0) <==> col[i] == Some(1.0));
  }

  // ---------------------------------------------------------------------
  // Panels
  // ---------------------------------------------------------------------

  datatype Panel =
    | HistogramsPanel          // the 2x2 grid of field histograms
    | FrequencyMonetaryPanel   // scatter of frequency vs monetary, by class
    | ClassDistributionPanel   // bar chart of the class counts
    | RecencyFrequencyPanel    // scatter of recency vs frequency

  /** Position of a panel in the report. */
  function Rank(p: Panel): nat {
    match p
    case HistogramsPanel => 0
    case FrequencyMonetaryPanel => 1
    case ClassDistributionPanel => 2
    case RecencyFrequencyPanel => 3
  }

  /** The `save_figure` prefix of each panel. */
  function PanelPrefix(p: Panel): string {
    match p
    case HistogramsPanel => "blood_histograms"
    case FrequencyMonetaryPanel => "frequency_vs_monetary"
    case ClassDistributionPanel => "class_distribution"
    case RecencyFrequencyPanel => "recency_vs_frequency"
  }

  /** Distinct panels are saved under distinct prefixes. */
  lemma PanelPrefixInjective(p: Panel, q: Panel)
    requires PanelPrefix(p) == PanelPrefix(q)
    ensures p == q
  {
  }

  predicate ShowsFrequencyMonetary(records: seq<Record>) {
    Present(records, "frequency") && Present(records, "monetary") && Present(records, "class")
  }

  predicate ShowsClassDistribution(records: seq<Record>) {
    Present(records, "class")
  }

  predicate ShowsRecencyFrequency(records: seq<Record>) {
    Present(records, "recency") && Present(records, "frequency")
  }

  /** Panels in strictly increasing report order (so none twice). */
  predicate InReportOrder(plan: seq<Panel>) {
    forall i, j :: 0 <= i < j < |plan| ==> Rank(plan[i]) < Rank(plan[j])
  }

  /** The panels the report emits, in order. */
  function PlannedPanels(records: seq<Record>): (plan: seq<Panel>)
    ensures 1 <= |plan| <= 4
    ensures plan[0] == HistogramsPanel
    ensures InReportOrder(plan)
    ensures FrequencyMonetaryPanel in plan <==> ShowsFrequencyMonetary(records)
    ensures ClassDistributionPanel in plan <==> ShowsClassDistribution(records)
    ensures RecencyFrequencyPanel in plan <==> ShowsRecencyFrequency(records)
  {
    [HistogramsPanel]
    + (if ShowsFrequencyMonetary(records) then [FrequencyMonetaryPanel] else [])
    + (if ShowsClassDistribution(records) then [ClassDistributionPanel] else [])
    + (if ShowsRecencyFrequency(records) then [RecencyFrequencyPanel] else [])
  }

  /** Whether the report emits panel p for these records. */
  predicate Shows(records: seq<Record>, p: Panel) {
    match p
    case HistogramsPanel => true
    case FrequencyMonetaryPanel => ShowsFrequencyMonetary(records)
    case ClassDistributionPanel => ShowsClassDistribution(records)
    case RecencyFrequencyPanel => ShowsRecencyFrequency(records)
  }

  function PanelOfRank(k: nat): (p: Panel)
    requires k < 4
    ensures Rank(p) == k
  {
    if k == 0 then HistogramsPanel
    else if k == 1 then FrequencyMonetaryPanel
    else if k == 2 then ClassDistributionPanel
    else RecencyFrequencyPanel
  }

  /** The panels of rank below k that the report emits: the list as it
      stands once the first k conditional appends have run. */
  function PanelsBefore(records: seq<Record>, k: nat): (plan: seq<Panel>)
    requires k <= 4
    ensures |plan| <= k
  {
    if k == 0 then []
    else PanelsBefore(records, k - 1) + (if Shows(records, PanelOfRank(k - 1)) then [PanelOfRank(k - 1)] else [])
  }

  /** Each stage of the appends is a prefix of the final list, and after
      the fourth the list is complete. */
  lemma PanelsBeforePrefix(records: seq<Record>, k: nat)
    requires k <= 4
    ensures PanelsBefore(records, k) <= PlannedPanels(records)
    ensures PanelsBefore(records, 4) == PlannedPanels(records)
  {
    var full := PlannedPanels(records);
    var fm := if ShowsFrequencyMonetary(records) then [FrequencyMonetaryPanel] else [];
    var cd := if ShowsClassDistribution(records) then [ClassDistributionPanel] else [];
    var rf := if ShowsRecencyFrequency(records) then [RecencyFrequencyPanel] else [];
    assert PanelsBefore(records, 1) == [HistogramsPanel];
    assert PanelsBefore(records, 2) == [HistogramsPanel] + fm;
    assert PanelsBefore(records, 3) == [HistogramsPanel] + fm + cd;
    assert PanelsBefore(records, 4) == [HistogramsPanel] + fm + cd + rf == full;
    if k <= 3 {
      assert PanelsBefore(records, 3) <= full;
    }
    if k <= 2 {
      assert PanelsBefore(records, 2) <= PanelsBefore(records, 3);
    }
  }

  /** Cell idx of the histogram grid: the field's histogram in the field's
      colour, or an empty (still visible) cell when no record has it. */
  function FieldCell(records: seq<Record>, idx: nat): Axes<HistogramPanel<Option<real>>>
    requires idx < |Fields|
  {
    var field := Fields[idx];
    if Present(records, field) then
      Axes(Some(HistogramPanel(Column(records, field), Capitalize(field) + " Distribution",
                               Capitalize(field), FieldColors[idx])), true)
    else Axes(None, true)
  }

  function FieldGridCells(records: seq<Record>): (cells: seq<Axes<HistogramPanel<Option<real>>>>)
    ensures |cells| == |Fields|
  {
    seq(|Fields|, i requires 0 <= i < |Fields| => FieldCell(records, i))
  }

  /** Field i is drawn only in cell i, from its own column, in palette
      colour i; an absent field leaves its cell empty. */
  lemma FieldGridPlacesEachField(records: seq<Record>, i: nat)
    requires i < |Fields|
    ensures FieldGridCells(records)[i].visible
    ensures FieldGridCells(records)[i].content.Some? <==> Present(records, Fields[i])
    ensures FieldGridCells(records)[i].content.Some? ==>
      && FieldGridCells(records)[i].content.value.values == Column(records, Fields[i])
      && FieldGridCells(records)[i].content.value.color == FieldColors[i]
  {
  }

  /** The loop over the four fields of `visualize_blood_data`, drawing into
      a 2x2 grid of cells. */
  method FillFieldGrid(records: seq<Record>) returns (cells: seq<Axes<HistogramPanel<Option<real>>>>)
    ensures cells == FieldGridCells(records)
  {
    var axes := new Axes<HistogramPanel<Option<real>>>[|Fields|](_ => Axes(None, true));
    var idx := 0;
    while idx < |Fields|
      invariant 0 <= idx <= |Fields|
      invariant forall i :: 0 <= i < idx ==> axes[i] == FieldCell(records, i)
      invariant forall i :: idx <= i < |Fields| ==> axes[i] == Axes(None, true)
    {
      var field := Fields[idx];
      if Present(records, field) {
        axes[idx] := Axes(Some(HistogramPanel(Column(records, field), Capitalize(field) + " Distribution",
                                              Capitalize(field), FieldColors[idx])), true);
      }
      idx := idx + 1;
    }
    cells := axes[..];
  }

  /** Frequency against monetary value for the records of class c. */
  function DonorSeries(records: seq<Record>, c: real): Series<Option<real>> {
    var rs := WithClass(records, c);
    Series(Column(rs, "frequency"), Column(rs, "monetary"), ClassColor(c), Some(ClassLabel(c)))
  }

  /** What each panel draws. */
  function PanelSpec(records: seq<Record>, p: Panel): ChartSpec {
    match p
    case HistogramsPanel => FieldHistograms(FieldGridCells(records))
    case FrequencyMonetaryPanel => ClassScatter([DonorSeries(records, 0.0), DonorSeries(records, 1.0)])
    case ClassDistributionPanel => ClassDistribution(ClassBarValues(records))
    case RecencyFrequencyPanel => RecencyVsFrequency(Column(records, "recency"), Column(records, "frequency"))
  }

  /** The panels draw the four-cell field grid; the class-0 and class-1
      donors as two series; the numbers of class-0 and class-1 records;
      recency against frequency, one point per record. */
  lemma PanelContents(records: seq<Record>, p: Panel)
    ensures var spec := PanelSpec(records, p);
      && (p == HistogramsPanel ==> (
            && spec.FieldHistograms?
            && spec.fieldCells == FieldGridCells(records)
            && |spec.fieldCells| == |Fields|))
      && (p == FrequencyMonetaryPanel ==> spec.ClassScatter? && |spec.classSeries| == 2)
      && (p == ClassDistributionPanel ==> (
            && spec.ClassDistribution?
            && spec.counts == [Count(Column(records, "class"), Some(0.0)), Count(Column(records, "class"), Some(1.0))]))
      && (p == RecencyFrequencyPanel ==> (
            && spec.RecencyVsFrequency?
            && spec.xs == Column(records, "recency") && spec.ys == Column(records, "frequency")
            && |spec.xs| == |spec.ys| == |records|
            && forall i :: 0 <= i < |records| ==>
                 && (spec.xs[i].Some? <==> "recency" in records[i])
                 && (spec.ys[i].Some? <==> "frequency" in records[i])
                 && (spec.xs[i].Some? ==> spec.xs[i].value == records[i]["recency"])
                 && (spec.ys[i].Some? ==> spec.ys[i].value == records[i]["frequency"])))
  {
  }

  /** The frequency-vs-monetary scatter draws the records of class 0 in red,
      then those of class 1 in green, each point being the frequency and
      monetary value of one such record, in table order. A record of any
      other class, or without one, is not drawn. */
  lemma DonorScatterDrawsOnlyKnownClasses(records: seq<Record>)
    ensures var s := PanelSpec(records, FrequencyMonetaryPanel).classSeries;
      var p0, p1 := ClassPositions(records, 0.0), ClassPositions(records, 1.0);
      && |s| == 2
      && s[0].color == Red && s[0].legendLabel == Some(NonReturnDonor)
      && s[1].color == Green && s[1].legendLabel == Some(ReturnDonor)
      && s[0].xs == Pick(Column(records, "frequency"), p0) && s[0].ys == Pick(Column(records, "monetary"), p0)
      && s[1].xs == Pick(Column(records, "frequency"), p1) && s[1].ys == Pick(Column(records, "monetary"), p1)
      && (forall i :: 0 <= i < |records| ==> (i in p0 <==> HasClass(records[i], 0.0)))
      && (forall i :: 0 <= i < |records| ==> (i in p1 <==> HasClass(records[i], 1.0)))
      && |p0| + |p1| <= |records|
  {
    var p0, p1 := ClassPositions(records, 0.0), ClassPositions(records, 1.0);
    ColumnOfPick(records, p0, "frequency");
    ColumnOfPick(records, p0, "monetary");
    ColumnOfPick(records, p1, "frequency");
    ColumnOfPick(records, p1, "monetary");
    forall i | 0 <= i < |records|
      ensures (i in p0 <==> HasClass(records[i], 0.0)) && (i in p1 <==> HasClass(records[i], 1.0))
    {
      PositionHolds(Column(records, "class"), Some(0.0), i);
      PositionHolds(Column(records, "class"), Some(1.0), i);
    }
    ClassTotalBounded(records);
  }

  /** When the table has recency and frequency columns but neither a
      monetary nor a class column, the report has the histogram grid and the
      recency-vs-frequency scatter: two panels. */
  lemma RecencyAndFrequencyOnly(records: seq<Record>)
    requires Present(records, "recency") && Present(records, "frequency")
    requires !Present(records, "monetary") && !Present(records, "class")
    ensures PlannedPanels(records) == [HistogramsPanel, RecencyFrequencyPanel]
    ensures |PlannedPanels(records)| == 2
  {
  }

  /** The sample table of the service's manual test script. */
  const SampleData: seq<Record> := [
    map["recency" := 2.0, "frequency" := 50.0, "monetary" := 12500.0, "time" := 98.0, "class" := 1.0],
    map["recency" := 0.0, "frequency" := 13.0, "monetary" := 3250.0, "time" := 28.0, "class" := 1.0],
    map["recency" := 1.0, "frequency" := 16.0, "monetary" := 4000.0, "time" := 35.0, "class" := 1.0],
    map["recency" := 2.0, "frequency" := 20.0, "monetary" := 5000.0, "time" := 45.0, "class" := 1.0],
    map["recency" := 1.0, "frequency" := 24.0, "monetary" := 6000.0, "time" := 77.0, "class" := 0.0],
    map["recency" := 4.0, "frequency" := 4.0, "monetary" := 1000.0, "time" := 4.0, "class" := 0.0],
    map["recency" := 2.0, "frequency" := 7.0, "monetary" := 1750.0, "time" := 14.0, "class" := 1.0],
    map["recency" := 1.0, "frequency" := 12.0, "monetary" := 3000.0, "time" := 35.0, "class" := 0.0],
    map["recency" := 2.0, "frequency" := 9.0, "monetary" := 2250.0, "time" := 22.0, "class" := 1.0],
    map["recency" := 5.0, "frequency" := 46.0, "monetary" := 11500.0, "time" := 98.0, "class" := 1.0]
  ]

  /** Every field is present in the sample, so it yields all four panels. */
  lemma SampleDataYieldsFourPanels()
    ensures PlannedPanels(SampleData) ==
      [HistogramsPanel, FrequencyMonetaryPanel, ClassDistributionPanel, RecencyFrequencyPanel]
  {
    var r0 := SampleData[0];
    assert r0.Keys == {"recency", "frequency", "monetary", "time", "class"};
    assert Present(SampleData, "recency") && Present(SampleData, "frequency")
      && Present(SampleData, "monetary") && Present(SampleData, "class");
  }
}
