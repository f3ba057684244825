/**
 * What the service asks the plotting backend to draw. The backend itself
 * is opaque: a chart specification goes in, PNG bytes (or an error) come
 * out. This module holds the specification type and the discrete
 * computations done before drawing: the multi-histogram grid, the split
 * of scatter points by class, the bar colours and the bar value labels.
 */
module Charts {

  import opened Common

  // Fixed palette of the service.
  const Blue: string := "#3b82f6"
  const Green: string := "#10b981"
  const Amber: string := "#f59e0b"
  const Purple: string := "#a855f7"
  const Red: string := "#ef4444"

  const ReturnDonor: string := "Return Donor"
  const NonReturnDonor: string := "Non-Return Donor"

  /** Colours offered to `/bar-chart`, in order. */
  const BarPalette: seq<string> := [Green, Red, Blue, Amber]

  /** One set of points drawn in one colour, with an optional legend label. */
  datatype Series<T> = Series(xs: seq<T>, ys: seq<T>, color: string, legendLabel: Option<string>)

  /** One histogram drawn inside a grid cell. */
  datatype HistogramPanel<T> = HistogramPanel(values: seq<T>, title: string, xlabel: string, color: string)

  /** One cell of a subplot grid: what is drawn in it, and whether it is shown. */
  datatype Axes<T> = Axes(content: Option<T>, visible: bool)

  /** A figure as handed to the renderer. Numbers taken from the blood-data
      table are `Option<real>`: a record without the field contributes a
      missing value (NaN in the table). */
  datatype ChartSpec =
    | Histogram(values: seq<real>, bins: int, title: string, xlabel: string)
    | Scatter(series: seq<Series<real>>, legend: bool, title: string, xlabel: string, ylabel: string)
    | MultiHistogram(rows: nat, cols: nat, cells: seq<Axes<HistogramPanel<real>>>, title: string)
    | Bar(categories: seq<string>, values: seq<real>, colors: seq<string>, valueLabels: seq<int>,
          title: string, xlabel: string, ylabel: string)
    | FieldHistograms(fieldCells: seq<Axes<HistogramPanel<Option<real>>>>)
    | ClassScatter(classSeries: seq<Series<Option<real>>>)
    | ClassDistribution(counts: seq<nat>)
    | RecencyVsFrequency(xs: seq<Option<real>>, ys: seq<Option<real>>)

  // ---------------------------------------------------------------------
  // Multi-histogram grid
  // ---------------------------------------------------------------------

  /** One entry of the `datasets` list of `/multi-histogram`. */
  datatype Dataset = Dataset(data: seq<real>, name: Option<string>, color: Option<string>)

  /** Rows and columns of the subplot grid for n histograms. */
  function GridShape(n: nat): (shape: (nat, nat))
    ensures n >= 2 ==> shape.1 == 2
    ensures n >= 2 ==> n <= shape.0 * shape.1 <= n + 1
    ensures n >= 2 ==> shape.0 * shape.1 - n == n % 2
    ensures n >= 2 ==> (shape.0 - 1) * shape.1 < n
  {
    ((n + 1) / 2, if n > 1 then 2 else 1)
  }

  /** The histogram drawn for dataset number idx (counting from 0): its
      label defaults to "Variable idx+1" and its colour to blue. */
  function DatasetPanel(d: Dataset, idx: nat): HistogramPanel<real> {
    HistogramPanel(d.data, d.name.GetOr("Variable " + DecimalString(idx + 1)), "Value", d.color.GetOr(Blue))
  }

  /** The grid after drawing: dataset i in cell i, the cells left over
      hidden. */
  function GridCells(datasets: seq<Dataset>): (cells: seq<Axes<HistogramPanel<real>>>)
    requires |datasets| >= 2
  {
    var shape := GridShape(|datasets|);
    seq(shape.0 * shape.1, i requires 0 <= i < shape.0 * shape.1 =>
      if i < |datasets| then Axes(Some(DatasetPanel(datasets[i], i)), true) else Axes(None, false))
  }

  /** Dataset i is drawn in cell i and nowhere else; the only hidden cell is
      the spare one of an odd count, so exactly n cells are shown. */
  lemma GridShowsEachDatasetOnce(datasets: seq<Dataset>)
    requires |datasets| >= 2
    ensures |GridCells(datasets)| - |datasets| == |datasets| % 2
    ensures forall i :: 0 <= i < |GridCells(datasets)| ==>
      (GridCells(datasets)[i].visible <==> i < |datasets|)
    ensures forall i :: 0 <= i < |GridCells(datasets)| ==>
      (GridCells(datasets)[i].content.Some? <==> i < |datasets|)
    ensures forall i :: 0 <= i < |datasets| ==>
      GridCells(datasets)[i].content == Some(DatasetPanel(datasets[i], i))
  {
  }

  /** `plt.subplots(rows, cols)`, flattened; draws dataset idx into cell
      idx, then hides every cell from `len(datasets)` on. */
  method LayOutGrid(datasets: seq<Dataset>) returns (cells: seq<Axes<HistogramPanel<real>>>)
    requires |datasets| >= 2
    ensures cells == GridCells(datasets)
  {
    var shape := GridShape(|datasets|);
    var axes := new Axes<HistogramPanel<real>>[shape.0 * shape.1](_ => Axes(None, true));
    var idx := 0;
    while idx < |datasets|
      invariant 0 <= idx <= |datasets|
      invariant forall i :: 0 <= i < idx ==> axes[i] == Axes(Some(DatasetPanel(datasets[i], i)), true)
      invariant forall i :: idx <= i < axes.Length ==> axes[i] == Axes(None, true)
    {
      axes[idx] := Axes(Some(DatasetPanel(datasets[idx], idx)), true);
      idx := idx + 1;
    }
    while idx < axes.Length
      invariant |datasets| <= idx <= axes.Length
      invariant forall i :: 0 <= i < |datasets| ==> axes[i] == Axes(Some(DatasetPanel(datasets[i], i)), true)
      invariant forall i :: |datasets| <= i < idx ==> axes[i] == Axes(None, false)
      invariant forall i :: idx <= i < axes.Length ==> axes[i] == Axes(None, true)
    {
      axes[idx] := axes[idx].(visible := false);
      idx := idx + 1;
    }
    cells := axes[..];
  }

  // ---------------------------------------------------------------------
  // Scatter points split by class
  // ---------------------------------------------------------------------

  /** How many times c occurs in cs. */
  function Count<T(==)>(cs: seq<T>, c: T): nat {
    if cs == [] then 0 else Count(cs[..|cs| - 1], c) + (if cs[|cs| - 1] == c then 1 else 0)
  }

  /** The positions i of cs holding c, in increasing order. */
  function Positions<T(==)>(cs: seq<T>, c: T): (ps: seq<nat>)
    ensures forall k :: 0 <= k < |ps| ==> ps[k] < |cs|
  {
    if cs == [] then []
    else
      var n := |cs| - 1;
      Positions(cs[..n], c) + (if cs[n] == c then [n] else [])
  }

  lemma PositionsAppend<T>(cs: seq<T>, x: T, c: T)
    ensures Positions(cs + [x], c) == Positions(cs, c) + (if x == c then [|cs|] else [])
  {
    assert (cs + [x])[..|cs|] == cs;
  }

  /** Each position of c holds c. */
  lemma {:induction false} PositionsHold<T>(cs: seq<T>, c: T)
    ensures forall k :: 0 <= k < |Positions(cs, c)| ==> cs[Positions(cs, c)[k]] == c
  {
    if cs != [] {
      var n := |cs| - 1;
      var init := cs[..n];
      assert cs == init + [cs[n]];
      PositionsHold(init, c);
      PositionsAppend(init, cs[n], c);
    }
  }

  /** The positions of c are strictly increasing. */
  lemma {:induction false} PositionsIncreasing<T>(cs: seq<T>, c: T)
    ensures forall k, l :: 0 <= k < l < |Positions(cs, c)| ==> Positions(cs, c)[k] < Positions(cs, c)[l]
  {
    if cs != [] {
      var n := |cs| - 1;
      var init := cs[..n];
      assert cs == init + [cs[n]];
      PositionsIncreasing(init, c);
      PositionsAppend(init, cs[n], c);
    }
  }

  /** Every index holding c is a position of c. */
  lemma {:induction false} PositionsComplete<T>(cs: seq<T>, c: T)
    ensures forall i :: 0 <= i < |cs| && cs[i] == c ==> i in Positions(cs, c)
  {
    if cs != [] {
      var n := |cs| - 1;
      var init := cs[..n];
      assert cs == init + [cs[n]];
      PositionsComplete(init, c);
      PositionsAppend(init, cs[n], c);
      assert forall i :: 0 <= i < n ==> cs[i] == init[i];
    }
  }

  /** There are as many positions of c as occurrences of c. */
  lemma {:induction false} PositionsCount<T>(cs: seq<T>, c: T)
    ensures |Positions(cs, c)| == Count(cs, c)
  {
    if cs != [] {
      var n := |cs| - 1;
      var init := cs[..n];
      assert cs == init + [cs[n]];
      PositionsCount(init, c);
      PositionsAppend(init, cs[n], c);
    }
  }

  /** The positions of c are exactly the indices holding c, strictly
      increasing, as many as c occurs, and there are some exactly when c
      occurs. */
  lemma PositionsAreTheMatches<T>(cs: seq<T>, c: T)
    ensures var ps := Positions(cs, c);
      && |ps| == Count(cs, c)
      && (forall k :: 0 <= k < |ps| ==> cs[ps[k]] == c)
      && (forall k, l :: 0 <= k < l < |ps| ==> ps[k] < ps[l])
      && (forall i :: 0 <= i < |cs| && cs[i] == c ==> i in ps)
      && (|ps| > 0 <==> c in cs)
  {
    PositionsHold(cs, c);
    PositionsIncreasing(cs, c);
    PositionsComplete(cs, c);
    PositionsCount(cs, c);
  }

  /** The entries of vs at the positions ps, in the order of ps. */
  function Pick<T>(vs: seq<T>, ps: seq<nat>): (r: seq<T>)
    requires forall k :: 0 <= k < |ps| ==> ps[k] < |vs|
    ensures |r| == |ps|
  {
    seq(|ps|, k requires 0 <= k < |ps| => vs[ps[k]])
  }

  /** The entries of vs whose class (same position in cs) is c, in order:
      `df[df['class'] == c]`. */
  function Select<T>(vs: seq<T>, cs: seq<real>, c: real): (r: seq<T>)
    requires |vs| == |cs|
    ensures r == Pick(vs, Positions(cs, c))
  {
    if cs == [] then []
    else
      var n := |cs| - 1;
      var ps := Positions(cs[..n], c);
      assert Pick(vs[..n], ps) == Pick(vs, ps);
      Select(vs[..n], cs[..n], c) + (if cs[n] == c then [vs[n]] else [])
  }

  /** `df['class'].unique()`: the distinct class values, in order of first
      appearance (see UniqueInFirstAppearanceOrder). */
  function Unique(cs: seq<real>): (u: seq<real>)
    ensures Distinct(u)
    ensures forall c :: c in u <==> c in cs
  {
    if cs == [] then []
    else
      var init, last := cs[..|cs| - 1], cs[|cs| - 1];
      assert cs == init + [last];
      var u := Unique(init);
      if last in u then u else u + [last]
  }

  predicate Distinct(u: seq<real>) {
    forall i, j :: 0 <= i < j < |u| ==> u[i] != u[j]
  }

  /** Class 1 is drawn green as "Return Donor"; every other class value red
      as "Non-Return Donor". */
  function ClassColor(c: real): string {
    if c == 1.0 then Green else Red
  }

  function ClassLabel(c: real): string {
    if c == 1.0 then ReturnDonor else NonReturnDonor
  }

  function ClassSeries(xs: seq<real>, ys: seq<real>, cs: seq<real>, c: real): Series<real>
    requires |xs| == |ys| == |cs|
  {
    Series(Select(xs, cs, c), Select(ys, cs, c), ClassColor(c), Some(ClassLabel(c)))
  }

  /** One series per class value of u, in the order of u. */
  function SeriesByClass(xs: seq<real>, ys: seq<real>, cs: seq<real>, u: seq<real>): (r: seq<Series<real>>)
    requires |xs| == |ys| == |cs|
    ensures |r| == |u|
    ensures forall i :: 0 <= i < |u| ==> r[i] == ClassSeries(xs, ys, cs, u[i])
  {
    if u == [] then [] else SeriesByClass(xs, ys, cs, u[..|u| - 1]) + [ClassSeries(xs, ys, cs, u[|u| - 1])]
  }

  /** The series `/scatter` draws when it is given classes. */
  function ScatterSeries(xs: seq<real>, ys: seq<real>, cs: seq<real>): seq<Series<real>>
    requires |xs| == |ys| == |cs|
  {
    SeriesByClass(xs, ys, cs, Unique(cs))
  }

  function TotalPoints(series: seq<Series<real>>): nat {
    if series == [] then 0 else TotalPoints(series[..|series| - 1]) + |series[|series| - 1].xs|
  }

  /** Sum over the class values of w of their number of occurrences in cs. */
  function SumCounts(cs: seq<real>, w: seq<real>): nat {
    if w == [] then 0 else SumCounts(cs, w[..|w| - 1]) + Count(cs, w[|w| - 1])
  }

  lemma {:induction false} CountAppend(cs: seq<real>, x: real, c: real)
    ensures Count(cs + [x], c) == Count(cs, c) + (if x == c then 1 else 0)
  {
    assert (cs + [x])[..|cs|] == cs;
  }

  lemma {:induction false} CountAbsent(cs: seq<real>, c: real)
    requires c !in cs
    ensures Count(cs, c) == 0
  {
    if cs != [] {
      assert c !in cs[..|cs| - 1];
      CountAbsent(cs[..|cs| - 1], c);
    }
  }

  /** In a list without repetitions a value occurs once or not at all. */
  lemma {:induction false} CountDistinct(w: seq<real>, c: real)
    requires Distinct(w)
    ensures Count(w, c) == if c in w then 1 else 0
  {
    if w != [] {
      var init := w[..|w| - 1];
      assert w == init + [w[|w| - 1]];
      CountDistinct(init, c);
      if c == w[|w| - 1] {
        assert c !in init;
      }
    }
  }

  lemma {:induction false} SumCountsAppend(cs: seq<real>, x: real, w: seq<real>)
    ensures SumCounts(cs + [x], w) == SumCounts(cs, w) + Count(w, x)
  {
    if w != [] {
      SumCountsAppend(cs, x, w[..|w| - 1]);
      CountAppend(cs, x, w[|w| - 1]);
    }
  }

  lemma {:induction false} SumCountsLast(cs: seq<real>, w: seq<real>, x: real)
    ensures SumCounts(cs, w + [x]) == SumCounts(cs, w) + Count(cs, x)
  {
    assert (w + [x])[..|w|] == w;
  }

  /** Counting every distinct class value's points counts every point once. */
  lemma {:induction false} SumCountsUnique(cs: seq<real>)
    ensures SumCounts(cs, Unique(cs)) == |cs|
  {
    if cs != [] {
      var init, x := cs[..|cs| - 1], cs[|cs| - 1];
      assert cs == init + [x];
      var u := Unique(init);
      SumCountsUnique(init);
      SumCountsAppend(init, x, u);
      CountDistinct(u, x);
      if x !in u {
        SumCountsLast(cs, u, x);
        CountAppend(init, x, x);
        CountAbsent(init, x);
      }
    }
  }

  lemma {:induction false} TotalPointsByClass(xs: seq<real>, ys: seq<real>, cs: seq<real>, u: seq<real>)
    requires |xs| == |ys| == |cs|
    ensures TotalPoints(SeriesByClass(xs, ys, cs, u)) == SumCounts(cs, u)
  {
    if u != [] {
      var s := SeriesByClass(xs, ys, cs, u);
      assert s[..|s| - 1] == SeriesByClass(xs, ys, cs, u[..|u| - 1]);
      TotalPointsByClass(xs, ys, cs, u[..|u| - 1]);
      PositionsAreTheMatches(cs, u[|u| - 1]);
    }
  }

  /** Every point j is drawn in exactly one group: j is among the positions
      of the class value u[k] exactly when u[k] is the class of j, and the
      class of j occurs once in u. */
  lemma EachPointInOneGroup(cs: seq<real>)
    ensures var u := Unique(cs);
      && (forall j, k :: 0 <= j < |cs| && 0 <= k < |u| ==> (j in Positions(cs, u[k]) <==> cs[j] == u[k]))
      && (forall j :: 0 <= j < |cs| ==> exists k :: 0 <= k < |u| && u[k] == cs[j])
      && (forall j, k, l :: 0 <= j < |cs| && 0 <= k < |u| && 0 <= l < |u| ==>
            (j in Positions(cs, u[k]) && j in Positions(cs, u[l]) ==> k == l))
  {
    var u := Unique(cs);
    forall j, k | 0 <= j < |cs| && 0 <= k < |u|
      ensures j in Positions(cs, u[k]) <==> cs[j] == u[k]
    {
      PositionHolds(cs, u[k], j);
    }
    forall j | 0 <= j < |cs|
      ensures exists k :: 0 <= k < |u| && u[k] == cs[j]
    {
      assert cs[j] in cs;
    }
    forall j, k, l | 0 <= j < |cs| && 0 <= k < |u| && 0 <= l < |u|
      ensures j in Positions(cs, u[k]) && j in Positions(cs, u[l]) ==> k == l
    {
      PositionHolds(cs, u[k], j);
      PositionHolds(cs, u[l], j);
    }
  }

  /** Index j is a position of c exactly when it holds c. */
  lemma PositionHolds<T>(cs: seq<T>, c: T, j: nat)
    requires j < |cs|
    ensures j in Positions(cs, c) <==> cs[j] == c
  {
    PositionsAreTheMatches(cs, c);
  }

  /** With classes, `/scatter` draws one series per distinct class value,
      holding exactly the points of that class in their original order, so
      the series hold as many points together as there were points. */
  lemma ScatterPartitionsPoints(xs: seq<real>, ys: seq<real>, cs: seq<real>)
    requires |xs| == |ys| == |cs|
    ensures var s, u := ScatterSeries(xs, ys, cs), Unique(cs);
      && |s| == |u|
      && forall k :: 0 <= k < |s| ==>
            && s[k].xs == Pick(xs, Positions(cs, u[k]))
            && s[k].ys == Pick(ys, Positions(cs, u[k]))
            && s[k].color == ClassColor(u[k])
            && s[k].legendLabel == Some(ClassLabel(u[k]))
    ensures TotalPoints(ScatterSeries(xs, ys, cs)) == |xs|
  {
    TotalPointsByClass(xs, ys, cs, Unique(cs));
    SumCountsUnique(cs);
  }

  /** `unique()` lists the class values in the order they first appear. */
  lemma {:induction false} UniqueInFirstAppearanceOrder(cs: seq<real>)
    ensures forall c :: c in Unique(cs) ==> |Positions(cs, c)| > 0
    ensures forall i, j :: 0 <= i < j < |Unique(cs)| ==>
      |Positions(cs, Unique(cs)[i])| > 0 && |Positions(cs, Unique(cs)[j])| > 0 &&
      Positions(cs, Unique(cs)[i])[0] < Positions(cs, Unique(cs)[j])[0]
  {
    PositionsOfPresent(cs);
    if cs != [] {
      var n := |cs| - 1;
      var init, x := cs[..n], cs[n];
      assert cs == init + [x];
      var u0 := Unique(init);
      UniqueInFirstAppearanceOrder(init);
      forall c | c in init
        ensures Positions(cs, c)[0] == Positions(init, c)[0]
      {
        PositionsOfPresent(init);
        PositionsAppend(init, x, c);
      }
      if x !in u0 {
        PositionsAppend(init, x, x);
        assert |Positions(init, x)| == 0 by {
          PositionsAreTheMatches(init, x);
        }
        assert Positions(cs, x) == [n];
      }
    }
  }

  /** A value that occurs has a first position. */
  lemma PositionsOfPresent(cs: seq<real>)
    ensures forall c :: c in cs ==> |Positions(cs, c)| > 0
  {
    forall c | c in cs
      ensures |Positions(cs, c)| > 0
    {
      var i :| 0 <= i < |cs| && cs[i] == c;
      PositionsComplete(cs, c);
    }
  }

  /** Classes [1, 0, 1]: two groups, the return donors (two points, green)
      first, then the non-return donor (one point, red). */
  lemma ScatterExample()
    ensures var s := ScatterSeries([1.0, 2.0, 3.0], [4.0, 5.0, 6.0], [1.0, 0.0, 1.0]);
      && |s| == 2
      && s[0] == Series([1.0, 3.0], [4.0, 6.0], Green, Some(ReturnDonor))
      && s[1] == Series([2.0], [5.0], Red, Some(NonReturnDonor))
  {
    var cs := [1.0, 0.0, 1.0];
    UniqueExample(cs);
    SelectExample([1.0, 2.0, 3.0], cs);
    SelectExample([4.0, 5.0, 6.0], cs);
  }

  lemma UniqueExample(cs: seq<real>)
    requires cs == [1.0, 0.0, 1.0]
    ensures Unique(cs) == [1.0, 0.0]
  {
    assert Unique([1.0]) == [1.0] by {
      UniqueLast([], 1.0);
      assert [1.0] == [] + [1.0];
    }
    assert Unique([1.0, 0.0]) == [1.0, 0.0] by {
      UniqueLast([1.0], 0.0);
      assert [1.0, 0.0] == [1.0] + [0.0];
    }
    UniqueLast([1.0, 0.0], 1.0);
    assert cs == [1.0, 0.0] + [1.0];
  }

  lemma UniqueLast(cs: seq<real>, x: real)
    ensures Unique(cs + [x]) == if x in Unique(cs) then Unique(cs) else Unique(cs) + [x]
  {
    assert (cs + [x])[..|cs|] == cs;
  }

  lemma SelectExample(vs: seq<real>, cs: seq<real>)
    requires |vs| == 3 && cs == [1.0, 0.0, 1.0]
    ensures Select(vs, cs, 1.0) == [vs[0], vs[2]]
    ensures Select(vs, cs, 0.0) == [vs[1]]
  {
    SelectLast(vs[..2], vs[2], [1.0, 0.0], 1.0, 1.0);
    SelectLast(vs[..2], vs[2], [1.0, 0.0], 1.0, 0.0);
    SelectLast(vs[..1], vs[1], [1.0], 0.0, 1.0);
    SelectLast(vs[..1], vs[1], [1.0], 0.0, 0.0);
    SelectLast([], vs[0], [], 1.0, 1.0);
    SelectLast([], vs[0], [], 1.0, 0.0);
    assert vs[..2] == vs[..1] + [vs[1]] && vs[..1] == [] + [vs[0]] && vs == vs[..2] + [vs[2]];
    assert cs == [1.0, 0.0] + [1.0] && [1.0, 0.0] == [1.0] + [0.0] && [1.0] == [] + [1.0];
  }

  lemma SelectLast<T>(vs: seq<T>, v: T, cs: seq<real>, c: real, k: real)
    requires |vs| == |cs|
    ensures Select(vs + [v], cs + [c], k) == Select(vs, cs, k) + (if c == k then [v] else [])
  {
    assert (vs + [v])[..|vs|] == vs;
    assert (cs + [c])[..|cs|] == cs;
  }

  // ---------------------------------------------------------------------
  // Bar charts
  // ---------------------------------------------------------------------

  /** `colors[:len(categories)]` over the bar palette. */
  function BarColors(n: nat): (colors: seq<string>)
    ensures |colors| == if n < |BarPalette| then n else |BarPalette|
    ensures colors <= BarPalette
  {
    if n < |BarPalette| then BarPalette[..n] else BarPalette
  }

  /** `int(x)` on a float: truncation toward zero. */
  function TruncateToInt(x: real): (r: int)
    ensures x >= 0.0 ==> r as real <= x < r as real + 1.0
    ensures x < 0.0 ==> r as real - 1.0 < x <= r as real
  {
    if x >= 0.0 then x.Floor else -((-x).Floor)
  }

  /** The heights of the bars `ax.bar(categories, values)` draws for n
      categories: a single value is broadcast over every category, otherwise
      there is one bar per value. */
  function BarHeights(n: nat, values: seq<real>): (heights: seq<real>)
    ensures |values| == 1 ==> |heights| == n && forall i :: 0 <= i < n ==> heights[i] == values[0]
    ensures |values| != 1 ==> heights == values
  {
    if |values| == 1 then seq(n, _ => values[0]) else values
  }

  /** The text written on each bar: its height as an integer. */
  function ValueLabels(values: seq<real>): (labels: seq<int>)
    ensures |labels| == |values|
    ensures forall i :: 0 <= i < |values| ==> labels[i] == TruncateToInt(values[i])
  {
    seq(|values|, i requires 0 <= i < |values| => TruncateToInt(values[i]))
  }
}
