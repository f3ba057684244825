/**
 * The HTTP endpoints of the visualization service: validation, the chart
 * each endpoint asks for, `save_figure`, the comprehensive blood-data
 * report and the cleanup endpoint.
 *
 * Foreign collaborators are parameters: `render` is the plotting backend
 * (a chart specification in, PNG bytes or an exception message out),
 * `encode` is the base64 encoder, `now` is the clock reading in seconds and
 * `token`/`tokens` are the random tokens drawn for file names. Request
 * bodies arrive already decoded; a missing list is the empty list and a
 * missing optional value is `None`.
 */
module Service {

  import opened Common
  import opened Charts
  import opened BloodData
  import opened ImageStore

  /** What the plotting backend gives back for one figure. */
  datatype Rendered = Png(bytes: Bytes) | RenderError(message: string)

  /** An endpoint's answer: a JSON body, or an error status with the
      message of the `{'error': ...}` body. */
  datatype Reply<T> = Ok(value: T) | Fail(status: nat, message: string)

  /** Body of a successful `/blood-data` answer. */
  datatype Report = Report(count: nat, visualizations: seq<Descriptor>)

  /** Body of a `/cleanup` answer. */
  datatype CleanupSummary = CleanupSummary(deleted: nat, message: string)

  datatype HistogramRequest = HistogramRequest(
    data: seq<real>, field: Option<string>, title: Option<string>, xlabel: Option<string>, bins: Option<int>)

  datatype ScatterRequest = ScatterRequest(
    xData: seq<real>, yData: seq<real>, classes: Option<seq<real>>,
    title: Option<string>, xlabel: Option<string>, ylabel: Option<string>)

  datatype MultiHistogramRequest = MultiHistogramRequest(datasets: seq<Dataset>, title: Option<string>)

  datatype BarChartRequest = BarChartRequest(
    categories: seq<string>, values: seq<real>,
    title: Option<string>, xlabel: Option<string>, ylabel: Option<string>)

  // ---------------------------------------------------------------------
  // save_figure
  // ---------------------------------------------------------------------

  /** The outcome of `save_figure(fig, prefix)`: if the backend fails the
      endpoint answers 500 and nothing is written; otherwise the file
      `prefix_token.png` is written (replacing any file of that name) and
      the descriptor of exactly that file is returned. */
  predicate SavedFigure(before: Directory, after: Directory, r: Reply<Descriptor>, spec: ChartSpec,
                        prefix: string, token: Token, now: real,
                        render: ChartSpec -> Rendered, encode: Bytes -> string)
  {
    match render(spec)
    case RenderError(message) => r == Fail(500, message) && after == before
    case Png(bytes) =>
      && r == Ok(Describe(FileName(prefix, token), bytes, now, encode))
      && after == before[FileName(prefix, token) := RegularFile(bytes, now)]
  }

  /** A successful save can be fetched back at once through the url of its
      descriptor, with the very bytes whose encoding the descriptor
      carries. Every prefix the service uses is free of `/`; a prefix with
      one would give a url the image route does not match. */
  lemma SavedFigureIsServed(before: Directory, after: Directory, r: Reply<Descriptor>, spec: ChartSpec,
                            prefix: string, token: Token, now: real,
                            render: ChartSpec -> Rendered, encode: Bytes -> string)
    requires SavedFigure(before, after, r, spec, prefix, token, now, render, encode)
    requires r.Ok?
    ensures render(spec).Png?
    ensures '/' !in prefix ==> RouteFileName(r.value.url) == Some(r.value.filename)
    ensures '/' in prefix ==> RouteFileName(r.value.url) == None
    ensures ServeImage(after, r.value.filename) == Image(render(spec).bytes, PngMimeType)
    ensures r.value.base64 == DataUriPrefix + encode(render(spec).bytes)
  {
    var name := FileName(prefix, token);
    if '/' !in prefix {
      FileNameIsSegment(prefix, token);
    } else {
      assert name[..|prefix|] == prefix by {
        FileNameShape(prefix, token);
      }
      assert !IsSegment(name);
      assert ImageUrl(name)[|UrlPrefix|..] == name;
    }
  }

  method SaveFigure(store: ImageDirectory, spec: ChartSpec, prefix: string, token: Token, now: real,
                    render: ChartSpec -> Rendered, encode: Bytes -> string)
    returns (r: Reply<Descriptor>)
    modifies store
    ensures SavedFigure(old(store.files), store.files, r, spec, prefix, token, now, render, encode)
  {
    var filename := FileName(prefix, token);
    match render(spec)
    case RenderError(message) =>
      r := Fail(500, message);
    case Png(bytes) =>
      store.Write(filename, bytes, now);
      r := Ok(Describe(filename, bytes, now, encode));
  }

  // ---------------------------------------------------------------------
  // Single-chart endpoints
  // ---------------------------------------------------------------------

  function HistogramSpec(req: HistogramRequest): (spec: ChartSpec)
    ensures spec.Histogram? && spec.values == req.data
    ensures req.bins.None? ==> spec.bins == 20
    ensures req.bins.Some? ==> spec.bins == req.bins.value
    ensures req.title.None? ==> spec.title == "Distribution"
    ensures req.title.Some? ==> spec.title == req.title.value
    ensures req.xlabel.Some? ==> spec.xlabel == req.xlabel.value
    ensures req.xlabel.None? && req.field.None? ==> spec.xlabel == "Value"
    ensures req.xlabel.None? && req.field.Some? ==> spec.xlabel == Capitalize(req.field.value)
  {
    var field := req.field.GetOr("value");
    Histogram(req.data, req.bins.GetOr(20), req.title.GetOr("Distribution"), req.xlabel.GetOr(Capitalize(field)))
  }

  /** `/api/visualize/histogram` */
  method GenerateHistogram(store: ImageDirectory, req: HistogramRequest, token: Token, now: real,
                           render: ChartSpec -> Rendered, encode: Bytes -> string)
    returns (r: Reply<Descriptor>)
    modifies store
    ensures (r.Fail? && r.status == 400) <==> |req.data| == 0
    ensures |req.data| == 0 ==> r == Fail(400, "No data provided") && store.files == old(store.files)
    ensures |req.data| > 0 ==>
      SavedFigure(old(store.files), store.files, r, HistogramSpec(req), "histogram", token, now, render, encode)
  {
    if |req.data| == 0 {
      return Fail(400, "No data provided");
    }
    r := SaveFigure(store, HistogramSpec(req), "histogram", token, now, render, encode);
  }

  /** The figure `/scatter` draws, or the error building its table raises:
      with a non-empty `classes` list the three lists form one table, which
      needs them to be of one length. */
  function ScatterSpec(req: ScatterRequest): (r: Reply<ChartSpec>)
    ensures r.Fail? <==>
      req.classes.Some? && |req.classes.value| > 0 && !(|req.xData| == |req.yData| == |req.classes.value|)
    ensures r.Fail? ==> r == Fail(500, "All arrays must be of the same length")
    ensures r.Ok? ==> r.value.Scatter? && (r.value.legend <==> req.classes.Some? && |req.classes.value| > 0)
    ensures r.Ok? ==> r.value.title == req.title.GetOr("Scatter Plot")
    ensures r.Ok? ==> r.value.xlabel == req.xlabel.GetOr("X") && r.value.ylabel == req.ylabel.GetOr("Y")
  {
    var title, xlabel, ylabel := req.title.GetOr("Scatter Plot"), req.xlabel.GetOr("X"), req.ylabel.GetOr("Y");
    if req.classes.Some? && |req.classes.value| > 0 then
      var cs := req.classes.value;
      if |req.xData| == |req.yData| == |cs| then
        Ok(Scatter(ScatterSeries(req.xData, req.yData, cs), true, title, xlabel, ylabel))
      else
        Fail(500, "All arrays must be of the same length")
    else
      Ok(Scatter([Series(req.xData, req.yData, Blue, None)], false, title, xlabel, ylabel))
  }

  /** An empty `classes` list counts as no classes: one blue series without
      a legend. */
  lemma EmptyClassesMeansOneSeries(req: ScatterRequest)
    requires req.classes == None || req.classes == Some([])
    ensures ScatterSpec(req).Ok?
    ensures ScatterSpec(req).value.series == [Series(req.xData, req.yData, Blue, None)]
    ensures !ScatterSpec(req).value.legend
  {
  }

  /** With classes, one series per distinct class value, with a legend.
      Series k is coloured and labelled after its class value u[k] and holds
      the points of that class in their original order; point j belongs to
      series k exactly when its class is u[k], and since the class values
      are distinct and cover every class, every point is drawn in exactly
      one series, the one of its class. */
  lemma ClassesPartitionScatter(req: ScatterRequest)
    requires req.classes.Some? && |req.classes.value| > 0
    requires |req.xData| == |req.yData| == |req.classes.value|
    ensures ScatterSpec(req).Ok? && ScatterSpec(req).value.legend
    ensures var s, cs := ScatterSpec(req).value.series, req.classes.value;
      var u := Unique(cs);
      && |s| == |u|
      && forall k :: 0 <= k < |s| ==>
           && s[k].xs == Pick(req.xData, Positions(cs, u[k]))
           && s[k].ys == Pick(req.yData, Positions(cs, u[k]))
           && s[k].color == ClassColor(u[k])
           && s[k].legendLabel == Some(ClassLabel(u[k]))
    ensures var cs := req.classes.value;
      var u := Unique(cs);
      && Distinct(u)
      && (forall j :: 0 <= j < |cs| ==> cs[j] in u)
      && (forall j, k :: 0 <= j < |cs| && 0 <= k < |u| ==> (j in Positions(cs, u[k]) <==> cs[j] == u[k]))
    ensures TotalPoints(ScatterSpec(req).value.series) == |req.xData|
  {
    var xs, ys, cs := req.xData, req.yData, req.classes.value;
    var s, u := ScatterSpec(req).value.series, Unique(cs);
    assert ScatterSpec(req).Ok? && ScatterSpec(req).value.legend && s == ScatterSeries(xs, ys, cs);
    assert |s| == |u| && TotalPoints(s) == |xs| by {
      ScatterPartitionsPoints(xs, ys, cs);
    }
    assert forall k :: 0 <= k < |s| ==>
      && s[k].xs == Pick(xs, Positions(cs, u[k]))
      && s[k].ys == Pick(ys, Positions(cs, u[k]))
      && s[k].color == ClassColor(u[k])
      && s[k].legendLabel == Some(ClassLabel(u[k]))
    by {
      ScatterPartitionsPoints(xs, ys, cs);
    }
    EachPointInOneGroup(cs);
  }

  /** `/api/visualize/scatter` */
  method GenerateScatter(store: ImageDirectory, req: ScatterRequest, token: Token, now: real,
                         render: ChartSpec -> Rendered, encode: Bytes -> string)
    returns (r: Reply<Descriptor>)
    modifies store
    ensures (r.Fail? && r.status == 400) <==> |req.xData| == 0 || |req.yData| == 0
    ensures |req.xData| == 0 || |req.yData| == 0 ==>
      r == Fail(400, "x_data and y_data required") && store.files == old(store.files)
    ensures |req.xData| > 0 && |req.yData| > 0 && ScatterSpec(req).Fail? ==>
      r == Fail(500, ScatterSpec(req).message) && store.files == old(store.files)
    ensures |req.xData| > 0 && |req.yData| > 0 && ScatterSpec(req).Ok? ==>
      SavedFigure(old(store.files), store.files, r, ScatterSpec(req).value, "scatter", token, now, render, encode)
  {
    if |req.xData| == 0 || |req.yData| == 0 {
      return Fail(400, "x_data and y_data required");
    }
    var spec := ScatterSpec(req);
    if spec.Fail? {
      return Fail(spec.status, spec.message);
    }
    r := SaveFigure(store, spec.value, "scatter", token, now, render, encode);
  }

  /** `/api/visualize/multi-histogram` */
  method GenerateMultiHistogram(store: ImageDirectory, req: MultiHistogramRequest, token: Token, now: real,
                                render: ChartSpec -> Rendered, encode: Bytes -> string)
    returns (r: Reply<Descriptor>)
    modifies store
    ensures (r.Fail? && r.status == 400) <==> |req.datasets| < 2
    ensures |req.datasets| < 2 ==> r == Fail(400, "At least 2 datasets required") && store.files == old(store.files)
    ensures |req.datasets| >= 2 ==>
      var shape := GridShape(|req.datasets|);
      SavedFigure(old(store.files), store.files, r,
                  MultiHistogram(shape.0, shape.1, GridCells(req.datasets), req.title.GetOr("Multi-Variable Distribution")),
                  "multi_histogram", token, now, render, encode)
  {
    if |req.datasets| < 2 {
      return Fail(400, "At least 2 datasets required");
    }
    var shape := GridShape(|req.datasets|);
    var cells := LayOutGrid(req.datasets);
    var spec := MultiHistogram(shape.0, shape.1, cells, req.title.GetOr("Multi-Variable Distribution"));
    r := SaveFigure(store, spec, "multi_histogram", token, now, render, encode);
  }

  function BarChartSpec(req: BarChartRequest): (spec: ChartSpec)
    ensures spec.Bar? && spec.categories == req.categories && spec.values == req.values
    ensures |spec.colors| == (if |req.categories| < 4 then |req.categories| else 4)
    ensures forall i :: 0 <= i < |spec.colors| ==> spec.colors[i] == BarPalette[i]
    ensures |req.values| == 1 ==> |spec.valueLabels| == |req.categories|
    ensures |req.values| == 1 ==> forall i :: 0 <= i < |spec.valueLabels| ==> spec.valueLabels[i] == TruncateToInt(req.values[0])
    ensures |req.values| != 1 ==> |spec.valueLabels| == |req.values|
    ensures |req.values| != 1 ==> forall i :: 0 <= i < |req.values| ==> spec.valueLabels[i] == TruncateToInt(req.values[i])
    ensures spec.title == req.title.GetOr("Bar Chart")
    ensures spec.xlabel == req.xlabel.GetOr("Category") && spec.ylabel == req.ylabel.GetOr("Value")
  {
    Bar(req.categories, req.values, BarColors(|req.categories|), ValueLabels(BarHeights(|req.categories|, req.values)),
        req.title.GetOr("Bar Chart"), req.xlabel.GetOr("Category"), req.ylabel.GetOr("Value"))
  }

  /** One value over two categories draws two bars of that height, each
      labelled with it. */
  lemma SingleValueIsBroadcast()
    ensures BarChartSpec(BarChartRequest(["A", "B"], [3.0], None, None, None)).valueLabels == [3, 3]
  {
    var spec := BarChartSpec(BarChartRequest(["A", "B"], [3.0], None, None, None));
    assert TruncateToInt(3.0) == 3;
    assert spec.valueLabels[0] == 3 && spec.valueLabels[1] == 3;
  }

  /** `/api/visualize/bar-chart` */
  method GenerateBarChart(store: ImageDirectory, req: BarChartRequest, token: Token, now: real,
                          render: ChartSpec -> Rendered, encode: Bytes -> string)
    returns (r: Reply<Descriptor>)
    modifies store
    ensures (r.Fail? && r.status == 400) <==> |req.categories| == 0 || |req.values| == 0
    ensures |req.categories| == 0 || |req.values| == 0 ==>
      r == Fail(400, "categories and values required") && store.files == old(store.files)
    ensures |req.categories| > 0 && |req.values| > 0 ==>
      SavedFigure(old(store.files), store.files, r, BarChartSpec(req), "bar_chart", token, now, render, encode)
  {
    if |req.categories| == 0 || |req.values| == 0 {
      return Fail(400, "categories and values required");
    }
    r := SaveFigure(store, BarChartSpec(req), "bar_chart", token, now, render, encode);
  }

  // ---------------------------------------------------------------------
  // The blood-data report
  // ---------------------------------------------------------------------

  function PanelFileName(p: Panel, t: Token): string {
    FileName(PanelPrefix(p), t)
  }

  predicate AllRendered(records: seq<Record>, plan: seq<Panel>, render: ChartSpec -> Rendered) {
    forall i :: 0 <= i < |plan| ==> render(PanelSpec(records, plan[i])).Png?
  }

  /** The directory after saving the panels of `plan` one after the other,
      panel i under token i. */
  function Written(before: Directory, records: seq<Record>, tokens: seq<Token>, plan: seq<Panel>,
                   now: real, render: ChartSpec -> Rendered): Directory
    requires |plan| <= |tokens| && AllRendered(records, plan, render)
    decreases |plan|
  {
    if plan == [] then before
    else
      var k := |plan| - 1;
      Written(before, records, tokens, plan[..k], now, render)
        [PanelFileName(plan[k], tokens[k]) := RegularFile(render(PanelSpec(records, plan[k])).bytes, now)]
  }

  /** The descriptors of those saves, in order. */
  function PanelDescriptors(records: seq<Record>, tokens: seq<Token>, plan: seq<Panel>, now: real,
                            render: ChartSpec -> Rendered, encode: Bytes -> string): (ds: seq<Descriptor>)
    requires |plan| <= |tokens| && AllRendered(records, plan, render)
    ensures |ds| == |plan|
    decreases |plan|
  {
    if plan == [] then []
    else
      var k := |plan| - 1;
      PanelDescriptors(records, tokens, plan[..k], now, render, encode)
        + [Describe(PanelFileName(plan[k], tokens[k]), render(PanelSpec(records, plan[k])).bytes, now, encode)]
  }

  /** The report answers 200 exactly when every planned panel renders and,
      if the class panel is planned, some record has class 0 or 1. */
  predicate ReportSucceeds(records: seq<Record>, render: ChartSpec -> Rendered) {
    && AllRendered(records, PlannedPanels(records), render)
    && (ShowsClassDistribution(records) ==> ClassTotal(records) > 0)
  }

  /** Panels of one report are saved under pairwise distinct names. */
  lemma {:induction false} PanelFileNamesDistinct(plan: seq<Panel>, tokens: seq<Token>, i: nat, j: nat)
    requires InReportOrder(plan) && |plan| <= |tokens|
    requires i < j < |plan|
    ensures PanelFileName(plan[i], tokens[i]) != PanelFileName(plan[j], tokens[j])
  {
    if PanelFileName(plan[i], tokens[i]) == PanelFileName(plan[j], tokens[j]) {
      FileNameInjective(PanelPrefix(plan[i]), tokens[i], PanelPrefix(plan[j]), tokens[j]);
      PanelPrefixInjective(plan[i], plan[j]);
      assert false;
    }
  }

  /** After a report's saves, every panel's file holds the bytes rendered
      for that panel: no later panel overwrote an earlier one. */
  lemma {:induction false} WrittenHoldsEachPanel(before: Directory, records: seq<Record>, tokens: seq<Token>,
                                                 plan: seq<Panel>, now: real, render: ChartSpec -> Rendered, i: nat)
    requires |plan| <= |tokens| && AllRendered(records, plan, render) && InReportOrder(plan)
    requires i < |plan|
    ensures PanelFileName(plan[i], tokens[i]) in Written(before, records, tokens, plan, now, render)
    ensures Written(before, records, tokens, plan, now, render)[PanelFileName(plan[i], tokens[i])]
         == RegularFile(render(PanelSpec(records, plan[i])).bytes, now)
  {
    var k := |plan| - 1;
    var prefix := plan[..k];
    assert AllRendered(records, prefix, render);
    if i < k {
      assert PanelFileName(plan[i], tokens[i]) != PanelFileName(plan[k], tokens[k]) by {
        PanelFileNamesDistinct(plan, tokens, i, k);
      }
      assert prefix[i] == plan[i];
      assert InReportOrder(prefix);
      WrittenHoldsEachPanel(before, records, tokens, prefix, now, render, i);
    }
  }

  /** Hence retrieving a panel's file after the report gives exactly the
      bytes rendered for that panel. */
  lemma ReportPanelsAreServed(before: Directory, records: seq<Record>, tokens: seq<Token>,
                              plan: seq<Panel>, now: real, render: ChartSpec -> Rendered, i: nat)
    requires |plan| <= |tokens| && AllRendered(records, plan, render) && InReportOrder(plan)
    requires i < |plan|
    ensures ServeImage(Written(before, records, tokens, plan, now, render), PanelFileName(plan[i], tokens[i]))
         == Image(render(PanelSpec(records, plan[i])).bytes, PngMimeType)
  {
    WrittenHoldsEachPanel(before, records, tokens, plan, now, render, i);
  }

  /** A report's saves change no file outside its own panels' names. */
  lemma {:induction false} ReportTouchesOnlyItsPanels(before: Directory, records: seq<Record>, tokens: seq<Token>,
                                                      plan: seq<Panel>, now: real, render: ChartSpec -> Rendered,
                                                      name: string)
    requires |plan| <= |tokens| && AllRendered(records, plan, render)
    requires forall i :: 0 <= i < |plan| ==> name != PanelFileName(plan[i], tokens[i])
    ensures ServeImage(Written(before, records, tokens, plan, now, render), name) == ServeImage(before, name)
    ensures name in Written(before, records, tokens, plan, now, render) <==> name in before
  {
    if plan != [] {
      ReportTouchesOnlyItsPanels(before, records, tokens, plan[..|plan| - 1], now, render, name);
    }
  }

  /** One conditional `visualizations.append(save_figure(...))`: saves the
      figure of panel p under the next token and extends the record of
      what has been saved so far. */
  method EmitPanel(store: ImageDirectory, records: seq<Record>, p: Panel, spec: ChartSpec, tokens: seq<Token>,
                   visualizations: seq<Descriptor>, ghost before: Directory, ghost plan: seq<Panel>, now: real,
                   render: ChartSpec -> Rendered, encode: Bytes -> string)
    returns (ok: bool, extended: seq<Descriptor>, message: string)
    requires spec == PanelSpec(records, p)
    requires |plan| < |tokens| && |visualizations| == |plan| && AllRendered(records, plan, render)
    requires store.files == Written(before, records, tokens, plan, now, render)
    requires visualizations == PanelDescriptors(records, tokens, plan, now, render, encode)
    modifies store
    ensures ok <==> render(spec).Png?
    ensures ok ==> AllRendered(records, plan + [p], render)
    ensures ok ==> store.files == Written(before, records, tokens, plan + [p], now, render)
    ensures ok ==> extended == PanelDescriptors(records, tokens, plan + [p], now, render, encode)
    ensures !ok ==> store.files == old(store.files) && message == render(spec).message
  {
    var d := SaveFigure(store, spec, PanelPrefix(p), tokens[|visualizations|], now, render, encode);
    ok := d.Ok?;
    extended, message := visualizations, "";
    if d.Fail? {
      message := d.message;
      return;
    }
    extended := visualizations + [d.value];
    assert (plan + [p])[..|plan|] == plan;
  }

  /** Stage p of the report stops it: the panel is shown and either the
      backend fails on it or, for the class panel, its percentage labels
      divide by a zero total. */
  predicate StageFails(records: seq<Record>, render: ChartSpec -> Rendered, p: Panel) {
    && Shows(records, p)
    && ((p == ClassDistributionPanel && ClassTotal(records) == 0) || !render(PanelSpec(records, p)).Png?)
  }

  /** The error message of a stage that stops the report. */
  function StageMessage(records: seq<Record>, render: ChartSpec -> Rendered, p: Panel): string
    requires StageFails(records, render, p)
  {
    if p == ClassDistributionPanel && ClassTotal(records) == 0 then "division by zero"
    else render(PanelSpec(records, p)).message
  }

  /** The rank of the first stage that stops the report, or 4 when none
      does. */
  function FailingStage(records: seq<Record>, render: ChartSpec -> Rendered): (k: nat)
    ensures k <= 4
    ensures k < 4 ==> StageFails(records, render, PanelOfRank(k))
    ensures forall j :: 0 <= j < k ==> !StageFails(records, render, PanelOfRank(j))
  {
    if StageFails(records, render, HistogramsPanel) then 0
    else if StageFails(records, render, FrequencyMonetaryPanel) then 1
    else if StageFails(records, render, ClassDistributionPanel) then 2
    else if StageFails(records, render, RecencyFrequencyPanel) then 3
    else 4
  }

  /** The report succeeds exactly when no stage stops it. */
  lemma ReportSucceedsIffNoStageFails(records: seq<Record>, render: ChartSpec -> Rendered)
    ensures ReportSucceeds(records, render) <==> FailingStage(records, render) == 4
  {
    if FailingStage(records, render) < 4 {
      StageFailureFailsReport(records, render, PanelOfRank(FailingStage(records, render)));
    } else {
      NoStageFailureMeansAllRendered(records, render);
    }
  }

  /** A stage that stops the report makes it fail. */
  lemma StageFailureFailsReport(records: seq<Record>, render: ChartSpec -> Rendered, q: Panel)
    requires StageFails(records, render, q)
    ensures !ReportSucceeds(records, render)
  {
    var plan := PlannedPanels(records);
    PlanIsShown(records);
    if !render(PanelSpec(records, q)).Png? {
      var i :| 0 <= i < |plan| && plan[i] == q;
    }
  }

  /** When no stage stops the report, every planned panel renders. */
  lemma NoStageFailureMeansAllRendered(records: seq<Record>, render: ChartSpec -> Rendered)
    requires FailingStage(records, render) == 4
    ensures ReportSucceeds(records, render)
  {
    var plan := PlannedPanels(records);
    PlanIsShown(records);
    forall i | 0 <= i < |plan|
      ensures render(PanelSpec(records, plan[i])).Png?
    {
      assert !StageFails(records, render, PanelOfRank(Rank(plan[i])));
      assert PanelOfRank(Rank(plan[i])) == plan[i];
    }
  }

  /** The plan holds exactly the panels the report shows. */
  lemma PlanIsShown(records: seq<Record>)
    ensures forall q: Panel :: q in PlannedPanels(records) <==> Shows(records, q)
  {
    var plan := PlannedPanels(records);
    forall q: Panel
      ensures q in plan <==> Shows(records, q)
    {
      assert plan[0] == HistogramsPanel;
    }
  }

  /** One `if <fields present>: ... visualizations.append(save_figure(...))`
      step, reached when no earlier stage stopped the report. When panel p
      is shown it is saved under the next token, so `saved` goes from the
      panels of rank below Rank(p) to those of rank up to Rank(p); when the
      stage fails, it is the first failing stage and nothing is written. */
  method EmitIfShown(store: ImageDirectory, records: seq<Record>, p: Panel, tokens: seq<Token>,
                     visualizations: seq<Descriptor>, ghost before: Directory, ghost saved: seq<Panel>, now: real,
                     render: ChartSpec -> Rendered, encode: Bytes -> string)
    returns (ok: bool, extended: seq<Descriptor>, message: string, ghost saved': seq<Panel>)
    requires |tokens| == 4 && FailingStage(records, render) >= Rank(p)
    requires saved == PanelsBefore(records, Rank(p)) && AllRendered(records, saved, render)
    requires store.files == Written(before, records, tokens, saved, now, render)
    requires visualizations == PanelDescriptors(records, tokens, saved, now, render, encode)
    modifies store
    ensures saved' == if ok then PanelsBefore(records, Rank(p) + 1) else saved
    ensures AllRendered(records, saved', render)
    ensures store.files == Written(before, records, tokens, saved', now, render)
    ensures ok ==> FailingStage(records, render) > Rank(p)
    ensures ok ==> extended == PanelDescriptors(records, tokens, saved', now, render, encode)
    ensures !ok ==> FailingStage(records, render) == Rank(p) && StageFails(records, render, p)
                    && message == StageMessage(records, render, p)
  {
    assert PanelOfRank(Rank(p)) == p;
    if !Shows(records, p) {
      return true, visualizations, "", saved;
    }
    if p == ClassDistributionPanel && ClassTotal(records) == 0 {
      return false, visualizations, "division by zero", saved;
    }
    ok, extended, message := EmitPanel(store, records, p, PanelSpec(records, p), tokens,
                                       visualizations, before, saved, now, render, encode);
    saved' := if ok then saved + [p] else saved;
  }

  /** The optional panels of the report, in order: frequency vs monetary
      by class, the class distribution and recency vs frequency, each when
      its fields are present, after the histogram grid has been saved. */
  method SaveOptionalPanels(store: ImageDirectory, records: seq<Record>, tokens: seq<Token>,
                            visualizations: seq<Descriptor>, ghost before: Directory, now: real,
                            render: ChartSpec -> Rendered, encode: Bytes -> string)
    returns (ok: bool, extended: seq<Descriptor>, message: string, ghost saved: seq<Panel>)
    requires |tokens| == 4 && FailingStage(records, render) >= 1
    requires AllRendered(records, [HistogramsPanel], render)
    requires store.files == Written(before, records, tokens, [HistogramsPanel], now, render)
    requires visualizations == PanelDescriptors(records, tokens, [HistogramsPanel], now, render, encode)
    modifies store
    ensures ok <==> FailingStage(records, render) == 4
    ensures saved == PanelsBefore(records, FailingStage(records, render))
    ensures AllRendered(records, saved, render)
    ensures store.files == Written(before, records, tokens, saved, now, render)
    ensures ok ==> extended == PanelDescriptors(records, tokens, saved, now, render, encode)
    ensures !ok ==> message == StageMessage(records, render, PanelOfRank(FailingStage(records, render)))
  {
    saved := [HistogramsPanel];
    assert saved == PanelsBefore(records, 1);
    extended := visualizations;

    // 2. frequency vs monetary, by class
    ok, extended, message, saved := EmitIfShown(store, records, FrequencyMonetaryPanel, tokens,
                                                extended, before, saved, now, render, encode);
    if !ok {
      return;
    }

    // 3. class distribution
    ok, extended, message, saved := EmitIfShown(store, records, ClassDistributionPanel, tokens,
                                                extended, before, saved, now, render, encode);
    if !ok {
      return;
    }

    // 4. recency vs frequency
    ok, extended, message, saved := EmitIfShown(store, records, RecencyFrequencyPanel, tokens,
                                                extended, before, saved, now, render, encode);
  }

  /** `/api/visualize/blood-data`: the histogram grid always, then the
      optional panels. A failure answers 500 with the message of the first
      stage that stops the report, and leaves in place exactly the panels
      saved before that stage: `saved` names the panels whose files were
      written. */
  method VisualizeBloodData(store: ImageDirectory, records: seq<Record>, tokens: seq<Token>, now: real,
                            render: ChartSpec -> Rendered, encode: Bytes -> string)
    returns (r: Reply<Report>, ghost saved: seq<Panel>)
    requires |tokens| == 4
    modifies store
    ensures |records| == 0 ==> r == Fail(400, "No data provided") && store.files == old(store.files)
    ensures r.Ok? <==> |records| > 0 && ReportSucceeds(records, render)
    ensures saved <= PlannedPanels(records) && AllRendered(records, saved, render)
    ensures store.files == Written(old(store.files), records, tokens, saved, now, render)
    ensures r.Ok? ==>
      && saved == PlannedPanels(records)
      && r.value.count == |r.value.visualizations| == |saved|
      && r.value.visualizations == PanelDescriptors(records, tokens, saved, now, render, encode)
    ensures |records| > 0 && r.Fail? ==>
      && FailingStage(records, render) < 4
      && saved == PanelsBefore(records, FailingStage(records, render))
      && r == Fail(500, StageMessage(records, render, PanelOfRank(FailingStage(records, render))))
  {
    ghost var before := store.files;
    saved := [];
    assert Written(before, records, tokens, [], now, render) == before;
    if |records| == 0 {
      return Fail(400, "No data provided"), saved;
    }
    ReportSucceedsIffNoStageFails(records, render);

    // 1. the histogram grid, always
    var cells := FillFieldGrid(records);
    var ok, visualizations, message := EmitPanel(store, records, HistogramsPanel, FieldHistograms(cells), tokens,
                                                 [], before, saved, now, render, encode);
    if !ok {
      assert PanelOfRank(0) == HistogramsPanel;
      PanelsBeforePrefix(records, 0);
      return Fail(500, message), saved;
    }
    ok, visualizations, message, saved := SaveOptionalPanels(store, records, tokens, visualizations, before,
                                                             now, render, encode);
    PanelsBeforePrefix(records, FailingStage(records, render));
    if !ok {
      return Fail(500, message), saved;
    }
    r := Ok(Report(|visualizations|, visualizations));
  }

  // ---------------------------------------------------------------------
  // Cleanup
  // ---------------------------------------------------------------------

  /** `/api/visualize/cleanup` */
  method CleanupOldImages(store: ImageDirectory, now: real) returns (r: CleanupSummary)
    modifies store
    ensures store.files == Survivors(old(store.files), now)
    ensures r.deleted == |ExpiredNames(old(store.files), now)| == |old(store.files)| - |store.files|
    ensures r.message == "Cleaned up " + DecimalString(r.deleted) + " old images"
  {
    var deleted := store.Sweep(now);
    SweepPartitions(old(store.files), now);
    r := CleanupSummary(deleted, "Cleaned up " + DecimalString(deleted) + " old images");
  }
}
