# Visualization service: a Dafny model of the image pipeline

The Hodie Labs visualization service is a small Flask application
(`hodie-labs/visualization-service/app.py`). It takes numeric data over HTTP,
draws a chart with matplotlib, and saves the PNG under `generated_images/`
with a random file name. It answers with a descriptor: the file name, a
retrieval url and a base64 data URI. Images are fetched back through
`/api/images/<filename>`. A cleanup endpoint deletes images older than 24
hours.

This project models that pipeline:

- **Request validation** for the histogram, scatter, multi-histogram,
  bar-chart and blood-data endpoints. For well-typed JSON bodies, each
  endpoint's 400 answer is modelled exactly (see "Left out" for `null`
  values). So are the 500 answers that reach the caller from errors the
  service cannot see coming: a failing backend, unequal list lengths under
  `classes`, and division by zero in the class percentages.
- **What each endpoint draws**, as a chart specification (`Charts.ChartSpec`):
  - the subplot grid of `/multi-histogram`, with each dataset in its own cell
    and the spare cell hidden;
  - the scatter split by class value, in first-appearance order;
  - the bar colours and the integer labels on the bars;
  - the four-panel blood-data report, whose optional panels depend on which
    fields the records carry.
- **`save_figure`**: the file name `prefix_<8 hex digits>.png`, the write
  into the image directory, and the descriptor.
- **`serve_image`**, and **`cleanup_old_images`** as a loop over the
  directory listing.

The image directory is `ImageStore.ImageDirectory`, a class whose `files`
map is updated in place by `Write` and `Sweep`. The sweep and the two grid
layouts are methods with loops, proved against specification functions.

The following collaborators are parameters:

- the plotting backend, `render: ChartSpec -> Rendered`, which gives PNG
  bytes or an exception message;
- the base64 encoder, `encode`;
- the clock, `now`, in seconds;
- the random token of each file name, a 32-bit number (`Token`).

Modules: `Common` (option type, decimal digits, `str.capitalize`),
`Charts`, `BloodData`, `ImageStore`, `Service` (the endpoints).

Where the service's description and its code differ, the model follows the
code:

- No endpoint checks that paired lists have equal lengths. `/scatter` with a
  non-empty `classes` list fails only when pandas refuses to build the table,
  and then answers 500, not 400. Without classes a length mismatch goes to
  the renderer.
  In `/bar-chart` a single value is broadcast over all the categories, as
  matplotlib does, and every drawn bar gets its label; other unequal lengths
  are passed to the renderer as they are.
- `bins` is passed to the renderer unchecked.
- `/scatter` draws one series per distinct class value, not only classes 0
  and 1. Every value other than 1 is drawn red and labelled "Non-Return
  Donor". Only the blood-data report restricts itself to classes 0 and 1.
- `save_figure` does not avoid existing names. An equal token overwrites the
  earlier file, and the model writes with a map update. Inside one blood-data
  report the names are proved pairwise distinct.
- The cleanup sweep is not failure-tolerant. The blood-data report is not
  all-or-nothing: a failure after the first panel leaves the earlier panels'
  files in the directory.

## Model

| member | source | states |
|---|---|---|
| Common.DecimalRoundTrip | hodie-labs/visualization-service/app.py:469 | the decimal digits written for a count read back as that count |
| Common.Capitalize | hodie-labs/visualization-service/app.py:69 | `str.capitalize` keeps the length, upper-cases the first character and lower-cases the rest |
| ImageStore.HexRoundTrip | hodie-labs/visualization-service/app.py:421 | writing a number below 16^k as k hex digits loses nothing: reading them back gives the number |
| ImageStore.TokenHex | hodie-labs/visualization-service/app.py:421 | the token part of a file name is 8 lower-case hex digits that read back as the token |
| ImageStore.FileNameShape | hodie-labs/visualization-service/app.py:421 | a file name is the prefix, `_`, 8 hex digits encoding the token, and `.png` |
| ImageStore.FileNameInjective | hodie-labs/visualization-service/app.py:421 | equal file names come from equal prefixes and equal tokens |
| ImageStore.RouteFileName | hodie-labs/visualization-service/app.py:443-444 | the route matches a path only when what follows `/api/images/` is one non-empty segment without `/`; that segment rebuilds the path, and any other path is not routed (404) |
| ImageStore.FileNameIsSegment | hodie-labs/visualization-service/app.py:421 | a file name built from a prefix without `/` is one path segment, so the image route can match it |
| ImageStore.UrlRoutesToFileName | hodie-labs/visualization-service/app.py:438 | the url of a one-segment file name routes back to that file name |
| ImageStore.Describe | hodie-labs/visualization-service/app.py:436-441 | the descriptor names the file, its url routes back to the file whenever the name is one path segment, and its base64 field is the PNG data-URI prefix followed by the encoding of the bytes |
| ImageStore.ServeImage | hodie-labs/visualization-service/app.py:443-449 | a name not in the directory, or a dangling link, answers 404 (`os.path.exists` is false); a regular file is sent with its own bytes and the PNG mime type; any other entry fails in `send_file` |
| ImageStore.ServeAfterWrite | hodie-labs/visualization-service/app.py:443-449 | right after a write the name is served with exactly the bytes written, and every other name is served as before |
| ImageStore.SweepPartitions | hodie-labs/visualization-service/app.py:458-464 | every entry is either deleted or kept: the deleted names and the kept entries add up to the directory |
| ImageStore.SweepIdempotent | hodie-labs/visualization-service/app.py:458-464 | a second sweep at the same instant deletes nothing |
| ImageStore.SweepKeepsRecent | hodie-labs/visualization-service/app.py:460-463 | a file at most 24 hours old is kept and still served, whatever else is swept |
| ImageStore.SweptIsNotFound | hodie-labs/visualization-service/app.py:447-449 | a file swept for age is answered 404 afterwards |
| ImageStore.StaleFileIsTheOnlyOneSwept | hodie-labs/visualization-service/app.py:461-464 | a file 25 hours old among younger ones is the only one deleted, and the count is 1 |
| ImageStore.ImageDirectory.Write | hodie-labs/visualization-service/app.py:425-426 | `savefig` creates or overwrites the named file with the bytes and the current time, changing nothing else |
| ImageStore.ImageDirectory.Sweep | hodie-labs/visualization-service/app.py:455-464 | the loop over the listing leaves exactly the non-expired entries and returns the number of expired regular files |
| Charts.GridShape | hodie-labs/visualization-service/app.py:190-192 | for n >= 2 datasets the grid has 2 columns and between n and n+1 cells, one spare exactly when n is odd, and no wholly empty row |
| Charts.GridShowsEachDatasetOnce | hodie-labs/visualization-service/app.py:197-216 | dataset i is drawn in cell i with its label and colour defaults, and exactly the cells from n on are hidden and empty |
| Charts.LayOutGrid | hodie-labs/visualization-service/app.py:194-216 | the two loops over the flattened axes produce the grid of `GridCells` |
| Charts.PositionsAreTheMatches | hodie-labs/visualization-service/app.py:142 | the positions of c are strictly increasing, each holds c, every index holding c is among them, their number is the count of c, and there are some exactly when c occurs |
| Charts.Select | hodie-labs/visualization-service/app.py:142 | `df[df['class'] == c]` keeps exactly the values at the positions whose class is c, in their original order |
| Charts.Unique | hodie-labs/visualization-service/app.py:141 | `unique()` lists each class value once, and exactly the values that occur |
| Charts.UniqueInFirstAppearanceOrder | hodie-labs/visualization-service/app.py:141 | `unique()` lists the class values in the order of their first appearance |
| Charts.EachPointInOneGroup | hodie-labs/visualization-service/app.py:141-142 | point j is in the group of class value u[k] exactly when its class is u[k]; every point's class is in u, and no point is in two groups |
| Charts.ScatterPartitionsPoints | hodie-labs/visualization-service/app.py:133-147 | one series per distinct class value u[k], holding exactly the x and y values of the points of class u[k] in their original order, coloured and labelled after u[k]; together the series hold every point |
| Charts.ScatterExample | hodie-labs/visualization-service/app.py:141-146 | classes [1, 0, 1] give two series: green "Return Donor" with points 1 and 3, then red "Non-Return Donor" with point 2 |
| Charts.BarColors | hodie-labs/visualization-service/app.py:256-257 | the bar colours are the first min(n, 4) colours of the palette, in order |
| Charts.TruncateToInt | hodie-labs/visualization-service/app.py:269 | `int()` on a float truncates toward zero: the result lies within 1 of x on the side of zero |
| Charts.BarHeights | hodie-labs/visualization-service/app.py:257 | one value over n categories is broadcast to n bars of that height; otherwise there is one bar per value |
| Charts.ValueLabels | hodie-labs/visualization-service/app.py:265-270 | each bar is labelled with its own height truncated toward zero |
| BloodData.Column | hodie-labs/visualization-service/app.py:305 | the column of a field has one entry per record, holding the record's value exactly when the record has the key |
| BloodData.PresentIffColumnHasValue | hodie-labs/visualization-service/app.py:318 | `field in df.columns` holds exactly when the field's column holds a value for some record |
| BloodData.WithClass | hodie-labs/visualization-service/app.py:346 | `df[df['class'] == c]` keeps exactly the records at the positions whose class is c, in their original order |
| BloodData.WithClassIsClassC | hodie-labs/visualization-service/app.py:346 | every selected record has class c, every record of class c is selected, and their number is the count of class c in the class column |
| BloodData.ClassBarValues | hodie-labs/visualization-service/app.py:367-369 | the two bars are the number of records of class 0 and the number of records of class 1 |
| BloodData.ClassTotalBounded | hodie-labs/visualization-service/app.py:367-377 | the class-0 and class-1 counts together never exceed the number of records |
| BloodData.ClassTotalZero | hodie-labs/visualization-service/app.py:377-380 | the percentage divisor is zero exactly when no record has class 0 or class 1 |
| BloodData.PanelPrefixInjective | hodie-labs/visualization-service/app.py:337-404 | the four panels are saved under four different prefixes |
| BloodData.PlannedPanels | hodie-labs/visualization-service/app.py:310-406 | the report starts with the histogram grid; each optional panel appears exactly when its fields are present; panels appear in report order, at most 4 |
| BloodData.PanelsBeforePrefix | hodie-labs/visualization-service/app.py:337-406 | after each stage of appends the list is a prefix of the full plan, and after the last it is the plan |
| BloodData.FieldGridPlacesEachField | hodie-labs/visualization-service/app.py:314-331 | field i is drawn only in cell i, from its own column and in its own colour; an absent field leaves its cell empty and visible |
| BloodData.FillFieldGrid | hodie-labs/visualization-service/app.py:311-331 | the loop over the four fields produces the grid of `FieldGridCells` |
| BloodData.PanelContents | hodie-labs/visualization-service/app.py:311-406 | each panel's figure: the four-cell field grid, the two-series class scatter, the bars of the class counts, and the recency and frequency columns themselves, one entry per record holding that record's value when it has the key |
| BloodData.DonorScatterDrawsOnlyKnownClasses | hodie-labs/visualization-service/app.py:345-350 | the frequency-vs-monetary panel has a red non-return and a green return series, holding exactly the frequency and monetary values of the class-0 and class-1 records, in order; other records are not drawn |
| BloodData.RecencyAndFrequencyOnly | hodie-labs/visualization-service/app.py:342-406 | a table with recency and frequency columns but neither a monetary nor a class column yields two panels: the grid and the recency-vs-frequency scatter |
| BloodData.SampleDataYieldsFourPanels | hodie-labs/visualization-service/test_viz.py:13-24 | the sample table carries every field, so the report has all four panels |
| Service.SavedFigureIsServed | hodie-labs/visualization-service/app.py:418-449 | a successful save is served at once with the bytes whose encoding the descriptor carries; its url routes back to its file name exactly when the prefix has no `/`, as every prefix the service uses |
| Service.SaveFigure | hodie-labs/visualization-service/app.py:418-441 | a backend failure answers 500 and writes nothing; otherwise exactly `prefix_token.png` is written and described |
| Service.HistogramSpec | hodie-labs/visualization-service/app.py:66-78 | the histogram draws the data as given; bins default to 20, the title to "Distribution", and the x label to the capitalised field name, "Value" when no field is given |
| Service.GenerateHistogram | hodie-labs/visualization-service/app.py:64-102 | 400 "No data provided" exactly when the data list is empty, with nothing written; otherwise the histogram with its defaults is saved under "histogram" |
| Service.ScatterSpec | hodie-labs/visualization-service/app.py:121-150 | fails with 500 exactly when a non-empty classes list differs in length from the data; otherwise a scatter with a legend exactly when classes are given, and the title and axis-label defaults |
| Service.EmptyClassesMeansOneSeries | hodie-labs/visualization-service/app.py:133-150 | a missing or empty classes list gives one blue series of all the points, and no legend |
| Service.ClassesPartitionScatter | hodie-labs/visualization-service/app.py:133-148 | with classes, a legend and one series per distinct class value, holding exactly the points of that class in order, coloured and labelled after it; every point is in exactly one series, the one of its class, and the series hold every point |
| Service.GenerateScatter | hodie-labs/visualization-service/app.py:119-165 | 400 exactly when x or y is empty; 500 with nothing written when the classes table cannot be built; otherwise the scatter is saved under "scatter" |
| Service.GenerateMultiHistogram | hodie-labs/visualization-service/app.py:181-227 | 400 exactly when fewer than 2 datasets are given; otherwise the grid is saved under "multi_histogram" |
| Service.BarChartSpec | hodie-labs/visualization-service/app.py:245-270 | the bars are the categories and values as given, coloured with the first min(n, 4) palette colours; every drawn bar is labelled with its height truncated toward zero, a single value being broadcast over all categories; the title and axis-label defaults |
| Service.SingleValueIsBroadcast | hodie-labs/visualization-service/app.py:251-270 | categories ["A", "B"] with values [3] pass the 400 check and give two bars, both labelled 3 |
| Service.GenerateBarChart | hodie-labs/visualization-service/app.py:243-280 | 400 exactly when categories or values is empty; otherwise the bar chart is saved under "bar_chart" |
| Service.PanelFileNamesDistinct | hodie-labs/visualization-service/app.py:337-404 | the panels of one report are saved under pairwise different file names |
| Service.WrittenHoldsEachPanel | hodie-labs/visualization-service/app.py:337-404 | after a report's saves, each panel's file holds that panel's bytes: no later save overwrote it |
| Service.ReportPanelsAreServed | hodie-labs/visualization-service/app.py:337-449 | after a report, each panel's file is served with the bytes rendered for it |
| Service.ReportTouchesOnlyItsPanels | hodie-labs/visualization-service/app.py:337-404 | a report changes no file other than its own panels' |
| Service.EmitPanel | hodie-labs/visualization-service/app.py:337-338 | one `save_figure` plus append: on success the store and the descriptor list grow by exactly this panel; on failure nothing changes |
| Service.FailingStage | hodie-labs/visualization-service/app.py:337-406 | the first stage that stops the report: its panel is shown and fails to render or divides by zero, and no earlier stage fails |
| Service.ReportSucceedsIffNoStageFails | hodie-labs/visualization-service/app.py:297-416 | the report succeeds exactly when no stage stops it |
| Service.StageFailureFailsReport | hodie-labs/visualization-service/app.py:297-416 | a shown panel that fails to render, or a class panel with a zero divisor, makes the report answer 500 |
| Service.NoStageFailureMeansAllRendered | hodie-labs/visualization-service/app.py:337-413 | when no stage stops the report, every planned panel renders and the report succeeds |
| Service.EmitIfShown | hodie-labs/visualization-service/app.py:342-406 | a conditional panel is saved exactly when its fields are present; a failure happens exactly at the first failing stage, with that stage's message |
| Service.SaveOptionalPanels | hodie-labs/visualization-service/app.py:341-406 | the optional panels succeed exactly when no stage fails, and then all planned panels are saved in order; otherwise exactly the panels before the first failing stage are saved, and its message is returned |
| Service.VisualizeBloodData | hodie-labs/visualization-service/app.py:297-416 | 400 with nothing written when there are no records; 200 exactly when every planned panel renders and the class divisor is non-zero, with the count and the descriptors of all planned panels; otherwise 500 with the first failing stage's message, and exactly the panels before that stage are left saved |
| Service.CleanupOldImages | hodie-labs/visualization-service/app.py:451-470 | the directory keeps exactly its non-expired entries; the count deleted equals the shrinkage of the directory and appears in the message |

## Left out

- Rendering is left out. matplotlib and seaborn are the `render` parameter, so figure sizes, fonts, alpha and grid styling are not modelled. A backend failure is `RenderError`, answered 500.
- The statistics are left out: the mean, median and standard deviation text, and the mean lines. They are floating point computed by numpy, drawn into the figure, and never returned.
- The percentage text of the class-distribution bars is left out. Only the division that can fail is modelled, as a 500 "division by zero".
- Base64 encoding is the `encode` parameter.
- The descriptor timestamp is left out in its ISO-8601 form; the model keeps the clock reading.
- UUID randomness is left out. The token of each file name is a parameter, so collisions are possible, and an equal name overwrites the earlier file as the code does.
- The Flask routing, JSON decoding, CORS setup, `/health` endpoint and process start-up are left out. A JSON `null` is treated like a missing key, which is not what the code does: `{"datasets": null}` fails at `len(None)` and answers 500 rather than 400 (app.py:183,186); a `null` or non-string `field` fails at `field.capitalize()` and answers 500 before the empty-data check (app.py:67-72); `{"bins": null}` lets matplotlib choose its default bin count rather than 20. Non-list `data` values and other wrongly typed fields are not modelled either.
- Exceptions raised by the JSON layer are left out.
- The real file system and concurrency are left out. An entry is a regular file, a dangling link or some other entry; permissions and symbolic links to files are not modelled. Concurrent writers, readers and sweeps are not modelled; the directory is one map updated in place.
- File-system failures in the middle of the sweep are left out: the source answers 500 after deleting some files. Local-time effects on `getmtime` are not modelled either.
- Path traversal in `serve_image` file names is not modelled. A name is a plain key of the directory.
- Charts.GridCells: the single-dataset branch of the grid (`cols = 1`, `[axes]`) is unreachable behind the 400 check, so the layout requires at least 2 datasets.
- Common.Capitalize: covers ASCII letters only; the Unicode case mapping of `str.capitalize` is not modelled.
- BloodData.Present: a column exists when some record has the key, as in `pd.DataFrame(records)`. Value types other than numbers are not modelled.
- Service.VisualizeBloodData: one clock reading serves every save in a request, whereas the source reads the clock per save; it uses four tokens, one per possible panel.
