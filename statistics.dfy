/** The statistics panel: chart rows derived from the visible prefix of the step records,
    the final and peak figures, the reproduction-rate ratio and the daily-changes bar data. */
module Statistics {
  import opened Common
  import App

  /** One chart row. Counts that the panel subtracts are `int`: nothing stops a back end
      from reporting more affected nodes than the graph holds. */
  datatype Row = Row(
    step: nat,
    susceptible: int,
    exposed: nat,
    infected: nat,
    recovered: nat,
    activeInfections: int,
    newExposures: nat,
    newInfections: nat,
    newRecoveries: nat,
    time: int)

  /** A cumulative figure: the record's total when it is non-zero, otherwise the length of
      the matching list (a total of 0 is falsy and falls through to the list). */
  function Figure(total: nat, list: seq<NodeId>): nat
  {
    if total != 0 then total else |list|
  }

  /** The row the panel derives from the record at position `index`. */
  function RowOf(rec: StepRecord, index: nat, totalNodes: int): (row: Row)
    ensures row.step == index && row.time == rec.time
    ensures rec.totalExposed != 0 ==> row.exposed == rec.totalExposed
    ensures rec.totalExposed == 0 ==> row.exposed == |rec.exposed|
    ensures rec.totalInfected != 0 ==> row.infected == rec.totalInfected
    ensures rec.totalInfected == 0 ==> row.infected == |rec.infected|
    ensures rec.totalRecovered != 0 ==> row.recovered == rec.totalRecovered
    ensures rec.totalRecovered == 0 ==> row.recovered == |rec.recovered|
    ensures row.susceptible + row.exposed + row.infected + row.recovered == totalNodes
    ensures row.activeInfections + row.recovered == row.infected
    ensures row.newExposures == |rec.newExposed|
    ensures row.newInfections == |rec.newInfected|
    ensures row.newRecoveries == |rec.newRecovered|
  {
    var exposed := Figure(rec.totalExposed, rec.exposed);
    var infected := Figure(rec.totalInfected, rec.infected);
    var recovered := Figure(rec.totalRecovered, rec.recovered);
    Row(index, totalNodes - exposed - infected - recovered, exposed, infected, recovered,
        infected - recovered, |rec.newExposed|, |rec.newInfected|, |rec.newRecovered|, rec.time)
  }

  /** The chart rows: one per shown record, numbered by position. */
  function ChartData(data: seq<StepRecord>, currentStep: nat, totalNodes: int): (rows: seq<Row>)
    ensures |rows| == App.Visible(|data|, currentStep)
    ensures |data| > 0 ==> |rows| > 0
    ensures forall i :: 0 <= i < |rows| ==> rows[i] == RowOf(data[i], i, totalNodes)
  {
    seq(App.Visible(|data|, currentStep), i requires 0 <= i < App.Visible(|data|, currentStep) =>
      RowOf(data[i], i, totalNodes))
  }

  /** The figures the summary cards read from the final row. */
  datatype Totals = Totals(susceptible: int, exposed: int, infected: int, recovered: int)

  /** `finalStats`: the last row, or everybody susceptible when there are no rows. */
  function FinalStats(rows: seq<Row>, totalNodes: int): (t: Totals)
    ensures |rows| == 0 ==> t == Totals(totalNodes, 0, 0, 0)
    ensures |rows| > 0 ==>
      var last := rows[|rows| - 1];
      t == Totals(last.susceptible, last.exposed, last.infected, last.recovered)
  {
    if |rows| == 0 then Totals(totalNodes, 0, 0, 0)
    else
      var last := rows[|rows| - 1];
      Totals(last.susceptible, last.exposed, last.infected, last.recovered)
  }

  /** `Math.max(...xs)` on a non-empty list of integers. */
  function Peak(xs: seq<int>): (m: int)
    requires |xs| > 0
    ensures m in xs
    ensures forall i :: 0 <= i < |xs| ==> xs[i] <= m
  {
    if |xs| == 1 then xs[0]
    else
      var rest := Peak(xs[1..]);
      assert forall i :: 1 <= i < |xs| ==> xs[i] == xs[1..][i - 1];
      if xs[0] >= rest then xs[0] else rest
  }

  function ExposedColumn(rows: seq<Row>): (c: seq<int>)
    ensures |c| == |rows| && forall i :: 0 <= i < |rows| ==> c[i] == rows[i].exposed
  {
    seq(|rows|, i requires 0 <= i < |rows| => rows[i].exposed)
  }

  function InfectedColumn(rows: seq<Row>): (c: seq<int>)
    ensures |c| == |rows| && forall i :: 0 <= i < |rows| ==> c[i] == rows[i].infected
  {
    seq(|rows|, i requires 0 <= i < |rows| => rows[i].infected)
  }

  function ActiveColumn(rows: seq<Row>): (c: seq<int>)
    ensures |c| == |rows| && forall i :: 0 <= i < |rows| ==> c[i] == rows[i].activeInfections
  {
    seq(|rows|, i requires 0 <= i < |rows| => rows[i].activeInfections)
  }

  /** The denominator of the reproduction ratio: the first record's infected-list length,
      or 1 when that list is empty (0 is falsy). */
  function SeedCount(first: StepRecord): (d: nat)
    ensures d >= 1
    ensures |first.infected| > 0 ==> d == |first.infected|
  {
    if |first.infected| != 0 then |first.infected| else 1
  }

  /** `reproductionRate` before formatting: 0 unless some row shows an infection. */
  function ReproductionRate(totalInfections: int, first: StepRecord): (rate: real)
    ensures rate >= 0.0
    ensures rate == 0.0 <==> totalInfections <= 0
    ensures totalInfections > 0 ==> rate * (SeedCount(first) as real) == totalInfections as real
  {
    if totalInfections > 0 then (totalInfections as real) / (SeedCount(first) as real) else 0.0
  }

  /** A bar of the daily-changes chart. */
  datatype Change = Change(step: nat, newInfections: nat, newRecoveries: nat)

  predicate Eventful(row: Row)
  {
    row.newInfections > 0 || row.newRecoveries > 0
  }

  function ChangeOf(row: Row): Change
  {
    Change(row.step, row.newInfections, row.newRecoveries)
  }

  /** The rows with a new infection or a new recovery, in order, as bars. */
  function Eventfuls(rows: seq<Row>): (r: seq<Change>)
    ensures |r| <= |rows|
    ensures forall k :: 0 <= k < |r| ==> r[k].newInfections > 0 || r[k].newRecoveries > 0
    ensures |r| == 0 <==> forall i :: 0 <= i < |rows| ==> !Eventful(rows[i])
  {
    if |rows| == 0 then []
    else
      var rest := Eventfuls(rows[1..]);
      assert forall i :: 1 <= i < |rows| ==> rows[i] == rows[1..][i - 1];
      if Eventful(rows[0]) then [ChangeOf(rows[0])] + rest else rest
  }

  /** The bars of the daily-changes chart: never empty; a single zero bar at step 0 stands
      in when no row changed anything. */
  function DailyChanges(rows: seq<Row>): (r: seq<Change>)
    ensures |r| > 0
    ensures r == [Change(0, 0, 0)] <==> forall i :: 0 <= i < |rows| ==> !Eventful(rows[i])
    ensures (exists i :: 0 <= i < |rows| && Eventful(rows[i])) ==> r == Eventfuls(rows)
  {
    var e := Eventfuls(rows);
    if |e| == 0 then [Change(0, 0, 0)]
    else
      assert e[0].newInfections > 0 || e[0].newRecoveries > 0;
      e
  }

  /** `r` is a list of bars of rows numbered consecutively from `offset`: each bar is the
      bar of an eventful row, the one its step names, and the steps strictly increase. */
  predicate BarsOf(r: seq<Change>, rows: seq<Row>, offset: nat)
  {
    (forall k :: 0 <= k < |r| ==>
       offset <= r[k].step < offset + |rows| &&
       Eventful(rows[r[k].step - offset]) && r[k] == ChangeOf(rows[r[k].step - offset])) &&
    (forall k, l :: 0 <= k < l < |r| ==> r[k].step < r[l].step)
  }

  /** Bars of the rows after the first are bars of all the rows. */
  lemma WidenBars(r: seq<Change>, rows: seq<Row>, offset: nat)
    requires |rows| > 0 && BarsOf(r, rows[1..], offset + 1)
    ensures BarsOf(r, rows, offset)
  {
    forall k | 0 <= k < |r|
      ensures rows[r[k].step - offset] == rows[1..][r[k].step - (offset + 1)]
    {
    }
  }

  /** The first row's bar goes in front of bars of the later rows. */
  lemma PrependBar(r: seq<Change>, rows: seq<Row>, offset: nat)
    requires |rows| > 0 && rows[0].step == offset && Eventful(rows[0])
    requires BarsOf(r, rows, offset)
    requires forall k :: 0 <= k < |r| ==> offset < r[k].step
    ensures BarsOf([ChangeOf(rows[0])] + r, rows, offset)
  {
    var s := [ChangeOf(rows[0])] + r;
    assert forall k :: 1 <= k < |s| ==> s[k] == r[k - 1];
  }

  /** Over rows numbered consecutively from `offset`, the filter keeps record order and each
      bar names the row it came from. */
  lemma {:induction false} EventfulsInOrder(rows: seq<Row>, offset: nat)
    requires forall i :: 0 <= i < |rows| ==> rows[i].step == offset + i
    ensures BarsOf(Eventfuls(rows), rows, offset)
  {
    if |rows| > 0 {
      var rest := Eventfuls(rows[1..]);
      EventfulsInOrder(rows[1..], offset + 1);
      WidenBars(rest, rows, offset);
      if Eventful(rows[0]) {
        PrependBar(rest, rows, offset);
      }
    }
  }

  /** No eventful row is left out of the bars. */
  lemma {:induction false} EventfulsComplete(rows: seq<Row>, i: nat)
    requires i < |rows| && Eventful(rows[i])
    ensures ChangeOf(rows[i]) in Eventfuls(rows)
  {
    if i > 0 {
      assert rows[i] == rows[1..][i - 1];
      EventfulsComplete(rows[1..], i - 1);
    }
  }

  /** The chart bars of a history: the eventful rows in record order, each labelled with its
      record position. */
  lemma DailyChangesFollowRecords(data: seq<StepRecord>, currentStep: nat, totalNodes: int)
    ensures var rows := ChartData(data, currentStep, totalNodes);
      var r := DailyChanges(rows);
      (exists i :: 0 <= i < |rows| && Eventful(rows[i])) ==>
        (forall k :: 0 <= k < |r| ==>
           (r[k].step < |rows| &&
            r[k].newInfections == |data[r[k].step].newInfected| &&
            r[k].newRecoveries == |data[r[k].step].newRecovered|)) &&
        (forall k, l :: 0 <= k < l < |r| ==> r[k].step < r[l].step)
  {
    var rows := ChartData(data, currentStep, totalNodes);
    EventfulsInOrder(rows, 0);
  }

  /** Everything the panel shows apart from formatting. */
  datatype Summary = Summary(
    rows: seq<Row>,
    final: Totals,
    peakExposed: int,
    peakInfected: int,
    peakActiveInfections: int,
    totalInfections: int,
    reproductionRate: real,
    dailyChanges: seq<Change>)

  /** The panel: `None` (the placeholder) without data, otherwise the derived figures. */
  function Summarize(data: seq<StepRecord>, currentStep: nat, totalNodes: int): (s: Option<Summary>)
    ensures s.None? <==> |data| == 0
    ensures s.Some? ==>
      var v := s.value;
      v.rows == ChartData(data, currentStep, totalNodes) && |v.rows| > 0 &&
      v.final == FinalStats(v.rows, totalNodes) &&
      (forall i :: 0 <= i < |v.rows| ==>
         v.rows[i].exposed <= v.peakExposed && v.rows[i].infected <= v.peakInfected &&
         v.rows[i].activeInfections <= v.peakActiveInfections) &&
      (exists i :: 0 <= i < |v.rows| && v.rows[i].exposed == v.peakExposed) &&
      (exists i :: 0 <= i < |v.rows| && v.rows[i].infected == v.peakInfected) &&
      (exists i :: 0 <= i < |v.rows| && v.rows[i].activeInfections == v.peakActiveInfections) &&
      v.totalInfections == v.peakInfected &&
      v.final.infected <= v.peakInfected &&
      v.reproductionRate == ReproductionRate(v.totalInfections, data[0]) &&
      |v.dailyChanges| > 0 && v.dailyChanges == DailyChanges(v.rows)
  {
    if |data| == 0 then None
    else
      var rows := ChartData(data, currentStep, totalNodes);
      var exposed := ExposedColumn(rows);
      var infected := InfectedColumn(rows);
      var active := ActiveColumn(rows);
      var peakExposed := Peak(exposed);
      var peakInfected := Peak(infected);
      var peakActive := Peak(active);
      assert infected[|rows| - 1] == rows[|rows| - 1].infected;
      Some(Summary(rows, FinalStats(rows, totalNodes), peakExposed, peakInfected, peakActive,
                   peakInfected, ReproductionRate(peakInfected, data[0]), DailyChanges(rows)))
  }
}
