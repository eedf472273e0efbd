/** The simulation page: replays the history the back end returns, folding the records up to the
    current step into the sets of infected and recovered nodes it draws, with a small playback
    state machine and summary statistics. */
module App {
  import opened Common

  /** The two sets the draw effect rebuilds on every render. */
  datatype Drawn = Drawn(infected: set<NodeId>, recovered: set<NodeId>)

  /** One record's effect: its `infected` and `new_infected` ids join the infected set, then each
      `new_recovered` id leaves it and joins the recovered set. */
  function ApplyRecord(d: Drawn, r: StepRecord): (e: Drawn)
    ensures e.recovered == d.recovered + Elems(r.newRecovered)
    ensures forall id :: id in e.infected <==>
              (id in d.infected || id in r.infected || id in r.newInfected) && id !in r.newRecovered
  {
    Drawn((d.infected + Elems(r.infected) + Elems(r.newInfected)) - Elems(r.newRecovered),
          d.recovered + Elems(r.newRecovered))
  }

  /** The drawn state after the records `rs`, applied first to last from empty sets. */
  function Fold(rs: seq<StepRecord>): Drawn
  {
    if |rs| == 0 then Drawn({}, {}) else ApplyRecord(Fold(rs[..|rs| - 1]), rs[|rs| - 1])
  }

  /** How many records the draw effect visits: indices 0 through `currentStep`, within the data. */
  function Visible(len: nat, currentStep: nat): (n: nat)
    ensures n <= len && n <= currentStep + 1
    ensures n == len || n == currentStep + 1
  {
    if currentStep + 1 < len then currentStep + 1 else len
  }

  /** `ids.forEach(id => s.add(id))`. */
  method AddAll(s: set<NodeId>, ids: seq<NodeId>) returns (r: set<NodeId>)
    ensures r == s + Elems(ids)
  {
    r := s;
    var i := 0;
    while i < |ids|
      invariant i <= |ids|
      invariant r == s + Elems(ids[..i])
    {
      assert ids[..i + 1] == ids[..i] + [ids[i]];
      r := r + {ids[i]};
      i := i + 1;
    }
    assert ids[..i] == ids;
  }

  /** `ids.forEach(id => { infected.delete(id); recovered.add(id); })`. */
  method MoveAll(infected: set<NodeId>, recovered: set<NodeId>, ids: seq<NodeId>)
    returns (inf: set<NodeId>, rec: set<NodeId>)
    ensures inf == infected - Elems(ids) && rec == recovered + Elems(ids)
  {
    inf, rec := infected, recovered;
    var i := 0;
    while i < |ids|
      invariant i <= |ids|
      invariant inf == infected - Elems(ids[..i]) && rec == recovered + Elems(ids[..i])
    {
      assert ids[..i + 1] == ids[..i] + [ids[i]];
      inf := inf - {ids[i]};
      rec := rec + {ids[i]};
      i := i + 1;
    }
    assert ids[..i] == ids;
  }

  /** The status loop of the draw effect. Without simulation data both sets stay empty. */
  method DrawnSets(data: Option<seq<StepRecord>>, currentStep: nat) returns (infected: set<NodeId>, recovered: set<NodeId>)
    ensures data.None? ==> infected == {} && recovered == {}
    ensures data.Some? ==> Drawn(infected, recovered) == Fold(data.value[..Visible(|data.value|, currentStep)])
  {
    infected, recovered := {}, {};
    if data.Some? {
      var rs := data.value;
      var i := 0;
      while i <= currentStep && i < |rs|
        invariant i <= Visible(|rs|, currentStep)
        invariant Drawn(infected, recovered) == Fold(rs[..i])
      {
        var step := rs[i];
        infected := AddAll(infected, step.infected);
        infected := AddAll(infected, step.newInfected);
        infected, recovered := MoveAll(infected, recovered, step.newRecovered);
        assert rs[..i + 1][..i] == rs[..i];
        i := i + 1;
      }
    }
  }

  /** Nothing is ever taken out of the recovered set: replaying more records only adds to it. */
  lemma {:induction false} RecoveredGrows(rs: seq<StepRecord>, k: nat, m: nat)
    requires k <= m <= |rs|
    ensures Fold(rs[..k]).recovered <= Fold(rs[..m]).recovered
    decreases m - k
  {
    if k < m {
      RecoveredGrows(rs, k, m - 1);
      assert rs[..m][..m - 1] == rs[..m - 1];
    }
  }

  /** An id recovered by the last record replayed is drawn recovered, even when the same record
      also lists it as infected, because removals follow additions. */
  lemma RecoveredLastIsNotInfected(rs: seq<StepRecord>, id: NodeId)
    requires |rs| > 0 && id in rs[|rs| - 1].newRecovered
    ensures NodeColour(Fold(rs), id) == RecoveredColour
  {
  }

  const InfectedColour := "#ef4444"
  const RecoveredColour := "#22c55e"
  const SusceptibleColour := "#3b82f6"

  /** The fill colour of a node: infected wins over recovered, which wins over susceptible. */
  function NodeColour(d: Drawn, id: NodeId): (c: string)
    ensures c == InfectedColour <==> id in d.infected
    ensures c == RecoveredColour <==> id !in d.infected && id in d.recovered
    ensures c == SusceptibleColour <==> id !in d.infected && id !in d.recovered
  {
    if id in d.infected then InfectedColour
    else if id in d.recovered then RecoveredColour
    else SusceptibleColour
  }

  /** Before any simulation is loaded every node is drawn susceptible. */
  lemma NoDataAllSusceptible(id: NodeId)
    ensures var d := Fold([]); NodeColour(d, id) == SusceptibleColour
  {
  }

  /** The most links the draw effect considers. */
  const EdgeLimit: nat := 5000

  /** `nodes.find(n => n.id === link.source)`: a bare id is looked up, while an endpoint that is
      a node object never equals a number and resolves to nothing. */
  function EndpointNode(nodes: seq<GraphNode>, e: Endpoint): (r: Option<GraphNode>)
    ensures e.ByNode? ==> r.None?
    ensures e.ById? ==> r == Find(nodes, e.id)
  {
    match e
    case ById(id) => Find(nodes, id)
    case ByNode(_) => None
  }

  /** The segment drawn for a link, when both of its endpoints resolve. */
  function Segment(nodes: seq<GraphNode>, l: Link): Option<(GraphNode, GraphNode)>
  {
    match (EndpointNode(nodes, l.source), EndpointNode(nodes, l.target))
    case (Some(s), Some(t)) => Some((s, t))
    case _ => None
  }

  /** The segments of the links `ls` whose endpoints resolve, in order. */
  function Segments(nodes: seq<GraphNode>, ls: seq<Link>): (r: seq<(GraphNode, GraphNode)>)
    ensures |r| <= |ls|
    ensures forall e :: e in r <==> exists j :: 0 <= j < |ls| && Segment(nodes, ls[j]) == Some(e)
  {
    if |ls| == 0 then []
    else
      var rest := Segments(nodes, ls[1..]);
      assert forall j :: 0 < j < |ls| ==> ls[j] == ls[1..][j - 1];
      (if Segment(nodes, ls[0]).Some? then [Segment(nodes, ls[0]).value] else []) + rest
  }

  /** The segments the draw effect strokes: at most the first 5000 links, each only when both
      endpoints are among the nodes. */
  function EdgesToDraw(nodes: seq<GraphNode>, links: seq<Link>): (r: seq<(GraphNode, GraphNode)>)
    ensures |r| <= EdgeLimit
    ensures forall e :: e in r <==>
              exists j :: 0 <= j < |links| && j < EdgeLimit && Segment(nodes, links[j]) == Some(e)
  {
    var shown := if |links| > EdgeLimit then links[..EdgeLimit] else links;
    assert forall j :: 0 <= j < |shown| ==> shown[j] == links[j];
    Segments(nodes, shown)
  }

  /** The playback state: the replayed step and whether playback runs. */
  datatype Playback = Playback(step: nat, playing: bool)

  /** One run of the playback effect for loaded data of `len` records (no data: no change). While
      playing short of the last record it advances one step; at or past the last record it
      switches playback off. */
  function Tick(pb: Playback, data: Option<nat>): (r: Playback)
    ensures data.None? ==> r == pb
    ensures data.Some? && pb.playing && pb.step < data.value - 1 ==> r == Playback(pb.step + 1, true)
    ensures data.Some? && pb.step >= data.value - 1 ==> r == Playback(pb.step, false)
    ensures data.Some? && !pb.playing && pb.step < data.value - 1 ==> r == pb
  {
    if data.None? then pb
    else if pb.playing && pb.step < data.value - 1 then Playback(pb.step + 1, true)
    else if pb.step >= data.value - 1 then pb.(playing := false)
    else pb
  }

  /** `n` runs of the playback effect. */
  function Ticks(pb: Playback, len: nat, n: nat): Playback
    decreases n
  {
    if n == 0 then pb else Ticks(Tick(pb, Some(len)), len, n - 1)
  }

  /** Playing from step `s` of `len` records reaches the last record after exactly `len - 1 - s`
      ticks, still playing, and the next tick stops playback there. */
  lemma {:induction false} PlaybackReachesEnd(s: nat, len: nat)
    requires s < len
    ensures Ticks(Playback(s, true), len, len - 1 - s) == Playback(len - 1, true)
    ensures Tick(Ticks(Playback(s, true), len, len - 1 - s), Some(len)) == Playback(len - 1, false)
    decreases len - s
  {
    if s < len - 1 {
      PlaybackReachesEnd(s + 1, len);
    }
  }

  /** Ticking never moves the step past the last record, once it is within the data. */
  lemma {:induction false} TicksStayInRange(pb: Playback, len: nat, n: nat)
    requires pb.step < len
    ensures Ticks(pb, len, n).step < len
    ensures Ticks(pb, len, n).step >= pb.step
    decreases n
  {
    if n > 0 {
      TicksStayInRange(Tick(pb, Some(len)), len, n - 1);
    }
  }

  /** The play/pause button. */
  function TogglePlay(pb: Playback): (r: Playback)
    ensures r.step == pb.step && r.playing != pb.playing
  {
    pb.(playing := !pb.playing)
  }

  /** The reset button, and the start of a new run: back to step 0, stopped. */
  function Reset(pb: Playback): (r: Playback)
    ensures r.step == 0 && !r.playing
  {
    Playback(0, false)
  }

  /** The step slider, whose range is 0 through `len - 1`: jumps to the chosen step, stopped. */
  function Scrub(pb: Playback, value: nat, len: nat): (r: Playback)
    requires value < len
    ensures r.step == value && r.step < len && !r.playing
  {
    Playback(value, false)
  }

  /** The summary shown under the charts (the attack-rate percentage is formatting only). */
  datatype Statistics = Statistics(totalNodes: nat, finalRecovered: nat, finalInfected: nat,
                                   susceptible: int, maxInfected: nat, peakTime: int)

  /** `getStatistics`: nothing without data; otherwise the final totals, and the peak of
      `total_infected` with the time of the first record that reaches it. */
  method GetStatistics(data: Option<seq<StepRecord>>, totalNodes: nat) returns (st: Option<Statistics>)
    ensures st.None? <==> data.None? || |data.value| == 0
    ensures st.Some? ==>
              var rs := data.value;
              var last := rs[|rs| - 1];
              st.value.totalNodes == totalNodes &&
              st.value.finalRecovered == last.totalRecovered &&
              st.value.finalInfected == last.totalInfected &&
              st.value.susceptible == totalNodes - last.totalRecovered - last.totalInfected &&
              (forall i :: 0 <= i < |rs| ==> rs[i].totalInfected <= st.value.maxInfected) &&
              (st.value.maxInfected == 0 ==> st.value.peakTime == 0) &&
              (st.value.maxInfected > 0 ==>
                 exists i :: 0 <= i < |rs| && rs[i].totalInfected == st.value.maxInfected &&
                             rs[i].time == st.value.peakTime &&
                             forall j :: 0 <= j < i ==> rs[j].totalInfected < st.value.maxInfected)
  {
    if data.None? || |data.value| == 0 {
      return None;
    }
    var rs := data.value;
    var finalState := rs[|rs| - 1];
    var maxInfected: nat := 0;
    var peakTime := 0;
    var i := 0;
    while i < |rs|
      invariant i <= |rs|
      invariant forall k :: 0 <= k < i ==> rs[k].totalInfected <= maxInfected
      invariant maxInfected == 0 ==> peakTime == 0
      invariant maxInfected > 0 ==>
                exists k :: 0 <= k < i && rs[k].totalInfected == maxInfected && rs[k].time == peakTime &&
                            forall j :: 0 <= j < k ==> rs[j].totalInfected < maxInfected
    {
      if rs[i].totalInfected > maxInfected {
        maxInfected := rs[i].totalInfected;
        peakTime := rs[i].time;
      }
      i := i + 1;
    }
    var finalRecovered := finalState.totalRecovered;
    var finalInfected := finalState.totalInfected;
    st := Some(Statistics(totalNodes, finalRecovered, finalInfected,
                          totalNodes - finalRecovered - finalInfected, maxInfected, peakTime));
  }

  /** A row of the population chart. */
  datatype SeriesRow = SeriesRow(step: nat, infected: nat, recovered: nat, susceptible: int)

  /** `getTimeSeriesData`: one row per record, numbered by position; the three compartments of a
      row always add up to the node count. */
  function TimeSeries(data: Option<seq<StepRecord>>, totalNodes: nat): (rows: seq<SeriesRow>)
    ensures data.None? ==> rows == []
    ensures data.Some? ==> |rows| == |data.value|
    ensures data.Some? ==> forall i :: 0 <= i < |rows| ==>
              rows[i].step == i &&
              rows[i].infected == data.value[i].totalInfected &&
              rows[i].recovered == data.value[i].totalRecovered &&
              rows[i].infected + rows[i].recovered + rows[i].susceptible == totalNodes
  {
    if data.None? then []
    else
      var rs := data.value;
      seq(|rs|, i requires 0 <= i < |rs| =>
        SeriesRow(i, rs[i].totalInfected, rs[i].totalRecovered,
                  totalNodes - rs[i].totalInfected - rs[i].totalRecovered))
  }
}
