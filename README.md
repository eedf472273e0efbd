# Contact-tracing epidemic simulator — a Dafny model

This project models the core of a contact-network epidemic simulator. The back end replays a
time-ordered table of proximity contacts (`timestamp`, `u`, `v`) and produces one of two
things:

- an SIR history (`run_simulation`);
- a stream of SEIRD reports for measles (`MeaslesSimulation` and
  `run_measles_simulation_generator`). Measles also spreads through the air: an infectious
  person sheds load into their community's air, and ventilation removes it.

The front end turns a history into a picture:

- **Playback.** `App.jsx` steps through the records, folds them into the sets of infected and
  recovered people drawn on screen, and computes summary statistics.
- **Canvas map.** `CustomTownMap.jsx` scales the layout onto a canvas. It supports panning,
  wheel zoom, culling to the viewport, and a jump to the infection hotspot.
- **Geographic map.** `MapLayout.jsx` maps the layout onto a latitude/longitude box.
- **Charts.** `Statistics.jsx` builds chart rows, peaks, a reproduction rate and a list of
  daily changes.
- **Event list.** `Timeline.jsx` lists the shown records newest first.
- **Spatial index.** `QuadTree.js` is a point-region quadtree with a range query: points
  are stored up to a node's capacity, a full node splits into four quadrants, and a query
  collects the points inside a rectangle.
- **Layout settings.** `config.py` reads the layout settings from the environment and picks
  cheaper ones for large graphs.

## How the model is organised

Each source file has its own module:

| Module | Source | File |
|---|---|---|
| `Common` | shared data | `common.dfy` |
| `QuadTree` | `QuadTree.js` | `quadtree.dfy` |
| `App` | `App.jsx` | `app.dfy` |
| `TownMap` | `CustomTownMap.jsx` | `town_map.dfy` |
| `Statistics` | `Statistics.jsx` | `statistics.dfy` |
| `Timeline` | `Timeline.jsx` | `timeline.dfy` |
| `MapLayout` | `MapLayout.jsx` | `map_layout.dfy` |
| `Config` | `config.py` | `config.dfy` |
| `Sir` | `sir_model.py` | `sir_model.dfy` |
| `Measles` | `measles_model.py` | `measles_model.dfy` |

`Common` holds the shared data: node ids, graph nodes, the step record the back end sends and
the front end reads, `Option`, and small sequence helpers.

Each piece of source is modelled in the form it has:

- **Pure code becomes functions.**
  - The quadtree's recursive `insert`/`subdivide` are functions on a tree value. The tree is
    linked only downwards and is never shared.
  - The React render computations, the event handlers (a transform in, a transform out) and
    `get_layout_settings` are also functions.
- **Loops become methods with invariants.** This covers:
  - the quadtree `query` and its point loop;
  - the fold of the visible records in `App.jsx`;
  - `getStatistics`;
  - the active-link filter;
  - the hotspot's counting and maximum loops;
  - the SIR recovery and transmission loops and the loop over timestamp groups.
- **`MeaslesSimulation` is a class.** Its fields are the node states, the community loads and
  the event heap. Its methods (`infect_node`, the phases of `step`, `step` itself) update
  those fields in place. Its invariant `Valid` says:
  - the heap is sorted;
  - it holds one entry per exposed or infectious person;
  - that entry is the transition the person awaits.

  A snapshot (`Snap`) holds the states, the loads, the heap and the two draw counters. Each
  loop of `step` has a function on snapshots that applies its rows in order: `EventsOf`,
  `ContactsOf` and `AirOf`, with `StepOf` for the whole step. Each method ensures that its
  new snapshot `Now()` is that function of the old one.
- **The generator is a method.** It seeds the run, steps through the timestamp groups, and
  then drains the heap in 20-second steps, at most 1000 of them.

Randomness is a parameter:

- `uniform(k)` is the k-th `random.random()`;
- `normal(mean, sd, k)` is the k-th normal sample;
- `exp` is the exponential function;
- `sample` is the patient-zero sample.

The model counts how many draws have been made, so it can name the number each decision
used.

## Model

| member | source | states |
|---|---|---|
| Common.Find | frontend/src/App.jsx:121-122 | `find` returns a node with the requested id exactly when one exists, and it is the first such node |
| Common.SeqMin | frontend/src/components/CustomTownMap.jsx:40-43 | `Math.min(...)` over a non-empty list is an element of the list and no larger than any element |
| Common.SeqMax | frontend/src/components/MapLayout.jsx:34-35 | `Math.max(...)` over a non-empty list is an element of the list and no smaller than any element |
| QuadTree.QuadrantsCover | frontend/src/utils/QuadTree.js:64-76 | a point lies in a box exactly when it lies in one of the four quadrants `subdivide` creates, so subdividing loses no part of the box |
| QuadTree.SharedPointIntersects | frontend/src/utils/QuadTree.js:26-33 | two boxes that share a point intersect, in both directions |
| QuadTree.IntersectsIffSharedPoint | frontend/src/utils/QuadTree.js:26-33 | for boxes of non-negative size, the `intersects` test holds exactly when some point lies in both boxes |
| QuadTree.MatchesOutside | frontend/src/utils/QuadTree.js:79 | when the range does not intersect a node's box, none of the node's points is in range, so pruning loses no result |
| QuadTree.MatchesExact | frontend/src/utils/QuadTree.js:81-85 | the filter reports each data value exactly as many times as an in-range point carries it |
| QuadTree.ElementsInside | frontend/src/utils/QuadTree.js:44-62 | every point stored anywhere in a valid tree lies inside the root's box |
| QuadTree.Empty | frontend/src/utils/QuadTree.js:37-42 | a new tree is valid, holds no points, and keeps its box, capacity and depth budget |
| QuadTree.Subdivide | frontend/src/utils/QuadTree.js:64-76 | subdividing a full leaf gives a valid node with four empty children on the NW, NE, SW and SE quadrants, and the stored points are unchanged |
| QuadTree.Insert | frontend/src/utils/QuadTree.js:44-62 | insertion keeps the tree valid. A point outside the box is refused and changes nothing. A point inside a node with room is appended to its own points. A full node keeps its own points. On success the tree gains exactly the point. On refusal the stored points are unchanged |
| QuadTree.Dispatch | frontend/src/utils/QuadTree.js:56-61 | offering the point to the children in order either adds exactly that point to one subtree or leaves the tree as it was; the node's own points are never touched |
| QuadTree.InsertAccepts | frontend/src/utils/QuadTree.js:44-62 | a point inside the box is always accepted when the capacity is positive and the depth budget is at least the number of stored points: a full node subdivides and one of its quadrants, whose child has budget to spare, takes the point |
| QuadTree.DispatchAccepts | frontend/src/utils/QuadTree.js:56-61 | the `||` chain over the children accepts the point when some quadrant in it contains the point and its child has depth budget for the points it already stores |
| QuadTree.InsertThenQuery | frontend/src/utils/QuadTree.js:44-94 | after a successful insert, a query of any range returns the old results plus the new point's data exactly when the range contains the point |
| QuadTree.Query | frontend/src/utils/QuadTree.js:78-94 | `query` appends to `found` exactly the data of the stored points inside the range |
| QuadTree.QueryChildren | frontend/src/utils/QuadTree.js:87-92 | querying the four children in order appends their in-range data in NW, NE, SW, SE order |
| QuadTree.CollectOwn | frontend/src/utils/QuadTree.js:81-85 | the loop over a node's own points appends the data of those in range, in order |
| App.ApplyRecord | frontend/src/App.jsx:98-110 | after one record the recovered set gains that record's new recoveries. A node is infected exactly when it was infected before or the record lists it as infected or newly infected, and the record does not recover it |
| App.Visible | frontend/src/App.jsx:97 | the fold looks at the first `currentStep + 1` records, or all of them when there are fewer |
| App.AddAll | frontend/src/App.jsx:99-104 | adding a list of ids to a set gives the union with the list's ids |
| App.MoveAll | frontend/src/App.jsx:105-110 | recovering a list removes its ids from the infected set and adds them to the recovered set |
| App.DrawnSets | frontend/src/App.jsx:92-112 | without data both sets are empty; otherwise they are the fold of the visible records |
| App.RecoveredGrows | frontend/src/App.jsx:105-109 | playing further never shrinks the recovered set |
| App.RecoveredLastIsNotInfected | frontend/src/App.jsx:139-145 | a node recovered by the last folded record is drawn in the recovered colour, even if an earlier record infected it |
| App.NodeColour | frontend/src/App.jsx:139-145 | infected wins over recovered, which wins over susceptible; each colour is chosen exactly in its case |
| App.NoDataAllSusceptible | frontend/src/App.jsx:139-145 | with no records folded every node is drawn susceptible |
| App.EndpointNode | frontend/src/App.jsx:121-122 | a bare-id endpoint is looked up among the nodes; an endpoint that is a node object never resolves |
| App.Segments | frontend/src/App.jsx:120-129 | a segment is drawn exactly for each link whose two endpoints both resolve |
| App.EdgesToDraw | frontend/src/App.jsx:118-129 | at most 5000 segments are drawn, exactly those of resolvable links among the first 5000 |
| App.Tick | frontend/src/App.jsx:60-75 | a playing timer advances one step until the last record, where it stops playing; paused or without data nothing changes |
| App.PlaybackReachesEnd | frontend/src/App.jsx:64-70 | playing from any step reaches the last record after exactly the remaining number of ticks, and the next tick stops playback there |
| App.TicksStayInRange | frontend/src/App.jsx:64-70 | however many ticks pass, the step never moves backwards and never leaves the records |
| App.TogglePlay | frontend/src/App.jsx:294 | the button flips playing and keeps the step |
| App.Reset | frontend/src/App.jsx:301-304 | reset returns to step 0, paused |
| App.Scrub | frontend/src/App.jsx:330-338 | moving the slider jumps to the chosen step, which is a valid record index, and pauses |
| App.GetStatistics | frontend/src/App.jsx:152-181 | no statistics without records. Otherwise the final counts come from the last record, and susceptible is the rest of the nodes. The maximum bounds every record's infected total. When it is positive it is attained, and the peak time is the time of the first record that attains it; when it is 0 the peak time stays 0 |
| App.TimeSeries | frontend/src/App.jsx:184-193 | one row per record, numbered by position, carrying the record's totals, with the three columns summing to the node count |
| TownMap.ScaleAxis | frontend/src/components/CustomTownMap.jsx:49-59 | the smallest coordinate maps to the padding and the largest to the far edge minus the padding; a flat axis maps to the middle; coordinates in range stay inside the padded canvas |
| TownMap.ScaleNodes | frontend/src/components/CustomTownMap.jsx:61-65 | each node keeps its data, and its screen position is its x scaled between the smallest and largest x onto the width minus twice the padding, and likewise y onto the height. On a canvas at least twice the padding every node lands inside the padded area |
| TownMap.ScaleNodesSpan | frontend/src/components/CustomTownMap.jsx:40-65 | a node with the smallest x lands at the padding, one with the largest x at the width minus the padding, and every node lands at the middle when all x are equal; likewise for y and the height |
| TownMap.FindScaled | frontend/src/components/CustomTownMap.jsx:68-69 | the scaled node with a given id is found exactly when it exists |
| TownMap.LinkKeyAsWritten | frontend/src/components/CustomTownMap.jsx:68-69 | `link.source.id \|\| link.source` resolves a bare id, but resolves a node object only when its id is not 0 |
| TownMap.LinkKey | frontend/src/components/CustomTownMap.jsx:68-69 | the intended endpoint key: a bare id itself, or the node object's id, including 0 |
| TownMap.ResolveWith | frontend/src/components/CustomTownMap.jsx:67-74 | the resolved links are exactly those whose two endpoints are found among the scaled nodes, and they join those nodes |
| TownMap.NodeZeroLinkDropped | frontend/src/components/CustomTownMap.jsx:68-69 | a link from the node object with id 0 is dropped as written and kept with the intended key |
| TownMap.ResolvedWhenPresent | frontend/src/components/CustomTownMap.jsx:67-74 | with the intended key, every link whose endpoints exist is drawn between them |
| TownMap.MaxRange | frontend/src/components/CustomTownMap.jsx:85-89 | the larger of the two screen spans bounds every difference of x and of y coordinates, and is itself the difference of two x or of two y coordinates |
| TownMap.ScreenSpans | frontend/src/components/CustomTownMap.jsx:85-88 | the x span of the screen positions bounds every difference of x coordinates and is the difference of a largest and a smallest x; likewise for y |
| TownMap.Fit | frontend/src/components/CustomTownMap.jsx:79-101 | no nodes leave the view unchanged. Otherwise the scale is at most 2 and the centroid lands at the centre of the canvas. With a positive span the scale is the fit scale; with a zero span (all nodes on one point) it is 2. The division by zero appears exactly for a zero span on a canvas no wider or taller than 100 |
| TownMap.CentreMean | frontend/src/components/CustomTownMap.jsx:97-101 | the translation puts the given centroid at the canvas centre |
| TownMap.FitScale | frontend/src/components/CustomTownMap.jsx:91-95 | the span, scaled, fits the canvas minus the 100-pixel margin in both directions, and the scale is the largest such scale up to 2 |
| TownMap.InViewportIffOnScreen | frontend/src/components/CustomTownMap.jsx:138-146 | a point passes the world-space viewport test exactly when its screen position is within 100 pixels of the canvas |
| TownMap.BackgroundEdges | frontend/src/components/CustomTownMap.jsx:152-161 | a background edge is drawn exactly when one of its endpoints is in the viewport |
| TownMap.ActiveMembers | frontend/src/components/CustomTownMap.jsx:163-172 | the active links are exactly the links from an infected node to a susceptible node with an endpoint in the viewport |
| TownMap.ActiveIsDirectional | frontend/src/components/CustomTownMap.jsx:165-166 | a link and its reversal are never both active |
| TownMap.ActiveLinks | frontend/src/components/CustomTownMap.jsx:163-172 | the filter loop computes exactly the active links, in order |
| TownMap.DrawState | frontend/src/components/CustomTownMap.jsx:188 | a node without a state, or whose state is the empty string, is drawn as susceptible; one with a non-empty state uses it |
| TownMap.NodeColour | frontend/src/components/CustomTownMap.jsx:119-125 | the infected colour exactly for infected, the recovered colour exactly for recovered, the default otherwise |
| TownMap.NodeSize | frontend/src/components/CustomTownMap.jsx:190 | infected nodes are drawn at radius 10 and every other node at radius 7 |
| TownMap.MissingStateLooksSusceptible | frontend/src/components/CustomTownMap.jsx:186-190 | a node absent from the state map looks exactly like a susceptible one |
| TownMap.Wheel | frontend/src/components/CustomTownMap.jsx:221-234 | the new scale is the old one times 0.92 or 1.08, clamped to [0.5, 10], and the world point under the mouse stays under the mouse |
| TownMap.MouseDown | frontend/src/components/CustomTownMap.jsx:236-239 | pressing starts a drag that remembers the mouse position relative to the translation |
| TownMap.MouseMove | frontend/src/components/CustomTownMap.jsx:241-248 | moving without a drag changes nothing, and no move changes the scale |
| TownMap.MouseUp | frontend/src/components/CustomTownMap.jsx:250-252 | releasing ends the drag |
| TownMap.DragFollowsMouse | frontend/src/components/CustomTownMap.jsx:236-248 | during a drag the translation moves by exactly the distance the mouse moved since it was pressed |
| TownMap.ZoomIn | frontend/src/components/CustomTownMap.jsx:254-259 | the scale becomes 1.3 times the old one, or exactly 5 when that would exceed 5; the translation is kept |
| TownMap.ZoomOut | frontend/src/components/CustomTownMap.jsx:261-266 | the scale becomes the old one divided by 1.3, or exactly 0.1 when that would fall below 0.1; the translation is kept |
| TownMap.ZoomInThenOut | frontend/src/components/CustomTownMap.jsx:254-266 | away from the caps, zooming in and then out restores the view |
| TownMap.ZoomToFit | frontend/src/components/CustomTownMap.jsx:268-270 | the fit button restores the initial transform |
| TownMap.CountInfections | frontend/src/components/CustomTownMap.jsx:273-279 | the counting loop gives each node the number of links on which it is the infected source |
| TownMap.PickMax | frontend/src/components/CustomTownMap.jsx:281-283 | the hotspot has the largest count, and among equal counts the largest id; there is none when nothing was counted |
| TownMap.CentreOnAsWritten | frontend/src/components/CustomTownMap.jsx:288-290 | as written, the translation centres the node at the old scale while the scale becomes 2 |
| TownMap.HotspotOffCentre | frontend/src/components/CustomTownMap.jsx:288-290 | at scale 1 on an 800×600 canvas, a node at (100, 100) lands at (500, 400) rather than the centre (400, 300) |
| TownMap.CentreOn | frontend/src/components/CustomTownMap.jsx:287-291 | the intended jump: scale 2 with the node at the canvas centre |
| TownMap.GoToHotspot | frontend/src/components/CustomTownMap.jsx:272-292 | the hotspot is the infected source of the most links, the larger id among equals. When it is among the scaled nodes the view becomes the as-written jump: translated for the current scale, with the scale set to 2. The view stays when the hotspot is not drawn, when there is no hotspot, and when no link has an infected source |
| TownMap.HottestUnique | frontend/src/components/CustomTownMap.jsx:281-283 | at most one node is the hotspot, so the jump is determined |
| TownMap.InfectedFromMeansInfected | frontend/src/components/CustomTownMap.jsx:275-279 | a node with a positive count is infected and is the source of some link |
| Statistics.RowOf | frontend/src/components/Statistics.jsx:13-35 | a row carries the record's step and time. Each total is the back end's figure when it is non-zero, and otherwise the length of the record's list. The four compartments sum to the node count. Active infections are infected minus recovered. The daily figures are the lengths of the new lists |
| Statistics.ChartData | frontend/src/components/Statistics.jsx:12-36 | one row per shown record, in order, and at least one row when there is data |
| Statistics.FinalStats | frontend/src/components/Statistics.jsx:38 | the final figures are the last row's, or all nodes susceptible without rows |
| Statistics.Peak | frontend/src/components/Statistics.jsx:39-42 | a peak is a value of the column and no value exceeds it |
| Statistics.SeedCount | frontend/src/components/Statistics.jsx:43 | the divisor is the first record's infected count, or 1 when it is empty |
| Statistics.ReproductionRate | frontend/src/components/Statistics.jsx:43 | the rate is non-negative, zero exactly without infections, and otherwise times the seed count gives the infection count |
| Statistics.Eventfuls | frontend/src/components/Statistics.jsx:50-54 | only rows with new infections or recoveries give a bar, and there is none exactly when no row has either |
| Statistics.DailyChanges | frontend/src/components/Statistics.jsx:50-58 | the bars of the eventful rows, or a single zero bar exactly when no row is eventful |
| Statistics.EventfulsInOrder | frontend/src/components/Statistics.jsx:50-54 | the bars come from rows in increasing step order and carry those rows' figures |
| Statistics.EventfulsComplete | frontend/src/components/Statistics.jsx:50 | every eventful row gives a bar |
| Statistics.DailyChangesFollowRecords | frontend/src/components/Statistics.jsx:50-58 | each bar names a shown record and counts exactly that record's new infections and recoveries, in increasing step order |
| Statistics.Summarize | frontend/src/components/Statistics.jsx:4-58 | the placeholder appears exactly without data. Otherwise the panel shows the chart rows and the last row's figures. Each peak is attained and bounds its column. Total infections is the infected peak and bounds the final infected count. The rate and the bars are those defined above |
| Timeline.Reverse | frontend/src/components/Timeline.jsx:12 | the reversed list has the same length and its i-th element is the i-th from the end |
| Timeline.DisplayData | frontend/src/components/Timeline.jsx:12 | the shown records are the first `currentStep + 1` (or all of them), newest first |
| Timeline.EventIcon | frontend/src/components/Timeline.jsx:19-27 | trending up exactly for infections alone, users exactly for recoveries alone, the activity icon when both or neither |
| Timeline.EventColour | frontend/src/components/Timeline.jsx:29-36 | red exactly for infections alone, blue exactly for recoveries alone, cyan otherwise |
| Timeline.IconMatchesColour | frontend/src/components/Timeline.jsx:19-36 | the icon and the colour always tell the same story |
| Timeline.EntryLabel | frontend/src/components/Timeline.jsx:84 | the last entry is the initial state, and every other entry is "Event n", where n counts back from the newest |
| Timeline.Entries | frontend/src/components/Timeline.jsx:41-44 | no entries (the placeholder) exactly without data; otherwise one entry per shown record with its icon, colour and label, and only the first flagged current |
| Timeline.LabelsFollowRecords | frontend/src/components/Timeline.jsx:41-84 | entry i shows record n-1-i. Record 0 is labelled the initial state and record j is labelled "Event j". Exactly the newest shown record is flagged current |
| MapLayout.NodeColour | frontend/src/components/MapLayout.jsx:5-14 | red exactly for infected, blue exactly for recovered, green for any other or missing state |
| MapLayout.ScaleLinear | frontend/src/components/MapLayout.jsx:37-47 | the lowest value maps to the low end of the box and the highest to the high end, and values in range stay inside the box. A flat range maps to the low end |
| MapLayout.ScaleLinearMonotone | frontend/src/components/MapLayout.jsx:37-47 | scaling preserves the order of coordinates |
| MapLayout.ScaleLinearMidpoint | frontend/src/components/MapLayout.jsx:50 | the midpoint of a non-flat range maps to the middle of the box |
| MapLayout.BoundsOf | frontend/src/components/MapLayout.jsx:32-35 | the bounds contain every node |
| MapLayout.Place | frontend/src/components/MapLayout.jsx:37-49 | latitude comes from y and longitude from x, each scaled into the box |
| MapLayout.ScaleNodes | frontend/src/components/MapLayout.jsx:49 | every node keeps its data and is placed inside the latitude/longitude box |
| MapLayout.Centre | frontend/src/components/MapLayout.jsx:50 | the centre is the placement of the bounds' midpoint: the middle of the box, or its low end on a flat axis |
| MapLayout.Lookup | frontend/src/components/MapLayout.jsx:53-54 | a scaled node with the id is found exactly when one exists |
| MapLayout.EndpointIdAsWritten | frontend/src/components/MapLayout.jsx:53-54 | `link.source.id` yields an id only for a node-object endpoint, never for a bare id |
| MapLayout.EndpointId | frontend/src/components/MapLayout.jsx:53-54 | the intended key: the bare id or the node's id |
| MapLayout.ScaleLink | frontend/src/components/MapLayout.jsx:52-62 | a link is kept exactly when both endpoint keys resolve to scaled nodes, and it joins their positions under its index |
| MapLayout.ScaleLinks | frontend/src/components/MapLayout.jsx:52-63 | the kept links are the resolvable ones, in order, each numbered by its position in the input |
| MapLayout.ScaleLinksComplete | frontend/src/components/MapLayout.jsx:52-63 | every resolvable link is kept |
| MapLayout.ScaledData | frontend/src/components/MapLayout.jsx:19-65 | nothing is laid out without nodes. Otherwise the nodes, links and centre are those defined above, and everything lies inside the box |
| MapLayout.BareLinkDropped | frontend/src/components/MapLayout.jsx:53-54 | a link with bare ids, as the back end sends it, is dropped as written and kept with the intended key |
| Config.Load | backend/config.py:7-10 | each setting is the environment's value when set, and the documented default otherwise |
| Config.LayoutSettings | backend/config.py:13-31 | above the threshold the fast layout, else above 1000 nodes the medium layout, else the configured one |
| Config.ThresholdDecidesFirst | backend/config.py:14-25 | with a threshold of at most 1000, every graph over 1000 nodes gets the fast layout |
| Config.DefaultIterationsFallWithSize | backend/config.py:7-31 | with defaults, a larger graph never gets more iterations: 50, 30 and 10 |
| Sir.Nodes | backend/sir_model.py:24 | every endpoint of every contact is a node |
| Sir.Push | backend/sir_model.py:42 | `heappush` keeps the recovery heap ordered with one entry per node and adds exactly the new entry |
| Sir.Initialise | backend/sir_model.py:24-42 | every node is susceptible except the sample, which is infected and queued to recover `duration` after the start |
| Sir.RecoverHead | backend/sir_model.py:63-71 | recovering the head of the heap keeps the state consistent |
| Sir.Recover | backend/sir_model.py:63-71 | exactly the due prefix of the heap recovers, in heap order. Those nodes leave the infected set and join the recovered set. The next entry, if any, is not yet due |
| Sir.AtRisk | backend/sir_model.py:78-91 | a contact puts someone at risk exactly when one side is infected and the other susceptible, and the one at risk is the susceptible side |
| Sir.InfectKeeps | backend/sir_model.py:82-97 | infecting a susceptible node and queueing its recovery keeps the state consistent |
| Sir.Transmit | backend/sir_model.py:74-97 | the loop is a chain of rows over the group. At each row the susceptible side of an infected/susceptible pair is infected exactly when the next draw is below the transmission probability, and only at-risk rows consume a draw. The newly infected are distinct and were susceptible; they become infected and nothing else changes. Each was put at risk by some row whose draw succeeded. When every draw succeeds, every node put at risk by some row ends infected. With probability 0 nobody is infected |
| Sir.TransmitRow | backend/sir_model.py:74-97 | one row of the group loop keeps the loop invariant and extends the chain of rows by one |
| Sir.Infect | backend/sir_model.py:82-97 | a successful coin infects the susceptible node, queues its recovery, counts the draw and keeps the spreading invariant |
| Sir.InfectedByRow | backend/sir_model.py:74-97 | a node that becomes infected across the rows was put at risk by some row whose draw succeeded |
| Sir.StaysInfected | backend/sir_model.py:74-97 | no later row of the group un-infects a node |
| Sir.RowsOutcome | backend/sir_model.py:74-97 | over a whole group, every newly infected node is explained by a successful row, and when every draw succeeds every node put at risk ends infected |
| Sir.RowsAppend | backend/sir_model.py:74-97 | one more row extends the chain of rows |
| Sir.SameGroupChain | backend/sir_model.py:74-97 | statuses update within a group: with contacts a–b then b–d at one timestamp, a infected and every draw succeeding, both b and d end infected |
| Sir.InitialRecord | backend/sir_model.py:45-49 | the first record is at the first timestamp, lists the sample as infected and reports no change |
| Sir.StepRecordOf | backend/sir_model.py:101-107 | a step record carries the step's time, its new infections and recoveries and the totals |
| Sir.AppendStep | backend/sir_model.py:99-107 | appending a step's record keeps the history's infection and recovery lists equal to the state's sets |
| Sir.AppendInfections | backend/sir_model.py:100-107 | after an appended record, each node has been infected at most once |
| Sir.AppendRecoveries | backend/sir_model.py:100-107 | after an appended record, each node has recovered at most once |
| Sir.QuietStep | backend/sir_model.py:100 | a group without change needs no record |
| Sir.TotalsAppend | backend/sir_model.py:105-106 | each record's totals are the sizes of the sets the front end draws after folding it |
| Sir.TotalsAtLast | backend/sir_model.py:105-106 | the last record's totals are the sizes of the folded history |
| Sir.TotalsAtAppend | backend/sir_model.py:105-106 | appending a record leaves the earlier records' totals as they were |
| Sir.ChangesAppend | backend/sir_model.py:100 | every record after the first reports a change |
| Sir.TimesAppend | backend/sir_model.py:58-102 | record times strictly increase and are not before the first timestamp |
| Sir.WellFormedAppend | backend/sir_model.py:100-107 | appending a record of a later group keeps the history well formed |
| Sir.GroupEnd | backend/sir_model.py:56-58 | a timestamp group runs over the contacts that share the first one's timestamp, up to the next larger timestamp |
| Sir.GroupProgress | backend/sir_model.py:58-107 | processing one group keeps the loop invariant |
| Sir.SimulateGroup | backend/sir_model.py:58-107 | the group's rows are the ones from `i` up to `GroupEnd`. Step A is `RecoveryDone` from the old state: exactly the due prefix of the heap recovers. Step B is `Transmitted` from there over the group's rows: the chain of per-row coins, with the recoveries queued `duration` later. A record of the step's time, new infections, new recoveries and totals is appended exactly when one of the two lists is non-empty. The loop invariant is kept |
| Sir.GroupAt | backend/sir_model.py:56-58 | the group of row `i` is the run of rows up to `GroupEnd`, element by element, and both ends of every contact in it are nodes of the table |
| Sir.Advance | backend/sir_model.py:62-97 | step A then step B on the state step A leaves: `RecoveryDone` then `Transmitted`, with the recoveries queued at `timestamp + duration` |
| Sir.GroupStep | backend/sir_model.py:58-107 | a group whose steps A and B did what `RecoveryDone` and `Transmitted` say, followed by its optional record, keeps the loop invariant |
| Sir.RunSimulation | backend/sir_model.py:5-109 | the error comes back exactly when no table is loaded. Otherwise the history starts with the sample and every later record reports a change, in increasing time, with totals equal to the front end's set sizes. Folding it gives the final infected and recovered sets. No node is infected twice or recovers twice |
| Measles.InsertSorted | backend/measles_model.py:59 | inserting an event after every earlier one and before every later one keeps the heap sorted |
| Measles.Schedule | backend/measles_model.py:59 | `heappush` adds the event to a sorted queue and keeps it sorted |
| Measles.DueInsert | backend/measles_model.py:83 | scheduling a future event adds nothing due now |
| Measles.TracksInsert | backend/measles_model.py:56-59 | exposing a susceptible node and queueing its event keeps the heap in step with the states |
| Measles.TracksRetire | backend/measles_model.py:94-101 | popping a recovery and retiring the node keeps the heap in step with the states |
| Measles.TracksPromote | backend/measles_model.py:86-92 | popping an onset and queueing the recovery keeps the heap in step with the states |
| Measles.InState | backend/measles_model.py:78 | the list of nodes in a state holds exactly the visited nodes in that state |
| Measles.InStateDistinct | backend/measles_model.py:78 | that list has no repeats |
| Measles.StateCount | backend/measles_model.py:140-143 | each total equals the number of nodes in that state |
| Measles.StatesPartition | backend/measles_model.py:140-143 | the five totals add up to the number of nodes |
| Measles.Contaminated | backend/measles_model.py:137 | the count of loaded communities is zero exactly when no community has a positive load |
| Measles.TotalLoadZero | backend/measles_model.py:136-137 | with non-negative loads, the total is non-negative and zero exactly when no community is loaded |
| Measles.Updates | backend/measles_model.py:134 | the reported updates are exactly the communities with a load above 0.1, with their loads |
| Measles.UpdatesContaminated | backend/measles_model.py:134-137 | every reported community is a loaded community, and there are none when none is loaded |
| Measles.Average | backend/measles_model.py:138 | the average times the count is the total, and it is 0 without communities |
| Measles.AverageLoad | backend/measles_model.py:136-138 | the average load is non-negative and zero exactly when no community is loaded |
| Measles.AtLeastOne | backend/measles_model.py:46 | `max(1, x)` is at least 1 and at least x, and is one of them |
| Measles.Duration | backend/measles_model.py:42-54 | a sampled duration lasts at least one day, and is the sampled number of days in seconds when that is at least one |
| Measles.ShedLoadTimes | backend/measles_model.py:78-81 | the shedding loop adds the shedding rate once per infectious member of the community |
| Measles.ShedLoadCount | backend/measles_model.py:78-81 | the load a community gains is the shedding rate times its number of infectious members |
| Measles.ApplyPromote | backend/measles_model.py:86-89 | promoting an exposed node extends the event phase's record of changes |
| Measles.ApplyRetire | backend/measles_model.py:94-101 | retiring an infectious node as dead or recovered extends the record of changes |
| Measles.ExposeOne | backend/measles_model.py:57 | exposing one more susceptible node extends the exposures |
| Measles.ExposesCompose | backend/measles_model.py:103-132 | the contact exposures followed by the airborne exposures are together one set of exposures |
| Measles.AtRisk | backend/measles_model.py:106-115 | a contact is a risk exactly when one side is infectious and the other susceptible, and then it names the infectious source and the susceptible target |
| Measles.ContactRisk | backend/measles_model.py:103-119 | earlier exposures within the loop change a contact's risk only by exposing its target |
| Measles.ContactAdvance | backend/measles_model.py:103-119 | one contact row keeps the contact loop's invariant |
| Measles.AirborneAdvance | backend/measles_model.py:121-132 | one candidate keeps the airborne loop's invariant |
| Measles.HeadNotDue | backend/measles_model.py:83 | when the head of the sorted heap is not due, no event is due |
| Measles.EventsThenExposes | backend/measles_model.py:83-132 | the event phase followed by the exposures is one step's change |
| Measles.StepAdvances | backend/measles_model.py:56-132 | in a step every node moves forward along susceptible, exposed, infectious, recovered or dead. Recovered and dead are absorbing. The dead and recovered sets grow by exactly the step's new deaths and recoveries |
| Measles.FinalStateGrows | backend/measles_model.py:94-101 | the step's new deaths, or new recoveries, are new to that set |
| Measles.ContactExplained | backend/measles_model.py:109-113 | a contact infection recorded in a step names an infectious node that met the newly exposed node in the group |
| Measles.YieldedAppend | backend/measles_model.py:208-233 | appending a later, newsworthy report keeps the stream's invariant |
| Measles.NextDrainTime | backend/measles_model.py:219-227 | each drain step is a whole number of 20-second steps after the last timestamp, at most 1000 of them |
| Measles.MeaslesSimulation.IncubationDuration | backend/measles_model.py:49-54 | an incubation lasts at least one day |
| Measles.MeaslesSimulation.RecoveryDuration | backend/measles_model.py:42-47 | an infectious period lasts at least one day |
| Measles.MeaslesSimulation.constructor | backend/measles_model.py:18-40 | a new simulation keeps its parameters, has every node susceptible and every community at zero load, and has an empty heap. Its snapshot (states, loads, heap and sample counters) is `Fresh()` |
| Measles.MeaslesSimulation.InfectNode | backend/measles_model.py:56-66 | the node becomes exposed, its onset is queued one incubation later, and the returned infection names it with its route, source and community. The snapshot after is `ExposeIn` of the one before |
| Measles.MeaslesSimulation.Expose | backend/measles_model.py:57-59 | the node becomes exposed and its onset is pushed one sampled incubation after the time; the heap stays sorted; the snapshot after is `ExposeIn` of the one before |
| Measles.MeaslesSimulation.DecayZones | backend/measles_model.py:75-76 | every community's load is multiplied by one minus the ventilation rate |
| Measles.MeaslesSimulation.Shed | backend/measles_model.py:78-81 | every community gains the shedding rate once per infectious member |
| Measles.MeaslesSimulation.PromoteHead | backend/measles_model.py:86-92 | the due onset at the head makes its exposed node infectious and queues the node's recovery, and fewer events are due. The snapshot after is one row of the event loop, `EventRowOf` |
| Measles.MeaslesSimulation.Promote | backend/measles_model.py:86-92 | the popped onset makes its node infectious and pushes its recovery one sampled recovery period after the time; the snapshot after is `EventRowOf` of the one before |
| Measles.MeaslesSimulation.EventRowOf | backend/measles_model.py:84-101 | one pass of the event loop keeps the nodes and loads and, when the head was due, leaves fewer due entries |
| Measles.MeaslesSimulation.EventRowPromotes | backend/measles_model.py:86-92 | a due onset for an exposed node makes it infectious, pushes its recovery and draws one normal sample |
| Measles.MeaslesSimulation.EventRowRetires | backend/measles_model.py:94-101 | a recovery for an infectious node makes it dead when the uniform draw is below the mortality rate and recovered otherwise, drawing one uniform sample |
| Measles.MeaslesSimulation.EventsOf | backend/measles_model.py:83-101 | the event loop keeps the nodes and loads and stops with no due head |
| Measles.MeaslesSimulation.EventsOfStep | backend/measles_model.py:83-84 | popping a due head is one pass of the event loop |
| Measles.MeaslesSimulation.PopEvent | backend/measles_model.py:83-101 | popping and applying the due head keeps the simulator valid and the loop invariant, leaves fewer due entries, and its snapshot after is `EventRowOf` |
| Measles.MeaslesSimulation.RetireHead | backend/measles_model.py:94-101 | the due recovery at the head makes its infectious node dead when the draw is below the mortality rate, and recovered otherwise. The snapshot after is one row of the event loop, `EventRowOf` |
| Measles.MeaslesSimulation.ProcessEvents | backend/measles_model.py:83-101 | every due event is applied: exposed to infectious, infectious to recovered or dead. Afterwards nothing is due, and nobody dies at zero mortality. The snapshot after is `EventsOf`: due heads popped one at a time |
| Measles.MeaslesSimulation.ContactRow | backend/measles_model.py:106-119 | a contact row infects exactly when it is a risk and the draw is below the transmission probability, and then it exposes the susceptible side. The snapshot after is `ContactRowOf` of the one before |
| Measles.MeaslesSimulation.ContactRowState | backend/measles_model.py:106-119 | one contact row exposes a node exactly when it infects it, and leaves every other node as it was |
| Measles.MeaslesSimulation.ContactsExposure | backend/measles_model.py:103-119 | over the contact loop a susceptible node ends exposed exactly when some row exposes it, and stays susceptible otherwise |
| Measles.MeaslesSimulation.ExposedByRowIff | backend/measles_model.py:103-119 | a node is exposed by the contact rows exactly when some row exposes it in the state left by the rows before it |
| Measles.MeaslesSimulation.ContactsOfKeys | backend/measles_model.py:103-119 | the contact loop drops no node |
| Measles.MeaslesSimulation.ContactPhase | backend/measles_model.py:103-119 | the contact loop exposes only susceptible nodes, each through a risky contact of the group. Nobody is exposed at probability 0, and every risky contact transmits at probability 1. The snapshot after is `ContactsOf`: the rows applied in order |
| Measles.MeaslesSimulation.AirRow | backend/measles_model.py:122-132 | a candidate is infected through the air exactly when its community is loaded and the draw is below the airborne probability, and the infection names that community. The snapshot after is `AirRowOf` of the one before |
| Measles.MeaslesSimulation.AirDraw | backend/measles_model.py:126-132 | for a candidate in a loaded community one uniform sample is drawn; the node is exposed with an airborne infection naming its community exactly when that draw is below the airborne probability, and left as it was otherwise |
| Measles.MeaslesSimulation.AirStep | backend/measles_model.py:122-132 | one candidate keeps the airborne loop invariant and extends the snapshot by that candidate's row |
| Measles.MeaslesSimulation.AirRowState | backend/measles_model.py:122-132 | one airborne row exposes exactly its own candidate when the draw succeeds, and leaves every other node as it was |
| Measles.MeaslesSimulation.AirExposure | backend/measles_model.py:121-132 | over the airborne loop a node ends exposed exactly when a row of its own exposes it, and keeps its state otherwise |
| Measles.MeaslesSimulation.ExposedByAirIff | backend/measles_model.py:121-132 | a node is exposed through the air exactly when some candidate row, which is that node, exposes it in the state left by the rows before it |
| Measles.MeaslesSimulation.AirbornePhase | backend/measles_model.py:121-132 | the airborne loop exposes only susceptible nodes, each in a loaded community. The snapshot after is `AirOf` over the nodes susceptible before the loop, in node order |
| Measles.MeaslesSimulation.SeedInfectious | backend/measles_model.py:188-191 | a seeded node becomes infectious with its recovery queued. The snapshot after is `SeedIn` of the one before |
| Measles.MeaslesSimulation.Seed | backend/measles_model.py:189-191 | the node becomes infectious and its recovery is pushed one sampled recovery period after the start; the snapshot after is `SeedIn` of the one before |
| Measles.MeaslesSimulation.Update | backend/measles_model.py:68-132 | one step's state change: the loads decay and then gain what the infectious shed, the states advance as above, nothing is left due, and each infection is explained. The snapshot after is `StepOf` of the one before |
| Measles.MeaslesSimulation.Spread | backend/measles_model.py:103-132 | the contact loop and then the airborne loop keep the simulator valid and the loads; every exposure is of a susceptible node and is explained; the snapshot after is `SpreadOf` of the one before |
| Measles.PhasesExplained | backend/measles_model.py:103-132 | the contact exposures followed by the airborne exposures are one set of exposures, each explained by the state after both |
| Measles.MeaslesSimulation.Step | backend/measles_model.py:68-162 | the report carries the step's time and changes. Its totals are the counts of nodes per state, together within the node count. The zone updates and statistics are those of the new loads. Each reported infection is explained. The snapshot after is `StepOf` of the one before |
| Measles.TakeStep | backend/measles_model.py:211 | a step at the group's timestamp keeps the simulation valid. The snapshot after is `StepOf` of the one before. Each step's report is complete: its record lists the step's change and its totals count the new states; its zone updates and statistics are those of the new loads; and it carries one explained infection per newly exposed node, in the same order (`NewsReported`). At zero mortality nobody ever dies |
| Measles.DrainAdvance | backend/measles_model.py:223-233 | one drain step keeps the drain loop's invariant |
| Measles.GroupAdvance | backend/measles_model.py:208-217 | one timestamp group keeps the group loop's invariant |
| Measles.SeedAll | backend/measles_model.py:188-191 | after seeding exactly the sample is infectious and everyone else is susceptible. The snapshot after is `SeedsOf` of the one before |
| Measles.SeedOnce | backend/measles_model.py:188-191 | one pass of the seeding loop makes the next sample node infectious and keeps the loop invariant |
| Measles.RunGroups | backend/measles_model.py:208-217 | one step is taken per timestamp group, at that group's timestamp, in increasing order, and every table timestamp is covered. The reports are the initial one followed by exactly the newsworthy steps, in order. The steps chain from the old states to the new ones. Each step links its snapshot before to its snapshot after by `StepOf` over its own group of rows (`StepsFrom`). Each step's report is the complete report of that step (`StepTaken`), so the newsworthiness test sees its real infections and zone updates |
| Measles.GroupOnce | backend/measles_model.py:210-217 | one pass of the group loop takes the step over the rows of the next timestamp group, yields its report exactly when it passes the test of lines 213-216, and keeps the loop invariant, including the chain of complete step reports |
| Measles.GroupingAdvance | backend/measles_model.py:208-211 | the rows up to the end of their timestamp group make one more group, at the step's time |
| Measles.CoveredAdvance | backend/measles_model.py:210-217 | a step at the next group's timestamp extends the steps taken to cover that group |
| Measles.KeepAppend | backend/measles_model.py:213-217 | the filter of the steps taken so far, followed by the next step when it is newsworthy, is the filter of all of them |
| Measles.Keep | backend/measles_model.py:213-217 | the filtered stream is no longer than the steps and holds only steps that pass the test |
| Measles.KeepKeepsPassing | backend/measles_model.py:213-217 | every step that passes the test is kept, so no newsworthy step is lost |
| Measles.Drain | backend/measles_model.py:219-233 | the drain's k-th step is taken 20(k+1) seconds after the last timestamp. The reports are the earlier ones followed by exactly the drain steps with new infections, recoveries or zone updates, in order. It stops when the heap is empty or after 1000 steps, and the steps chain from the old states to the new ones. Each drain step links its snapshot before to its snapshot after by `StepOf` over no rows (`StepsFrom`). Each step's report is the complete report of that step (`StepTaken`), so the newsworthiness test sees its real infections and zone updates |
| Measles.DrainOnce | backend/measles_model.py:223-233 | one pass of the drain loop takes the step 20 seconds later over no rows, yields its report exactly when it passes the test of lines 230-232, and keeps the loop invariant, including the chain of complete step reports |
| Measles.NoRows | backend/measles_model.py:228 | the drain steps run over empty frames: one empty group per step |
| Measles.DrainKeptAppend | backend/measles_model.py:223-233 | one more drain step, kept when newsworthy, extends the drain's output |
| Measles.SteppedAppend | backend/measles_model.py:210-233 | a reported step from the last state extends the chain of steps |
| Measles.StepsFromAppend | backend/measles_model.py:210-233 | a reported step from the current state extends a chain of steps from the start |
| Measles.SteppedConcat | backend/measles_model.py:210-233 | the group steps followed by the drain steps form one chain of steps |
| Measles.SteppedAt | backend/measles_model.py:210-233 | every step of a chain of steps is `step` applied to the state before it. Its report describes that change completely: record, totals, zone updates, statistics and explained infections |
| Measles.RunMeaslesSimulation | backend/measles_model.py:164-233 | the error report comes exactly when no table is loaded. Otherwise the stream is the seeding report, then exactly the newsworthy steps of the timestamp groups (one step per group, covering every table timestamp), then exactly the newsworthy drain steps at 20-second intervals after the last timestamp. The steps chain from the seeded states, where exactly the sample is infectious and everyone else susceptible. Each later report has totals within the node count, times strictly increase, and with a non-positive mortality rate nobody dies. The drain ends with an empty heap unless it hits its 1000-step cap. The snapshots chain from `SeedsOf(Fresh())` with each step `StepOf` of the one before, over its timestamp group or over no rows while draining (`SeededRun`). Each step's report is the complete report of that step (`StepTaken`), so the newsworthiness test sees its real infections and zone updates |
| Measles.Generate | backend/measles_model.py:183-233 | on a fresh simulator: the stream is the seeding report, then the newsworthy group steps, then the newsworthy drain steps, and the snapshots chain from the seeded state by `StepOf`. Each step's report is the complete report of that step (`StepTaken`), so the newsworthiness test sees its real infections and zone updates |
| Measles.NewsYielded | backend/measles_model.py:208-233 | no news is lost: a group step that exposes someone, and any group or drain step that leaves some community above a load of 0.1, is in the yielded stream |

## Left out

- Data loading, HTTP endpoints, `fetch`, logging, canvas and SVG drawing, animation frames,
  resize observers, full-screen handling, and the `NetworkGraph`, `ControlPanel`, Leaflet and
  chart markup. These are I/O or presentation; the model keeps the values they consume.
- Floating-point numbers are modelled as exact reals. `toFixed` and `toLocaleString`
  formatting are left out, and so is the `infectionRate` string (Statistics.jsx lines 33 and
  45-48). `formatTime` in Timeline.jsx is left out for the same reason.
- App.GetStatistics: the `attackRate` string (App.jsx line 179) is left out. It is a
  `toFixed(1)` string, and it divides by `totalNodes`, which is 0 when no node is loaded.
- Randomness (`random.random`, `random.sample`, `np.random.normal`, `math.exp`) is given as
  parameters. `patient_zero_count` only reaches the model through the sample it selects.
- QuadTree.Insert: the tree is a value, so updating the nodes in place and any aliasing between
  nodes are not modelled. A depth budget stands in for the source's unbounded recursion, and a
  full node whose budget is spent refuses the point.
- QuadTree.Dispatch: does not state which quadrant child receives the point (the first of NE,
  NW, SE and SW that accepts it). It only states that the tree gains exactly that point or is
  left unchanged.
- Timeline.DisplayData: states the reversal position by position rather than as
  `Reverse(result) == prefix`.
- TownMap.Wheel: a transform at scale 0, where the source divides by zero, is modelled as
  `None`.
- TownMap.BackgroundEdges, TownMap.ActiveLinks, TownMap.ActiveMembers,
  TownMap.ActiveIsDirectional and TownMap.InViewportIffOnScreen: require a non-zero scale, because the viewport bounds divide
  by it. `Fit` gives scale 0 on a canvas exactly 100 pixels wide or tall with a positive span;
  culling against the resulting infinite or undefined bounds is not modelled.
- Sir.RunSimulation: the per-row transmission rule and its consequences are stated on
  Sir.Transmit for one group; the whole-run contract carries only the history's invariants.
- TownMap.Fit: the division by zero for a zero span on a small canvas is reported as
  `NonFinite` rather than carried as an infinite value.
- Sir.RunSimulation: requires a non-empty, time-ordered table and a valid sample. The source
  raises on a sample larger than the population and sorts the table when loading it.
- Measles.RunMeaslesSimulation: has the same requirements on the table and the sample. It also
  requires every node's community to exist, where the source would fail with a missing key
  during a step.
- Measles.MeaslesSimulation.constructor: the ventilation rate, the shedding rate and the
  airborne transmission factor are explicit parameters. The configuration module holds no
  values for them.
- The pandas grouping is a time-ordered sequence of contacts cut into runs of equal
  timestamps, and the generator's yields are collected into a sequence.
- The order in which Python dictionaries are visited (node states, community loads) is a
  parameter.
- The `method` string of an infection is modelled as the two-valued `Route`.
- The guards in `step` that skip an event whose node is no longer in the expected state are
  not modelled as branches. The class invariant proves those cases never arise.

## Findings

| source | as written | input that shows it | evidently intended | confidence | as-written member | corrected member |
|---|---|---|---|---|---|---|
| frontend/src/components/CustomTownMap.jsx:68-69 | the endpoint key `link.source.id \|\| link.source` treats id 0 as missing | a link whose source is the node object with id 0 | the node's id, including 0, so the link is drawn | medium, not executed | TownMap.NodeZeroLinkDropped | TownMap.ResolvedWhenPresent |
| frontend/src/components/CustomTownMap.jsx:288-290 | the hotspot translation is computed with the current scale, then the scale is set to 2 | scale 1, canvas 800×600, node at (100, 100): it lands at (500, 400) instead of (400, 300) | the translation computed at scale 2, so the hotspot is centred | high, not executed | TownMap.HotspotOffCentre | TownMap.CentreOn |
| frontend/src/components/MapLayout.jsx:53-54 | endpoints are looked up with `link.source.id`, which is undefined for bare ids | a link `{source: 3, target: 5}` in the format the back end sends (backend/app.py:47) | look up the bare id, or the node's id for a node object | medium, not executed | MapLayout.BareLinkDropped | MapLayout.EndpointId |
