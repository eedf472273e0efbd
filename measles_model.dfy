/** The measles back end: an SEIR-with-death state machine over the contact table. Every
    node has a disease state, transitions are scheduled in a time-ordered event queue, and
    every community ("zone") carries an airborne load that decays, is fed by infectious
    members and exposes susceptible members. */
module Measles {
  import opened Common
  import Sir

  /** SUSCEPTIBLE (0), EXPOSED (1), INFECTIOUS (2), RECOVERED (3), DEAD (4). */
  datatype MState = Susceptible | Exposed | Infectious | Recovered | Dead

  /** The stage of the disease course a state belongs to; recovered and dead are both final. */
  function Stage(s: MState): nat
  {
    match s
    case Susceptible => 0
    case Exposed => 1
    case Infectious => 2
    case Recovered => 3
    case Dead => 3
  }

  /** `b` is `a` or a state further along the course. */
  predicate Advances(a: MState, b: MState)
  {
    a == b || Stage(a) < Stage(b)
  }

  /** The nodes in state `st`. */
  function WithState(states: map<NodeId, MState>, st: MState): (r: set<NodeId>)
    ensures forall n :: n in r <==> n in states && states[n] == st
  {
    set n | n in states && states[n] == st
  }

  /** EVENT_BECOME_INFECTIOUS (1) and EVENT_RECOVER (2). */
  datatype EventKind = BecomeInfectious | Recover

  function Code(k: EventKind): nat
  {
    if k == BecomeInfectious then 1 else 2
  }

  /** A queue entry `(time, event_type, node)`. */
  datatype Event = Event(time: real, kind: EventKind, node: NodeId)

  /** Python's tuple order, which the heap pops by: time, then event code, then node. */
  predicate Before(a: Event, b: Event)
  {
    a.time < b.time ||
    (a.time == b.time && (Code(a.kind) < Code(b.kind) || (a.kind == b.kind && a.node <= b.node)))
  }

  /** The queue as the sequence the heap pops in. */
  predicate Sorted(q: seq<Event>)
  {
    forall i, j :: 0 <= i < j < |q| ==> Before(q[i], q[j])
  }

  function NodeSet(q: seq<Event>): (r: set<NodeId>)
    ensures forall n :: n in r <==> exists i :: 0 <= i < |q| && q[i].node == n
  {
    set e | e in q :: e.node
  }

  /** The state a node must be in for an event of kind `k` to be due for it. */
  function Awaits(k: EventKind): MState
  {
    if k == BecomeInfectious then Exposed else Infectious
  }

  /** No node is queued twice. */
  predicate QueuedOnce(q: seq<Event>)
  {
    forall i, j :: 0 <= i < j < |q| ==> q[i].node != q[j].node
  }

  /** Each queued node is in the state its event awaits. */
  predicate QueuedAwaiting(states: map<NodeId, MState>, q: seq<Event>)
  {
    forall i :: 0 <= i < |q| ==> q[i].node in states && states[q[i].node] == Awaits(q[i].kind)
  }

  /** Every exposed or infectious node is queued. */
  predicate AllQueued(states: map<NodeId, MState>, q: seq<Event>)
  {
    forall n :: n in states && (states[n] == Exposed || states[n] == Infectious) ==> n in NodeSet(q)
  }

  /** The queue and the states agree: one entry per exposed or infectious node, for the
      transition that node awaits. */
  predicate Tracks(states: map<NodeId, MState>, q: seq<Event>)
  {
    QueuedOnce(q) && QueuedAwaiting(states, q) && AllQueued(states, q)
  }

  /** Inserting `e` at position `k` of a sorted queue, after every entry not later than `e`
      and before every entry later than it, keeps the queue sorted. */
  lemma InsertSorted(q: seq<Event>, e: Event, k: nat)
    requires Sorted(q) && k <= |q|
    requires forall m :: 0 <= m < k ==> Before(q[m], e)
    requires forall m :: k <= m < |q| ==> Before(e, q[m])
    ensures Sorted(q[..k] + [e] + q[k..])
  {
    var r := q[..k] + [e] + q[k..];
    assert forall i :: 0 <= i < k ==> r[i] == q[i];
    assert r[k] == e;
    assert forall i :: k < i < |r| ==> r[i] == q[i - 1];
  }

  /** The entries after an insertion are the old ones and the inserted one. */
  lemma InsertMembers(q: seq<Event>, e: Event, k: nat)
    requires k <= |q|
    ensures forall x :: x in q[..k] + [e] + q[k..] <==> x in q || x == e
  {
    assert q == q[..k] + q[k..];
  }

  lemma InsertMultiset(q: seq<Event>, e: Event, k: nat)
    requires k <= |q|
    ensures multiset(q[..k] + [e] + q[k..]) == multiset(q) + multiset{e}
  {
    assert q == q[..k] + q[k..];
  }

  /** Where `heapq.heappush` puts `e` in the popping order: after the leading entries that
      come before it, ahead of the first that does not. */
  function Slot(q: seq<Event>, e: Event): (k: nat)
    ensures k <= |q|
    ensures forall m :: 0 <= m < k ==> Before(q[m], e)
    ensures k < |q| ==> !Before(q[k], e)
  {
    if |q| == 0 || !Before(q[0], e) then 0
    else
      var k := 1 + Slot(q[1..], e);
      assert forall m :: 1 <= m < k ==> q[m] == q[1..][m - 1];
      k
  }

  /** The queue after `heapq.heappush(q, e)`, as the sequence the heap pops in: `e` goes
      ahead of the first entry that does not come before it. */
  function Pushed(q: seq<Event>, e: Event): seq<Event>
  {
    if |q| == 0 || !Before(q[0], e) then [e] + q else [q[0]] + Pushed(q[1..], e)
  }

  /** The push puts `e` at its slot. */
  lemma {:induction false} PushedAt(q: seq<Event>, e: Event)
    ensures Pushed(q, e) == q[..Slot(q, e)] + [e] + q[Slot(q, e)..]
  {
    if |q| > 0 && Before(q[0], e) {
      PushedAt(q[1..], e);
      assert q[1..][..Slot(q, e) - 1] == q[1..Slot(q, e)];
      assert q[..Slot(q, e)] == [q[0]] + q[1..Slot(q, e)];
    }
  }

  /** `heapq.heappush`: `e` goes after every entry that is not later than it. */
  method Schedule(q: seq<Event>, e: Event) returns (r: seq<Event>, k: nat)
    requires Sorted(q)
    ensures k == Slot(q, e) && r == Pushed(q, e)
    ensures Sorted(r)
  {
    k := 0;
    while k < |q| && Before(q[k], e)
      invariant 0 <= k <= |q|
      invariant forall m :: 0 <= m < k ==> Before(q[m], e)
    {
      k := k + 1;
    }
    forall m | k <= m < |q|
      ensures Before(e, q[m])
    {
      assert Before(e, q[k]);
    }
    InsertSorted(q, e, k);
    r := q[..k] + [e] + q[k..];
    PushedAt(q, e);
  }

  /** The number of queue entries due at time `t`. */
  function Due(q: seq<Event>, t: real): nat
  {
    if |q| == 0 then 0 else (if q[0].time <= t then 1 else 0) + Due(q[1..], t)
  }

  lemma {:induction false} DueSplit(a: seq<Event>, b: seq<Event>, t: real)
    ensures Due(a + b, t) == Due(a, t) + Due(b, t)
  {
    if |a| > 0 {
      assert (a + b)[0] == a[0];
      assert (a + b)[1..] == a[1..] + b;
      DueSplit(a[1..], b, t);
    } else {
      assert a + b == b;
    }
  }

  /** Inserting an entry that is not yet due leaves the number of due entries unchanged. */
  lemma DueInsert(q: seq<Event>, e: Event, k: nat, t: real)
    requires k <= |q| && e.time > t
    ensures Due(q[..k] + [e] + q[k..], t) == Due(q, t)
  {
    DueSplit(q[..k] + [e], q[k..], t);
    DueSplit(q[..k], [e], t);
    DueSplit(q[..k], q[k..], t);
    assert q[..k] + q[k..] == q;
  }

  lemma QueuedOnceInsert(q: seq<Event>, e: Event, k: nat)
    requires QueuedOnce(q) && k <= |q| && e.node !in NodeSet(q)
    ensures QueuedOnce(q[..k] + [e] + q[k..])
  {
    var r := q[..k] + [e] + q[k..];
    assert forall i :: 0 <= i < k ==> r[i] == q[i];
    assert forall i :: k < i < |r| ==> r[i] == q[i - 1];
  }

  lemma AwaitingInsert(states: map<NodeId, MState>, q: seq<Event>, e: Event, k: nat)
    requires QueuedAwaiting(states, q) && k <= |q| && e.node !in NodeSet(q) && e.node in states
    ensures QueuedAwaiting(states[e.node := Awaits(e.kind)], q[..k] + [e] + q[k..])
  {
    var r := q[..k] + [e] + q[k..];
    assert forall i :: 0 <= i < k ==> r[i] == q[i];
    assert forall i :: k < i < |r| ==> r[i] == q[i - 1];
  }

  lemma AllQueuedInsert(states: map<NodeId, MState>, q: seq<Event>, e: Event, k: nat)
    requires AllQueued(states, q) && k <= |q|
    ensures AllQueued(states[e.node := Awaits(e.kind)], q[..k] + [e] + q[k..])
  {
    var s' := states[e.node := Awaits(e.kind)];
    var r := q[..k] + [e] + q[k..];
    forall m | m in s' && (s'[m] == Exposed || s'[m] == Infectious)
      ensures m in NodeSet(r)
    {
      if m != e.node {
        var i :| 0 <= i < |q| && q[i].node == m;
        if i < k { assert r[i] == q[i]; } else { assert r[i + 1] == q[i]; }
      } else {
        assert r[k] == e;
      }
    }
  }

  /** A susceptible node that moves to the state awaited by `e` and is queued with `e` keeps
      the queue in agreement with the states. */
  lemma TracksInsert(states: map<NodeId, MState>, q: seq<Event>, e: Event, k: nat)
    requires Tracks(states, q) && k <= |q|
    requires e.node in states && states[e.node] == Susceptible
    ensures Tracks(states[e.node := Awaits(e.kind)], q[..k] + [e] + q[k..])
  {
    assert e.node !in NodeSet(q);
    QueuedOnceInsert(q, e, k);
    AwaitingInsert(states, q, e, k);
    AllQueuedInsert(states, q, e, k);
  }

  /** Popping the head entry and moving its node to `st`, a state no event awaits, keeps the
      agreement. */
  lemma TracksRetire(states: map<NodeId, MState>, q: seq<Event>, st: MState)
    requires Tracks(states, q) && |q| > 0
    requires st == Susceptible || st == Recovered || st == Dead
    ensures Tracks(states[q[0].node := st], q[1..])
  {
    var n := q[0].node;
    var s' := states[n := st];
    forall m | m in s' && (s'[m] == Exposed || s'[m] == Infectious)
      ensures m in NodeSet(q[1..])
    {
      var i :| 0 <= i < |q| && q[i].node == m;
      assert i > 0;
      assert q[1..][i - 1] == q[i];
    }
  }

  /** Popping a BECOME_INFECTIOUS head entry, making its node infectious and queueing its
      recovery keeps the agreement. */
  lemma TracksPromote(states: map<NodeId, MState>, q: seq<Event>, e: Event, k: nat)
    requires Tracks(states, q) && |q| > 0 && q[0].kind == BecomeInfectious
    requires e == Event(e.time, Recover, q[0].node) && k <= |q| - 1
    ensures Tracks(states[q[0].node := Infectious], q[1..][..k] + [e] + q[1..][k..])
  {
    var n := q[0].node;
    TracksRetire(states, q, Susceptible);
    assert states[n := Susceptible][n := Infectious] == states[n := Infectious];
    TracksInsert(states[n := Susceptible], q[1..], e, k);
  }

  /** `[n for n, s in node_states.items() if s == st]`, the dictionary visited in `order`. */
  function InState(order: seq<NodeId>, states: map<NodeId, MState>, st: MState): (r: seq<NodeId>)
    requires forall n :: n in order ==> n in states
    ensures |r| <= |order|
    ensures forall n :: n in r <==> n in order && states[n] == st
  {
    if |order| == 0 then []
    else (if states[order[0]] == st then [order[0]] else []) + InState(order[1..], states, st)
  }

  lemma {:induction false} InStateDistinct(order: seq<NodeId>, states: map<NodeId, MState>, st: MState)
    requires Distinct(order) && forall n :: n in order ==> n in states
    ensures Distinct(InState(order, states, st))
  {
    if |order| > 0 {
      var rest := order[1..];
      assert forall i, j :: 0 <= i < j < |rest| ==> rest[i] == order[i + 1] && rest[j] == order[j + 1];
      InStateDistinct(rest, states, st);
      var r := InState(rest, states, st);
      assert order[0] !in r;
      var h := if states[order[0]] == st then [order[0]] else [];
      forall i, j | 0 <= i < j < |h + r|
        ensures (h + r)[i] != (h + r)[j]
      {
        if i >= |h| {
          assert (h + r)[i] == r[i - |h|] && (h + r)[j] == r[j - |h|];
        } else {
          assert (h + r)[j] in r;
        }
      }
    }
  }

  /** Over a dictionary listed without repetition, the filtered list has one entry per node
      in state `st`: its length is the number of such nodes. */
  lemma StateCount(order: seq<NodeId>, states: map<NodeId, MState>, st: MState)
    requires Distinct(order) && Elems(order) == states.Keys
    ensures |InState(order, states, st)| == |WithState(states, st)|
  {
    var r := InState(order, states, st);
    InStateDistinct(order, states, st);
    DistinctSize(r);
    assert Elems(r) == WithState(states, st);
  }

  /** The nodes split into the five states. */
  lemma {:induction false} StatesPartition(order: seq<NodeId>, states: map<NodeId, MState>)
    requires forall n :: n in order ==> n in states
    ensures |InState(order, states, Susceptible)| + |InState(order, states, Exposed)| +
            |InState(order, states, Infectious)| + |InState(order, states, Recovered)| +
            |InState(order, states, Dead)| == |order|
  {
    if |order| > 0 {
      StatesPartition(order[1..], states);
    }
  }

  /** A community id; nodes without a community count as community 0. */
  type ZoneId = nat

  /** `communities.get(node, 0)`. */
  function ZoneOf(communities: map<NodeId, ZoneId>, n: NodeId): ZoneId
  {
    if n in communities then communities[n] else 0
  }

  /** How many of the nodes `ns` belong to zone `z`. */
  function Shedders(communities: map<NodeId, ZoneId>, ns: seq<NodeId>, z: ZoneId): (c: nat)
    ensures c <= |ns|
  {
    if |ns| == 0 then 0
    else Shedders(communities, ns[..|ns| - 1], z) + (if ZoneOf(communities, ns[|ns| - 1]) == z then 1 else 0)
  }

  /** `sum(self.zone_map.values())`, the dictionary visited in `zones`. */
  function TotalLoad(zones: seq<ZoneId>, zoneMap: map<ZoneId, real>): real
    requires forall z :: z in zones ==> z in zoneMap
  {
    if |zones| == 0 then 0.0 else zoneMap[zones[0]] + TotalLoad(zones[1..], zoneMap)
  }

  /** `len([z for z in self.zone_map.values() if z > 0])`. */
  function Contaminated(zones: seq<ZoneId>, zoneMap: map<ZoneId, real>): (c: nat)
    requires forall z :: z in zones ==> z in zoneMap
    ensures c <= |zones|
    ensures c == 0 <==> forall z :: z in zones ==> zoneMap[z] <= 0.0
  {
    if |zones| == 0 then 0
    else (if zoneMap[zones[0]] > 0.0 then 1 else 0) + Contaminated(zones[1..], zoneMap)
  }

  /** With no negative load, the total is zero exactly when no zone is contaminated. */
  lemma {:induction false} TotalLoadZero(zones: seq<ZoneId>, zoneMap: map<ZoneId, real>)
    requires forall z :: z in zones ==> z in zoneMap && zoneMap[z] >= 0.0
    ensures TotalLoad(zones, zoneMap) >= 0.0
    ensures TotalLoad(zones, zoneMap) == 0.0 <==> Contaminated(zones, zoneMap) == 0
  {
    if |zones| > 0 {
      assert forall z :: z in zones[1..] ==> z in zones;
      TotalLoadZero(zones[1..], zoneMap);
    }
  }

  /** `zone_updates`: the zones whose load exceeds 0.1. */
  function Updates(zoneMap: map<ZoneId, real>): (u: map<ZoneId, real>)
    ensures forall z :: z in u <==> z in zoneMap && zoneMap[z] > 0.1
    ensures forall z :: z in u ==> u[z] == zoneMap[z]
  {
    map z | z in zoneMap && zoneMap[z] > 0.1 :: zoneMap[z]
  }

  /** A zone update is only ever reported for a contaminated zone. */
  lemma UpdatesContaminated(zones: seq<ZoneId>, zoneMap: map<ZoneId, real>)
    requires Elems(zones) == zoneMap.Keys
    ensures forall z :: z in Updates(zoneMap) ==> z in zones && zoneMap[z] > 0.0
    ensures Contaminated(zones, zoneMap) == 0 ==> Updates(zoneMap) == map[]
  {
  }

  /** The load statistics of a step. */
  datatype Stats = Stats(avgAqi: real, totalAqi: real, contaminatedZones: nat)

  /** `avg_aqi`: the total over the contaminated zones, or 0 when there are none. */
  function Average(total: real, count: nat): (a: real)
    ensures count > 0 ==> a * (count as real) == total
    ensures count == 0 ==> a == 0.0
  {
    if count > 0 then total / (count as real) else 0.0
  }

  function StatsOf(zones: seq<ZoneId>, zoneMap: map<ZoneId, real>): Stats
    requires forall z :: z in zones ==> z in zoneMap
  {
    var total := TotalLoad(zones, zoneMap);
    var count := Contaminated(zones, zoneMap);
    Stats(Average(total, count), total, count)
  }

  /** With no negative load the average is never negative, and it is zero exactly when no
      zone is contaminated. */
  lemma AverageLoad(zones: seq<ZoneId>, zoneMap: map<ZoneId, real>)
    requires forall z :: z in zones ==> z in zoneMap && zoneMap[z] >= 0.0
    ensures StatsOf(zones, zoneMap).avgAqi >= 0.0
    ensures StatsOf(zones, zoneMap).avgAqi == 0.0 <==> StatsOf(zones, zoneMap).contaminatedZones == 0
  {
    TotalLoadZero(zones, zoneMap);
    var st := StatsOf(zones, zoneMap);
    if st.contaminatedZones > 0 {
      Quotient(st.totalAqi, st.contaminatedZones as real);
    }
  }

  lemma Quotient(total: real, count: real)
    requires total > 0.0 && count > 0.0
    ensures total / count > 0.0
  {
  }

  const SecondsPerDay: real := 86400.0

  /** `max(1, x)`. */
  function AtLeastOne(x: real): (r: real)
    ensures r >= 1.0 && r >= x && (r == x || r == 1.0)
  {
    if x < 1.0 then 1.0 else x
  }

  /** A sampled duration in seconds from a normal sample in days, clamped to one day. */
  function Duration(days: real): (d: real)
    ensures d >= SecondsPerDay
    ensures days >= 1.0 ==> d == days * SecondsPerDay
  {
    AtLeastOne(days) * SecondsPerDay
  }

  /** How an infection happened: `"contact"` or `"airborne"`. */
  datatype Route = ByContact | ByAir

  /** The dictionary `infect_node` returns. */
  datatype Infection = Infection(id: NodeId, route: Route, source: Option<NodeId>, zone: Option<ZoneId>)

  /** One yielded dictionary: the fields the front end reads as a step record, plus the
      infections, the zone updates and the load statistics. */
  datatype Report = Report(record: StepRecord, newInfections: seq<Infection>,
                           zoneUpdates: map<ZoneId, real>, stats: Stats)

  /** The simulator's state as a value: the node states, the zone loads, the event queue and
      how many uniform and how many normal samples have been drawn. */
  datatype Snap = Snap(states: map<NodeId, MState>, loads: map<ZoneId, real>, queue: seq<Event>,
                       draws: nat, normals: nat)

  /** The load the nodes `ns` shed into zone `y`: `rate` for each of them in that zone. */
  function ShedLoad(communities: map<NodeId, ZoneId>, ns: seq<NodeId>, y: ZoneId, rate: real): real
  {
    if |ns| == 0 then 0.0
    else
      ShedLoad(communities, ns[..|ns| - 1], y, rate) +
      (if ZoneOf(communities, ns[|ns| - 1]) == y then rate else 0.0)
  }

  /** `n` times `rate`, as repeated addition. */
  function Times(rate: real, n: nat): real
  {
    if n == 0 then 0.0 else Times(rate, n - 1) + rate
  }

  lemma {:induction false} TimesProduct(rate: real, n: nat)
    ensures Times(rate, n) == rate * (n as real)
  {
    if n > 0 {
      TimesProduct(rate, n - 1);
      Distribute(rate, n - 1);
    }
  }

  lemma Distribute(rate: real, n: nat)
    ensures rate * ((n + 1) as real) == rate * (n as real) + rate
  {
  }

  /** The shed load is the rate added once per shedder in the zone. */
  lemma {:induction false} ShedLoadTimes(communities: map<NodeId, ZoneId>, ns: seq<NodeId>, y: ZoneId, rate: real)
    ensures ShedLoad(communities, ns, y, rate) == Times(rate, Shedders(communities, ns, y))
  {
    if |ns| > 0 {
      var init := ns[..|ns| - 1];
      ShedLoadTimes(communities, init, y, rate);
      var c := Shedders(communities, init, y);
      if ZoneOf(communities, ns[|ns| - 1]) == y {
        assert Shedders(communities, ns, y) == c + 1;
        assert Times(rate, c + 1) == Times(rate, c) + rate;
      } else {
        assert Shedders(communities, ns, y) == c;
      }
    }
  }

  /** The shed load is the rate times the number of shedders in the zone. */
  lemma ShedLoadCount(communities: map<NodeId, ZoneId>, ns: seq<NodeId>, y: ZoneId, rate: real)
    ensures ShedLoad(communities, ns, y, rate) == rate * (Shedders(communities, ns, y) as real)
  {
    ShedLoadTimes(communities, ns, y, rate);
    TimesProduct(rate, Shedders(communities, ns, y));
  }

  /** `after` is `before` with the nodes of `ni`, all exposed before, made infectious and
      the nodes of `nr` and `nd`, all infectious before, made recovered and dead. */
  ghost predicate EventsApplied(before: map<NodeId, MState>, after: map<NodeId, MState>,
                          ni: seq<NodeId>, nr: seq<NodeId>, nd: seq<NodeId>)
  {
    after.Keys == before.Keys &&
    Distinct(ni) && Distinct(nr) && Distinct(nd) && Elems(nr) !! Elems(nd) &&
    (forall n :: n in ni ==> n in before && before[n] == Exposed) &&
    (forall n :: n in nr ==> n in before && before[n] == Infectious) &&
    (forall n :: n in nd ==> n in before && before[n] == Infectious) &&
    (forall n :: n in after ==>
      after[n] == (if n in ni then Infectious
                   else if n in nr then Recovered
                   else if n in nd then Dead
                   else before[n]))
  }

  lemma ApplyPromote(before: map<NodeId, MState>, after: map<NodeId, MState>,
                     ni: seq<NodeId>, nr: seq<NodeId>, nd: seq<NodeId>, n: NodeId)
    requires EventsApplied(before, after, ni, nr, nd)
    requires n in after && after[n] == Exposed
    ensures EventsApplied(before, after[n := Infectious], ni + [n], nr, nd)
  {
    assert n !in ni && n !in nr && n !in nd;
  }

  lemma ApplyRetire(before: map<NodeId, MState>, after: map<NodeId, MState>,
                    ni: seq<NodeId>, nr: seq<NodeId>, nd: seq<NodeId>, n: NodeId, dies: bool)
    requires EventsApplied(before, after, ni, nr, nd)
    requires n in after && after[n] == Infectious && n !in ni
    ensures dies ==> EventsApplied(before, after[n := Dead], ni, nr, nd + [n])
    ensures !dies ==> EventsApplied(before, after[n := Recovered], ni, nr + [n], nd)
  {
    assert n !in nr && n !in nd;
  }

  /** Every queued event of a node in `ns` is later than `t`. */
  ghost predicate LaterFor(q: seq<Event>, ns: seq<NodeId>, t: real)
  {
    forall e :: e in q && e.node in ns ==> e.time > t
  }

  /** `after` is `before` with the nodes of `ne`, all susceptible before, made exposed. */
  ghost predicate Exposes(before: map<NodeId, MState>, after: map<NodeId, MState>, ne: seq<NodeId>)
  {
    after.Keys == before.Keys && Distinct(ne) &&
    (forall n :: n in ne ==> n in before && before[n] == Susceptible) &&
    (forall n :: n in after ==> after[n] == (if n in ne then Exposed else before[n]))
  }

  lemma ExposeOne(before: map<NodeId, MState>, after: map<NodeId, MState>, ne: seq<NodeId>, n: NodeId)
    requires Exposes(before, after, ne) && n in after && after[n] == Susceptible
    ensures Exposes(before, after[n := Exposed], ne + [n])
  {
    assert n !in ne;
  }

  lemma ExposesCompose(a: map<NodeId, MState>, b: map<NodeId, MState>, c: map<NodeId, MState>,
                       first: seq<NodeId>, second: seq<NodeId>)
    requires Exposes(a, b, first) && Exposes(b, c, second)
    ensures Exposes(a, c, first + second)
  {
    assert forall n :: n in second ==> n !in first;
    DistinctJoin(first, second);
  }

  lemma DistinctJoin(a: seq<NodeId>, b: seq<NodeId>)
    requires Distinct(a) && Distinct(b) && forall n :: n in b ==> n !in a
    ensures Distinct(a + b)
  {
    forall i, j | 0 <= i < j < |a + b|
      ensures (a + b)[i] != (a + b)[j]
    {
      if i < |a| <= j {
        assert (a + b)[j] in b;
      }
    }
  }

  /** Who a contact can infect: the susceptible side of an infectious-susceptible pair, and
      the infectious side as its source. */
  datatype Exposure = Exposure(source: NodeId, target: NodeId)

  function AtRisk(states: map<NodeId, MState>, c: Sir.Contact): (r: Option<Exposure>)
    ensures r.Some? <==>
      (StateOf(states, c.u) == Infectious && StateOf(states, c.v) == Susceptible) ||
      (StateOf(states, c.v) == Infectious && StateOf(states, c.u) == Susceptible)
    ensures r.Some? ==>
      StateOf(states, r.value.source) == Infectious && StateOf(states, r.value.target) == Susceptible &&
      ((r.value.source == c.u && r.value.target == c.v) || (r.value.source == c.v && r.value.target == c.u))
  {
    if StateOf(states, c.u) == Infectious && StateOf(states, c.v) == Susceptible then Some(Exposure(c.u, c.v))
    else if StateOf(states, c.v) == Infectious && StateOf(states, c.u) == Susceptible then Some(Exposure(c.v, c.u))
    else None
  }

  /** A contact whose susceptible side ended up exposed, if it put anyone at risk. */
  ghost predicate Caught(before: map<NodeId, MState>, after: map<NodeId, MState>, c: Sir.Contact)
  {
    AtRisk(before, c).Some? ==>
      AtRisk(before, c).value.target in after && after[AtRisk(before, c).value.target] == Exposed
  }

  /** Exposing susceptible nodes changes a contact's risk only by exposing its target. */
  lemma ContactRisk(before: map<NodeId, MState>, now: map<NodeId, MState>, ne: seq<NodeId>, c: Sir.Contact)
    requires Exposes(before, now, ne) && c.u in now && c.v in now
    ensures AtRisk(now, c).Some? ==> AtRisk(now, c) == AtRisk(before, c)
    ensures AtRisk(before, c).Some? && AtRisk(now, c).None? ==>
      now[AtRisk(before, c).value.target] == Exposed
  {
  }

  /** An infection recorded for a contact of `group` in which `source` was infectious. */
  ghost predicate ByContactIn(states: map<NodeId, MState>, group: seq<Sir.Contact>, i: Infection)
  {
    i.route == ByContact && i.zone.None? && i.source.Some? &&
    StateOf(states, i.source.value) == Infectious &&
    exists c :: c in group && AtRisk(states, c) == Some(Exposure(i.source.value, i.id))
  }

  /** What the contact loop has achieved after the first `j` rows of `group`. */
  ghost predicate ContactsDone(before: map<NodeId, MState>, now: map<NodeId, MState>,
                               group: seq<Sir.Contact>, j: nat, infections: seq<Infection>,
                               exposed: seq<NodeId>, prob: real)
    requires j <= |group|
  {
    Exposes(before, now, exposed) && |infections| == |exposed| &&
    (forall k :: 0 <= k < |infections| ==>
      infections[k].id == exposed[k] && ByContactIn(before, group, infections[k])) &&
    (prob <= 0.0 ==> exposed == []) &&
    (prob >= 1.0 ==> forall c :: c in group[..j] ==> Caught(before, now, c))
  }

  /** One more row of the contact loop keeps `ContactsDone`. */
  lemma ContactAdvance(before: map<NodeId, MState>, now: map<NodeId, MState>, after: map<NodeId, MState>,
                       group: seq<Sir.Contact>, j: nat, infections: seq<Infection>, exposed: seq<NodeId>,
                       prob: real, coin: real, infection: Option<Infection>,
                       infections': seq<Infection>, exposed': seq<NodeId>)
    requires j < |group| && ContactsDone(before, now, group, j, infections, exposed, prob)
    requires group[j].u in now && group[j].v in now && 0.0 <= coin < 1.0
    requires infection.Some? <==> AtRisk(now, group[j]).Some? && coin < prob
    requires infection.Some? ==>
      var x := AtRisk(now, group[j]).value;
      infection.value == Infection(x.target, ByContact, Some(x.source), None) &&
      after == now[x.target := Exposed] &&
      infections' == infections + [infection.value] && exposed' == exposed + [x.target]
    requires infection.None? ==> after == now && infections' == infections && exposed' == exposed
    ensures ContactsDone(before, after, group, j + 1, infections', exposed', prob)
  {
    var c := group[j];
    assert c in group;
    ContactRisk(before, now, exposed, c);
    assert group[..j + 1] == group[..j] + [c];
    if infection.Some? {
      ExposeOne(before, now, exposed, infection.value.id);
    }
  }

  /** `zone_map.get(communities.get(n, 0), 0.0)`: the load of a node's community. */
  function LoadOf(zoneMap: map<ZoneId, real>, communities: map<NodeId, ZoneId>, n: NodeId): real
  {
    var z := ZoneOf(communities, n);
    if z in zoneMap then zoneMap[z] else 0.0
  }

  /** An airborne infection of `n`, recorded with its community, in a loaded community. */
  ghost predicate ByAirIn(zoneMap: map<ZoneId, real>, communities: map<NodeId, ZoneId>,
                          n: NodeId, i: Infection)
  {
    i == Infection(n, ByAir, None, Some(ZoneOf(communities, n))) && LoadOf(zoneMap, communities, n) > 0.0
  }

  /** What the airborne loop has achieved after the first `j` nodes of `candidates`. */
  ghost predicate AirborneDone(before: map<NodeId, MState>, now: map<NodeId, MState>,
                               zoneMap: map<ZoneId, real>, communities: map<NodeId, ZoneId>,
                               candidates: seq<NodeId>, j: nat, infections: seq<Infection>,
                               exposed: seq<NodeId>)
    requires j <= |candidates|
  {
    Exposes(before, now, exposed) && |infections| == |exposed| &&
    (forall k :: 0 <= k < |infections| ==> ByAirIn(zoneMap, communities, exposed[k], infections[k])) &&
    (forall n :: n in exposed ==> n in candidates[..j])
  }

  lemma AirborneAdvance(before: map<NodeId, MState>, now: map<NodeId, MState>, after: map<NodeId, MState>,
                        zoneMap: map<ZoneId, real>, communities: map<NodeId, ZoneId>,
                        candidates: seq<NodeId>, j: nat, infections: seq<Infection>, exposed: seq<NodeId>,
                        infection: Option<Infection>, infections': seq<Infection>, exposed': seq<NodeId>)
    requires j < |candidates| && Distinct(candidates)
    requires AirborneDone(before, now, zoneMap, communities, candidates, j, infections, exposed)
    requires candidates[j] in now && now[candidates[j]] == Susceptible
    requires infection.Some? ==>
      ByAirIn(zoneMap, communities, candidates[j], infection.value) &&
      after == now[candidates[j] := Exposed] &&
      infections' == infections + [infection.value] && exposed' == exposed + [candidates[j]]
    requires infection.None? ==> after == now && infections' == infections && exposed' == exposed
    ensures AirborneDone(before, after, zoneMap, communities, candidates, j + 1, infections', exposed')
  {
    assert candidates[..j + 1] == candidates[..j] + [candidates[j]];
    if infection.Some? {
      ExposeOne(before, now, exposed, candidates[j]);
    }
  }

  /** No queued event is due at time `t`. */
  /** Promoting the head keeps the promoted nodes' later entries after `t`. */
  lemma LaterForPromote(q: seq<Event>, ns: seq<NodeId>, t: real, later: Event, q': seq<Event>)
    requires QueuedOnce(q) && |q| > 0 && LaterFor(q, ns, t)
    requires later.time > t && later.node == q[0].node
    requires forall x :: x in q' <==> x in q[1..] || x == later
    ensures LaterFor(q', ns + [q[0].node], t)
  {
    forall e | e in q' && e.node in ns + [q[0].node]
      ensures e.time > t
    {
      if e != later {
        var i :| 0 <= i < |q[1..]| && q[1..][i] == e;
        assert q[i + 1] == e;
      }
    }
  }

  ghost predicate NoneDue(q: seq<Event>, t: real)
  {
    forall e :: e in q ==> e.time > t
  }

  /** In a sorted queue whose head is not due, nothing is due. */
  lemma HeadNotDue(q: seq<Event>, t: real)
    requires Sorted(q) && (|q| == 0 || q[0].time > t)
    ensures NoneDue(q, t)
  {
    forall e | e in q
      ensures e.time > t
    {
      var i :| 0 <= i < |q| && q[i] == e;
      if i > 0 {
        assert Before(q[0], q[i]);
      }
    }
  }

  /** The state changes of a whole step: the nodes of `ne`, susceptible before, exposed; the
      nodes of `ni`, exposed before, infectious; the nodes of `nr` and `nd`, infectious
      before, recovered and dead; every other node unchanged. */
  ghost predicate StepApplied(before: map<NodeId, MState>, after: map<NodeId, MState>,
                              ne: seq<NodeId>, ni: seq<NodeId>, nr: seq<NodeId>, nd: seq<NodeId>)
  {
    after.Keys == before.Keys &&
    Distinct(ne) && Distinct(ni) && Distinct(nr) && Distinct(nd) && Elems(nr) !! Elems(nd) &&
    (forall n :: n in ne ==> n in before && before[n] == Susceptible) &&
    (forall n :: n in ni ==> n in before && before[n] == Exposed) &&
    (forall n :: n in nr ==> n in before && before[n] == Infectious) &&
    (forall n :: n in nd ==> n in before && before[n] == Infectious) &&
    (forall n :: n in after ==>
      after[n] == (if n in ne then Exposed
                   else if n in ni then Infectious
                   else if n in nr then Recovered
                   else if n in nd then Dead
                   else before[n]))
  }

  /** The event loop followed by the two infection loops makes one step's change. */
  lemma EventsThenExposes(a: map<NodeId, MState>, b: map<NodeId, MState>, c: map<NodeId, MState>,
                          ni: seq<NodeId>, nr: seq<NodeId>, nd: seq<NodeId>, ne: seq<NodeId>)
    requires EventsApplied(a, b, ni, nr, nd) && Exposes(b, c, ne)
    ensures StepApplied(a, c, ne, ni, nr, nd)
  {
    forall n | n in ne
      ensures n in a && a[n] == Susceptible && n !in ni && n !in nr && n !in nd
    {
      assert n in b && b[n] == Susceptible;
    }
  }

  /** A step only moves nodes forward along the disease course, recovered and dead nodes
      stay as they are, and the dead and the recovered grow by exactly the nodes it reports. */
  lemma StepAdvances(before: map<NodeId, MState>, after: map<NodeId, MState>,
                     ne: seq<NodeId>, ni: seq<NodeId>, nr: seq<NodeId>, nd: seq<NodeId>)
    requires StepApplied(before, after, ne, ni, nr, nd)
    ensures forall n :: n in after ==> Advances(before[n], after[n])
    ensures forall n :: n in after && (before[n] == Recovered || before[n] == Dead) ==> after[n] == before[n]
    ensures WithState(after, Dead) == WithState(before, Dead) + Elems(nd)
    ensures WithState(after, Recovered) == WithState(before, Recovered) + Elems(nr)
    ensures |WithState(after, Dead)| == |WithState(before, Dead)| + |nd|
  {
    forall n | n in after
      ensures Advances(before[n], after[n])
    {
    }
    FinalStateGrows(before, after, ne, ni, nr, nd, Dead);
    FinalStateGrows(before, after, ne, ni, nr, nd, Recovered);
    DistinctSize(nd);
  }

  lemma FinalStateGrows(before: map<NodeId, MState>, after: map<NodeId, MState>,
                        ne: seq<NodeId>, ni: seq<NodeId>, nr: seq<NodeId>, nd: seq<NodeId>, st: MState)
    requires StepApplied(before, after, ne, ni, nr, nd) && (st == Dead || st == Recovered)
    ensures WithState(after, st) == WithState(before, st) + Elems(if st == Dead then nd else nr)
    ensures WithState(before, st) !! Elems(if st == Dead then nd else nr)
  {
    var gained := Elems(if st == Dead then nd else nr);
    forall n | n in WithState(after, st)
      ensures n in WithState(before, st) + gained
    {
    }
    forall n | n in WithState(before, st) + gained
      ensures n in WithState(after, st)
    {
      if n in gained {
        assert n !in ne && n !in ni;
      }
    }
  }

  /** Contact `c` joins `a` and `b`, in either direction. */
  predicate Met(c: Sir.Contact, a: NodeId, b: NodeId)
  {
    (c.u == a && c.v == b) || (c.v == a && c.u == b)
  }

  /** What a reported infection says about the state after the step: its node is exposed;
      a contact infection names an infectious node that met it in the group, an airborne one
      names its community, whose load is positive. */
  ghost predicate Explained(states: map<NodeId, MState>, zoneMap: map<ZoneId, real>,
                            communities: map<NodeId, ZoneId>, group: seq<Sir.Contact>, i: Infection)
  {
    StateOf(states, i.id) == Exposed &&
    (i.route == ByContact ==>
      i.zone.None? && i.source.Some? && StateOf(states, i.source.value) == Infectious &&
      exists c :: c in group && Met(c, i.source.value, i.id)) &&
    (i.route == ByAir ==> ByAirIn(zoneMap, communities, i.id, i))
  }

  lemma ContactExplained(before: map<NodeId, MState>, after: map<NodeId, MState>, ne: seq<NodeId>,
                         zoneMap: map<ZoneId, real>, communities: map<NodeId, ZoneId>,
                         group: seq<Sir.Contact>, i: Infection)
    requires Exposes(before, after, ne) && ByContactIn(before, group, i) && i.id in ne
    ensures Explained(after, zoneMap, communities, group, i)
  {
    var c :| c in group && AtRisk(before, c) == Some(Exposure(i.source.value, i.id));
    assert Met(c, i.source.value, i.id);
    assert i.source.value in before && i.source.value !in ne;
  }

  /** The exposures of the contact loop and then of the airborne loop, each explained by the
      state after both. */
  lemma PhasesExplained(s1: map<NodeId, MState>, s2: map<NodeId, MState>, s3: map<NodeId, MState>,
                        zoneMap: map<ZoneId, real>, communities: map<NodeId, ZoneId>, group: seq<Sir.Contact>,
                        ci: seq<Infection>, ce: seq<NodeId>, ai: seq<Infection>, ae: seq<NodeId>)
    requires Exposes(s1, s2, ce) && Exposes(s2, s3, ae)
    requires |ci| == |ce| && forall k :: 0 <= k < |ci| ==> ci[k].id == ce[k] && ByContactIn(s1, group, ci[k])
    requires |ai| == |ae| && forall k :: 0 <= k < |ai| ==> ByAirIn(zoneMap, communities, ae[k], ai[k])
    ensures Exposes(s1, s3, ce + ae)
    ensures forall k :: 0 <= k < |ci + ai| ==>
      (ci + ai)[k].id == (ce + ae)[k] && Explained(s3, zoneMap, communities, group, (ci + ai)[k])
  {
    ExposesCompose(s1, s2, s3, ce, ae);
    forall k | 0 <= k < |ci + ai|
      ensures (ci + ai)[k].id == (ce + ae)[k]
      ensures Explained(s3, zoneMap, communities, group, (ci + ai)[k])
    {
      if k < |ci| {
        assert (ci + ai)[k] == ci[k] && (ce + ae)[k] == ce[k];
        ContactExplained(s1, s3, ce + ae, zoneMap, communities, group, ci[k]);
      } else {
        assert (ci + ai)[k] == ai[k - |ci|] && (ce + ae)[k] == ae[k - |ci|];
      }
    }
  }

  /** `states.get(n, SUSCEPTIBLE)`. */
  function StateOf(states: map<NodeId, MState>, n: NodeId): MState
  {
    if n in states then states[n] else Susceptible
  }

  /** The four state totals of a record. */
  function Totals(r: StepRecord): nat
  {
    r.totalExposed + r.totalInfected + r.totalRecovered + r.totalDead
  }

  /** The first report: the patient zeros infectious at the start time, no load. */
  function InitialReport(start: int, sample: seq<NodeId>): Report
  {
    Report(StepRecord(start, sample, [], [], [], [], [], [], 0, |sample|, 0, 0), [], map[], Stats(0.0, 0.0, 0))
  }

  /** The yield test of the loop over timestamp groups. */
  predicate Newsworthy(r: Report)
  {
    r.newInfections != [] || r.record.newInfected != [] || r.record.newRecovered != [] || r.zoneUpdates != map[]
  }

  /** The yield test of the drain loop, which does not look at new infections. */
  predicate DrainNewsworthy(r: Report)
  {
    r.record.newInfected != [] || r.record.newRecovered != [] || r.zoneUpdates != map[]
  }

  /** The reports of `rs` that pass `test`, in order. */
  function Keep(test: Report -> bool, rs: seq<Report>): (r: seq<Report>)
    ensures |r| <= |rs| && forall x :: x in r ==> x in rs && test(x)
  {
    if |rs| == 0 then []
    else
      var r := Keep(test, rs[..|rs| - 1]);
      assert forall x :: x in r ==> x in rs;
      r + (if test(rs[|rs| - 1]) then [rs[|rs| - 1]] else [])
  }

  /** Keeping `x` or not, after the reports `kept` so far, extends what is kept of `rs`. */
  lemma KeepAppend(test: Report -> bool, first: seq<Report>, rs: seq<Report>, x: Report, kept: seq<Report>)
    requires kept == if test(x) then first + Keep(test, rs) + [x] else first + Keep(test, rs)
    ensures kept == first + Keep(test, rs + [x])
  {
    assert (rs + [x])[..|rs|] == rs;
  }

  /** Every report of `rs` that passes `test` is kept. */
  lemma {:induction false} KeepKeepsPassing(test: Report -> bool, rs: seq<Report>, k: nat)
    requires k < |rs| && test(rs[k])
    ensures rs[k] in Keep(test, rs)
  {
    if k < |rs| - 1 {
      KeepKeepsPassing(test, rs[..|rs| - 1], k);
    }
  }

  /** What a step report says about its step: the state changes it lists are exactly the
      step's, and its totals are the state counts after it. */
  ghost predicate StepReported(before: map<NodeId, MState>, after: map<NodeId, MState>, r: Report)
  {
    var x := r.record;
    StepApplied(before, after, x.newExposed, x.newInfected, x.newRecovered, x.newDead) &&
    x.totalExposed == |WithState(after, Exposed)| && x.totalInfected == |WithState(after, Infectious)| &&
    x.totalRecovered == |WithState(after, Recovered)| && x.totalDead == |WithState(after, Dead)|
  }

  /** What a step report says beyond its record, about the state `b` after the step over
      the rows `group`: the communities above 0.1, the load statistics, and one explained
      infection per newly exposed node, in the same order. */
  ghost predicate NewsReported(sim: MeaslesSimulation, b: Snap, r: Report, group: seq<Sir.Contact>)
  {
    r.zoneUpdates == Updates(b.loads) &&
    (forall z :: z in sim.zones ==> z in b.loads) && r.stats == StatsOf(sim.zones, b.loads) &&
    |r.newInfections| == |r.record.newExposed| &&
    forall k :: 0 <= k < |r.newInfections| ==>
      r.newInfections[k].id == r.record.newExposed[k] &&
      Explained(b.states, b.loads, sim.communities, group, r.newInfections[k])
  }

  /** `b` is `a` after one `step` at the report's time over the rows `group`, and the
      report describes it: its record, its zone updates, its statistics and its infections. */
  ghost predicate StepTaken(sim: MeaslesSimulation, a: Snap, b: Snap, r: Report, group: seq<Sir.Contact>)
  {
    (forall n :: n in sim.order ==> n in a.states) &&
    b == sim.StepOf(a, r.record.time, group) &&
    StepReported(a.states, b.states, r) &&
    NewsReported(sim, b, r, group)
  }

  /** `snaps[k]` and `snaps[k + 1]` are the simulator's states before and after step `k` of
      `steps`, taken over the rows `groups[k]`. */
  ghost predicate Link(sim: MeaslesSimulation, snaps: seq<Snap>, steps: seq<Report>, groups: seq<seq<Sir.Contact>>,
                       k: nat)
  {
    k < |steps| && k < |groups| && k + 1 < |snaps| &&
    StepTaken(sim, snaps[k], snaps[k + 1], steps[k], groups[k])
  }

  /** Every step of `steps` links the state before it to the state after it. */
  ghost predicate Stepped(sim: MeaslesSimulation, snaps: seq<Snap>, steps: seq<Report>, groups: seq<seq<Sir.Contact>>)
  {
    |snaps| == |steps| + 1 && |groups| == |steps| &&
    forall k: nat :: k < |steps| ==> Link(sim, snaps, steps, groups, k)
  }

  /** Every step of a stepped run is `step` applied to the state before it. */
  lemma SteppedAt(sim: MeaslesSimulation, snaps: seq<Snap>, steps: seq<Report>,
                  groups: seq<seq<Sir.Contact>>, k: nat)
    requires Stepped(sim, snaps, steps, groups) && k < |steps|
    ensures StepTaken(sim, snaps[k], snaps[k + 1], steps[k], groups[k])
  {
    assert Link(sim, snaps, steps, groups, k);
  }

  lemma SteppedAppend(sim: MeaslesSimulation, snaps: seq<Snap>, steps: seq<Report>, groups: seq<seq<Sir.Contact>>,
                      after: Snap, r: Report, group: seq<Sir.Contact>)
    requires Stepped(sim, snaps, steps, groups) && StepTaken(sim, snaps[|steps|], after, r, group)
    ensures Stepped(sim, snaps + [after], steps + [r], groups + [group])
  {
    var snaps', steps', groups' := snaps + [after], steps + [r], groups + [group];
    forall k: nat | k < |steps'|
      ensures Link(sim, snaps', steps', groups', k)
    {
      if k < |steps| {
        assert Link(sim, snaps, steps, groups, k);
        assert snaps'[k] == snaps[k] && snaps'[k + 1] == snaps[k + 1] && steps'[k] == steps[k] && groups'[k] == groups[k];
      } else {
        assert snaps'[k] == snaps[|steps|] && snaps'[k + 1] == after && steps'[k] == r && groups'[k] == group;
      }
    }
  }

  /** Two runs of steps, the second starting where the first ends, make one run. */
  lemma SteppedConcat(sim: MeaslesSimulation, sa: seq<Snap>, a: seq<Report>, ga: seq<seq<Sir.Contact>>,
                      sb: seq<Snap>, b: seq<Report>, gb: seq<seq<Sir.Contact>>)
    requires Stepped(sim, sa, a, ga) && Stepped(sim, sb, b, gb) && sa[|a|] == sb[0]
    ensures Stepped(sim, sa + sb[1..], a + b, ga + gb)
  {
    var snaps, steps, groups := sa + sb[1..], a + b, ga + gb;
    forall k: nat | k < |steps|
      ensures Link(sim, snaps, steps, groups, k)
    {
      if k < |a| {
        assert Link(sim, sa, a, ga, k);
        assert snaps[k] == sa[k] && snaps[k + 1] == sa[k + 1] && steps[k] == a[k] && groups[k] == ga[k];
      } else {
        assert Link(sim, sb, b, gb, k - |a|);
        assert snaps[k] == sb[k - |a|] && snaps[k + 1] == sb[k - |a| + 1] && steps[k] == b[k - |a|] &&
               groups[k] == gb[k - |a|];
      }
    }
  }

  /** `snaps` are the states around the steps `steps`, from `start` to `current`. */
  ghost predicate StepsFrom(sim: MeaslesSimulation, snaps: seq<Snap>, steps: seq<Report>,
                            groups: seq<seq<Sir.Contact>>, start: Snap, current: Snap)
  {
    Stepped(sim, snaps, steps, groups) && snaps[0] == start && snaps[|steps|] == current
  }

  lemma StepsFromAppend(sim: MeaslesSimulation, snaps: seq<Snap>, steps: seq<Report>, groups: seq<seq<Sir.Contact>>,
                        start: Snap, before: Snap, r: Report, group: seq<Sir.Contact>, after: Snap)
    requires StepsFrom(sim, snaps, steps, groups, start, before) && StepTaken(sim, before, after, r, group)
    ensures StepsFrom(sim, snaps + [after], steps + [r], groups + [group], start, after)
  {
    SteppedAppend(sim, snaps, steps, groups, after, r, group);
  }

  /** The rows of `gs`, one group after the other. */
  function Flatten(gs: seq<seq<Sir.Contact>>): seq<Sir.Contact>
  {
    if |gs| == 0 then [] else Flatten(gs[..|gs| - 1]) + gs[|gs| - 1]
  }

  /** `groups` cut the rows before position `i` into non-empty groups, in order, the rows of
      group `k` all at the time of step `k`. */
  ghost predicate Grouping(cs: seq<Sir.Contact>, groups: seq<seq<Sir.Contact>>, steps: seq<Report>, i: nat)
    requires i <= |cs|
  {
    |groups| == |steps| && Flatten(groups) == cs[..i] &&
    forall k :: 0 <= k < |groups| ==>
      |groups[k]| > 0 && forall c :: c in groups[k] ==> c.timestamp == steps[k].record.time
  }

  /** The rows from `i` up to the end of their timestamp group make one more group. */
  lemma GroupingAdvance(cs: seq<Sir.Contact>, groups: seq<seq<Sir.Contact>>, steps: seq<Report>, i: nat, j: nat,
                        r: Report)
    requires i < j <= |cs| && Grouping(cs, groups, steps, i)
    requires forall k :: i <= k < j ==> cs[k].timestamp == r.record.time
    ensures Grouping(cs, groups + [cs[i..j]], steps + [r], j)
  {
    var groups', steps' := groups + [cs[i..j]], steps + [r];
    assert groups'[..|groups|] == groups;
    assert cs[..i] + cs[i..j] == cs[..j];
    forall k | 0 <= k < |groups'|
      ensures |groups'[k]| > 0 && forall c: Sir.Contact :: c in groups'[k] ==> c.timestamp == steps'[k].record.time
    {
      if k == |groups| {
        forall c | c in cs[i..j]
          ensures c.timestamp == r.record.time
        {
          var m :| 0 <= m < j - i && cs[i..j][m] == c;
          assert cs[i + m] == c;
        }
      } else {
        assert groups'[k] == groups[k] && steps'[k] == steps[k];
      }
    }
  }

  lemma NoRowsSnoc(n: nat)
    ensures NoRows(n) + [[]] == NoRows(n + 1)
  {
  }

  /** The rows of the drain steps: none. */
  function NoRows(n: nat): (r: seq<seq<Sir.Contact>>)
    ensures |r| == n && forall k :: 0 <= k < n ==> r[k] == []
  {
    seq(n, _ => [])
  }

  const DrainStep := 20
  const MaxDrainSteps := 1000

  /** A report of the loop over groups: timed at a timestamp of the table, passing its test. */
  ghost predicate GroupReport(cs: seq<Sir.Contact>, r: Report)
  {
    Newsworthy(r) && exists i :: 0 <= i < |cs| && cs[i].timestamp == r.record.time
  }

  /** A report of the drain loop after the last timestamp `last`: a whole number of 20-second
      steps later, at most 1000 of them, passing its test. */
  predicate DrainReport(last: int, r: Report)
  {
    DrainNewsworthy(r) && last < r.record.time <= last + DrainStep * MaxDrainSteps &&
    (r.record.time - last) % DrainStep == 0
  }

  /** What the reports after the first satisfy: increasing times, each from the grouped loop
      or the drain loop, totals within the node count, and no death when the mortality rate
      is not positive. */
  ghost predicate Yielded(cs: seq<Sir.Contact>, rs: seq<Report>, nodes: nat, mortalityRate: real)
    requires |cs| > 0
  {
    |rs| > 0 &&
    (forall a, b :: 0 < a < b < |rs| ==> rs[a].record.time < rs[b].record.time) &&
    (forall k :: 0 < k < |rs| ==> GroupReport(cs, rs[k]) || DrainReport(cs[|cs| - 1].timestamp, rs[k])) &&
    (forall k :: 0 < k < |rs| ==> Totals(rs[k].record) <= nodes) &&
    (mortalityRate <= 0.0 ==> forall k :: 0 <= k < |rs| ==> rs[k].record.newDead == [] && rs[k].record.totalDead == 0)
  }

  lemma YieldedAppend(cs: seq<Sir.Contact>, rs: seq<Report>, nodes: nat, mortalityRate: real, r: Report)
    requires |cs| > 0 && Yielded(cs, rs, nodes, mortalityRate)
    requires forall k :: 0 < k < |rs| ==> rs[k].record.time < r.record.time
    requires GroupReport(cs, r) || DrainReport(cs[|cs| - 1].timestamp, r)
    requires Totals(r.record) <= nodes
    requires mortalityRate <= 0.0 ==> r.record.newDead == [] && r.record.totalDead == 0
    ensures Yielded(cs, rs + [r], nodes, mortalityRate)
  {
    var rs' := rs + [r];
    assert forall k :: 0 <= k < |rs| ==> rs'[k] == rs[k];
  }

  /** The drain loop's reports so far: `reports'` is `reports` and the newsworthy ones of the
      steps `drained`, each 20 seconds after the one before, the first 20 seconds after `last`. */
  ghost predicate DrainKept(reports: seq<Report>, reports': seq<Report>, drained: seq<Report>, last: int)
  {
    reports' == reports + Keep(DrainNewsworthy, drained) &&
    forall k :: 0 <= k < |drained| ==> drained[k].record.time == last + DrainStep * (k + 1)
  }

  lemma DrainKeptAppend(reports: seq<Report>, reports': seq<Report>, drained: seq<Report>, last: int,
                        r: Report, kept: seq<Report>)
    requires DrainKept(reports, reports', drained, last)
    requires r.record.time == last + DrainStep * (|drained| + 1)
    requires kept == if DrainNewsworthy(r) then reports' + [r] else reports'
    ensures DrainKept(reports, kept, drained + [r], last)
  {
    KeepAppend(DrainNewsworthy, reports, drained, r, kept);
  }

  /** The time of the next drain step is a whole number of steps after `last`, at most
      1000 of them. */
  lemma NextDrainTime(last: int, steps: nat)
    requires steps < MaxDrainSteps
    ensures var t := last + DrainStep * (steps + 1);
      last < t <= last + DrainStep * MaxDrainSteps && (t - last) % DrainStep == 0
  {
    var t := last + DrainStep * (steps + 1);
    assert t - last == DrainStep * (steps + 1);
  }

  /** `run_measles_simulation_generator` without a table: the one error report. */
  datatype Run = NotLoaded | Yields(reports: seq<Report>)

  /** The simulation object: its parameters, the random sources it draws from, and the three
      dictionaries it updates in place (node states, zone loads and the event heap). */
  class MeaslesSimulation {
    const communities: map<NodeId, ZoneId>
    const transmissionProb: real
    const recoveryDays: real
    const incubationDays: real
    const ventilationRate: real
    const sheddingRate: real
    const betaAir: real
    const mortalityRate: real
    /** The order in which the state dictionary and the load dictionary are visited. */
    const order: seq<NodeId>
    const zones: seq<ZoneId>
    /** `uniform(k)` is the k-th `random.random()`, `normal(mean, sd, k)` the k-th
        `np.random.normal(mean, sd)`, and `exp` is `math.exp`. */
    const uniform: nat -> real
    const normal: (real, real, nat) -> real
    const exp: real -> real

    var nodeStates: map<NodeId, MState>
    var zoneMap: map<ZoneId, real>
    var eventQueue: seq<Event>
    /** How many uniform and how many normal samples have been drawn. */
    var draws: nat
    var normals: nat

    ghost predicate Valid()
      reads this
    {
      Distinct(order) && nodeStates.Keys == Elems(order) &&
      Distinct(zones) && zoneMap.Keys == Elems(zones) &&
      (forall n :: n in nodeStates ==> ZoneOf(communities, n) in zoneMap) &&
      (forall k :: 0.0 <= uniform(k) < 1.0) &&
      Sorted(eventQueue) && Tracks(nodeStates, eventQueue)
    }

    /** The simulator's state as a value. */
    ghost function Now(): Snap
      reads this
    {
      Snap(nodeStates, zoneMap, eventQueue, draws, normals)
    }

    /** `sample_incubation_duration` and `sample_recovery_duration` with the k-th normal
        sample: mean the configured days, spread a fifth of it but at least one day. */
    function IncubationDuration(k: nat): (d: real)
      ensures d >= SecondsPerDay
    {
      Duration(normal(incubationDays, AtLeastOne(incubationDays * 0.2), k))
    }

    function RecoveryDuration(k: nat): (d: real)
      ensures d >= SecondsPerDay
    {
      Duration(normal(recoveryDays, AtLeastOne(recoveryDays * 0.2), k))
    }


    /** `__init__`: every node of the table susceptible, every community's load 0, no events
        queued. The three airborne rates are given explicitly. */
    constructor (order: seq<NodeId>, communities: map<NodeId, ZoneId>, zones: seq<ZoneId>,
                 transmissionProb: real, recoveryDays: real, incubationDays: real,
                 ventilationRate: real, sheddingRate: real, betaAir: real, mortalityRate: real,
                 uniform: nat -> real, normal: (real, real, nat) -> real, exp: real -> real)
      requires Distinct(order) && Distinct(zones) && Elems(zones) == communities.Values
      requires forall n :: n in order ==> ZoneOf(communities, n) in communities.Values
      requires forall k :: 0.0 <= uniform(k) < 1.0
      ensures Valid()
      ensures this.order == order && this.communities == communities && this.zones == zones
      ensures this.transmissionProb == transmissionProb && this.mortalityRate == mortalityRate
      ensures this.recoveryDays == recoveryDays && this.incubationDays == incubationDays
      ensures this.ventilationRate == ventilationRate && this.sheddingRate == sheddingRate
      ensures this.betaAir == betaAir
      ensures this.uniform == uniform && this.normal == normal && this.exp == exp
      ensures nodeStates.Keys == Elems(order) && forall n :: n in nodeStates ==> nodeStates[n] == Susceptible
      ensures zoneMap.Keys == communities.Values && forall z :: z in zoneMap ==> zoneMap[z] == 0.0
      ensures eventQueue == [] && draws == 0 && normals == 0
      ensures Now() == Fresh()
    {
      var states := map[];
      var i := 0;
      while i < |order|
        invariant 0 <= i <= |order|
        invariant states.Keys == Elems(order[..i])
        invariant forall n :: n in states ==> states[n] == Susceptible
      {
        assert order[..i + 1] == order[..i] + [order[i]];
        states := states[order[i] := Susceptible];
        i := i + 1;
      }
      assert order[..i] == order;
      var loads := map[];
      i := 0;
      while i < |zones|
        invariant 0 <= i <= |zones|
        invariant loads.Keys == Elems(zones[..i])
        invariant forall z :: z in loads ==> loads[z] == 0.0
      {
        assert zones[..i + 1] == zones[..i] + [zones[i]];
        loads := loads[zones[i] := 0.0];
        i := i + 1;
      }
      assert zones[..i] == zones;
      this.order := order;
      this.communities := communities;
      this.zones := zones;
      this.transmissionProb := transmissionProb;
      this.recoveryDays := recoveryDays;
      this.incubationDays := incubationDays;
      this.ventilationRate := ventilationRate;
      this.sheddingRate := sheddingRate;
      this.betaAir := betaAir;
      this.mortalityRate := mortalityRate;
      this.uniform := uniform;
      this.normal := normal;
      this.exp := exp;
      nodeStates := states;
      zoneMap := loads;
      eventQueue := [];
      draws := 0;
      normals := 0;
    }

    /** `infect_node`: the node becomes exposed and turns infectious after a sampled
        incubation period; the record of the infection is returned. */
    method InfectNode(node: NodeId, timestamp: int, route: Route, source: Option<NodeId>,
                      zone: Option<ZoneId>) returns (infection: Infection)
      requires Valid() && node in nodeStates && nodeStates[node] == Susceptible
      modifies this
      ensures Valid()
      ensures nodeStates == old(nodeStates)[node := Exposed]
      ensures multiset(eventQueue) == multiset(old(eventQueue)) +
        multiset{Event(timestamp as real + IncubationDuration(old(normals)), BecomeInfectious, node)}
      ensures eventQueue == Pushed(old(eventQueue), Event(timestamp as real + IncubationDuration(old(normals)), BecomeInfectious, node))
      ensures Now() == ExposeIn(old(Now()), timestamp, node)
      ensures zoneMap == old(zoneMap) && draws == old(draws) && normals == old(normals) + 1
      ensures infection == Infection(node, route, source, zone)
      ensures NoneDue(old(eventQueue), timestamp as real) ==> NoneDue(eventQueue, timestamp as real)
    {
      ghost var e := Event(timestamp as real + IncubationDuration(normals), BecomeInfectious, node);
      assert Tracks(nodeStates[node := Exposed], Pushed(eventQueue, e)) &&
             multiset(Pushed(eventQueue, e)) == multiset(eventQueue) + multiset{e} &&
             (NoneDue(eventQueue, timestamp as real) ==> NoneDue(Pushed(eventQueue, e), timestamp as real)) by {
        PushedAt(eventQueue, e);
        TracksInsert(nodeStates, eventQueue, e, Slot(eventQueue, e));
        InsertMultiset(eventQueue, e, Slot(eventQueue, e));
        InsertMembers(eventQueue, e, Slot(eventQueue, e));
      }
      Expose(node, timestamp);
      infection := Infection(node, route, source, zone);
    }

    /** The two updates of `infect_node`: the node becomes exposed and its BECOME_INFECTIOUS
        event is pushed a sampled incubation period after `timestamp`. */
    method Expose(node: NodeId, timestamp: int)
      requires Sorted(eventQueue)
      modifies this
      ensures Sorted(eventQueue)
      ensures nodeStates == old(nodeStates)[node := Exposed]
      ensures eventQueue == Pushed(old(eventQueue), Event(timestamp as real + IncubationDuration(old(normals)), BecomeInfectious, node))
      ensures zoneMap == old(zoneMap) && draws == old(draws) && normals == old(normals) + 1
      ensures Now() == ExposeIn(old(Now()), timestamp, node)
    {
      ghost var a := Now();
      var e := Event(timestamp as real + IncubationDuration(normals), BecomeInfectious, node);
      var q, k := Schedule(eventQueue, e);
      nodeStates := nodeStates[node := Exposed];
      eventQueue := q;
      normals := normals + 1;
      ExposeInFields(a.states, a.loads, a.queue, a.draws, a.normals, timestamp, node, nodeStates, eventQueue);
    }

    /** The first loop of `step`: every zone's load is multiplied by `1 - ventilation_rate`. */
    method DecayZones()
      requires Valid()
      modifies this
      ensures Valid()
      ensures zoneMap.Keys == old(zoneMap).Keys
      ensures forall z :: z in zoneMap ==> zoneMap[z] == old(zoneMap)[z] * (1.0 - ventilationRate)
      ensures nodeStates == old(nodeStates) && eventQueue == old(eventQueue)
      ensures draws == old(draws) && normals == old(normals)
    {
      var loads := zoneMap;
      var i := 0;
      while i < |zones|
        invariant 0 <= i <= |zones|
        invariant loads.Keys == zoneMap.Keys
        invariant forall z :: z in loads ==>
          loads[z] == if z in zones[..i] then zoneMap[z] * (1.0 - ventilationRate) else zoneMap[z]
      {
        var z := zones[i];
        assert z !in zones[..i];
        assert zones[..i + 1] == zones[..i] + [z];
        loads := loads[z := loads[z] * (1.0 - ventilationRate)];
        i := i + 1;
      }
      assert zones[..i] == zones;
      zoneMap := loads;
    }

    /** The second loop of `step`: each node in `infectious` adds `shedding_rate` to the load
        of its community. */
    method Shed(infectious: seq<NodeId>)
      requires Valid() && forall n :: n in infectious ==> n in nodeStates
      modifies this
      ensures Valid()
      ensures zoneMap.Keys == old(zoneMap).Keys
      ensures forall z :: z in zoneMap ==>
        zoneMap[z] == old(zoneMap)[z] + ShedLoad(communities, infectious, z, sheddingRate)
      ensures nodeStates == old(nodeStates) && eventQueue == old(eventQueue)
      ensures draws == old(draws) && normals == old(normals)
    {
      var loads := zoneMap;
      var i := 0;
      while i < |infectious|
        invariant 0 <= i <= |infectious|
        invariant loads.Keys == zoneMap.Keys
        invariant forall z :: z in loads ==>
          loads[z] == zoneMap[z] + ShedLoad(communities, infectious[..i], z, sheddingRate)
      {
        var z := ZoneOf(communities, infectious[i]);
        assert infectious[..i + 1][..i] == infectious[..i];
        loads := loads[z := loads[z] + sheddingRate];
        i := i + 1;
      }
      assert infectious[..i] == infectious;
      zoneMap := loads;
    }

    /** One pop of the event loop on a snapshot. A BECOME_INFECTIOUS entry for an exposed node
        makes it infectious and pushes its RECOVER entry a sampled recovery period (the next
        normal sample) after `timestamp`; a RECOVER entry for an infectious node draws one
        uniform sample and makes the node dead when it is below `mortality_rate`, recovered
        otherwise; an entry whose node is not in the awaited state is dropped. */
    ghost function EventRowOf(a: Snap, timestamp: int): (r: Snap)
      requires |a.queue| > 0
      ensures r.states.Keys == a.states.Keys && r.loads == a.loads
      ensures a.queue[0].time <= timestamp as real ==> Due(r.queue, timestamp as real) < Due(a.queue, timestamp as real)
    {
      var e, rest := a.queue[0], a.queue[1..];
      if e.kind == BecomeInfectious then
        if StateOf(a.states, e.node) == Exposed then
          var later := Event(timestamp as real + RecoveryDuration(a.normals), Recover, e.node);
          DueInsert(rest, later, Slot(rest, later), timestamp as real);
          PushedAt(rest, later);
          a.(states := a.states[e.node := Infectious], queue := Pushed(rest, later), normals := a.normals + 1)
        else a.(queue := rest)
      else if StateOf(a.states, e.node) == Infectious then
        a.(states := a.states[e.node := if uniform(a.draws) < mortalityRate then Dead else Recovered],
           queue := rest, draws := a.draws + 1)
      else a.(queue := rest)
    }

    /** The event loop on a snapshot: entries are popped while the head is due at `timestamp`. */
    ghost function EventsOf(a: Snap, timestamp: int): (r: Snap)
      decreases Due(a.queue, timestamp as real)
      ensures r.states.Keys == a.states.Keys && r.loads == a.loads
      ensures |r.queue| == 0 || r.queue[0].time > timestamp as real
    {
      if |a.queue| > 0 && a.queue[0].time <= timestamp as real then EventsOf(EventRowOf(a, timestamp), timestamp)
      else a
    }

    /** A due BECOME_INFECTIOUS head for an exposed node, on a snapshot. */
    lemma EventRowPromotes(a: Snap, timestamp: int)
      requires |a.queue| > 0 && a.queue[0].kind == BecomeInfectious && StateOf(a.states, a.queue[0].node) == Exposed
      ensures EventRowOf(a, timestamp) ==
        a.(states := a.states[a.queue[0].node := Infectious],
           queue := Pushed(a.queue[1..], Event(timestamp as real + RecoveryDuration(a.normals), Recover, a.queue[0].node)),
           normals := a.normals + 1)
    {
    }

    /** A RECOVER head for an infectious node, on a snapshot: the coin decides its fate. */
    lemma EventRowRetires(a: Snap, timestamp: int)
      requires |a.queue| > 0 && a.queue[0].kind == Recover && StateOf(a.states, a.queue[0].node) == Infectious
      ensures EventRowOf(a, timestamp) ==
        a.(states := a.states[a.queue[0].node := if uniform(a.draws) < mortalityRate then Dead else Recovered],
           queue := a.queue[1..], draws := a.draws + 1)
    {
    }

    /** `EventRowOf` for a promotion, on a snapshot given by its fields. */
    lemma PromoteFields(states: map<NodeId, MState>, loads: map<ZoneId, real>, queue: seq<Event>, draws: nat,
                        normals: nat, timestamp: int, states': map<NodeId, MState>, queue': seq<Event>)
      requires |queue| > 0 && queue[0].kind == BecomeInfectious && StateOf(states, queue[0].node) == Exposed
      requires states' == states[queue[0].node := Infectious]
      requires queue' == Pushed(queue[1..], Event(timestamp as real + RecoveryDuration(normals), Recover, queue[0].node))
      ensures Snap(states', loads, queue', draws, normals + 1) == EventRowOf(Snap(states, loads, queue, draws, normals), timestamp)
    {
      EventRowPromotes(Snap(states, loads, queue, draws, normals), timestamp);
    }

    /** Popping a due head is one step of the event loop. */
    lemma EventsOfStep(a: Snap, timestamp: int)
      requires |a.queue| > 0 && a.queue[0].time <= timestamp as real
      ensures EventsOf(a, timestamp) == EventsOf(EventRowOf(a, timestamp), timestamp)
    {
    }

    /** The loads after the decay and shedding loops of `step`, `infectious` being the nodes
        infectious at its start. */
    ghost function Aired(loads: map<ZoneId, real>, infectious: seq<NodeId>): map<ZoneId, real>
    {
      map z | z in loads :: loads[z] * (1.0 - ventilationRate) + ShedLoad(communities, infectious, z, sheddingRate)
    }

    /** `step` on a snapshot: decay and shedding, the due events, the contact loop over
        `group`, then the airborne loop over the nodes susceptible after it, in dictionary
        order. */
    ghost function StepOf(a: Snap, timestamp: int, group: seq<Sir.Contact>): Snap
      requires forall n :: n in order ==> n in a.states
    {
      var s1 := a.(loads := Aired(a.loads, InState(order, a.states, Infectious)));
      SpreadOf(EventsOf(s1, timestamp), timestamp, group)
    }

    /** The contact loop over `group`, then the airborne loop over the nodes susceptible
        after it, in dictionary order, on a snapshot. */
    ghost function SpreadOf(a: Snap, timestamp: int, group: seq<Sir.Contact>): Snap
      requires forall n :: n in order ==> n in a.states
    {
      ContactsOfKeys(a, timestamp, group);
      var s := ContactsOf(a, timestamp, group);
      AirOf(s, timestamp, InState(order, s.states, Susceptible))
    }

    /** A popped BECOME_INFECTIOUS event: its node, which is exposed, becomes infectious and
        its recovery is queued a sampled period after `timestamp`. */
    method PromoteHead(timestamp: int) returns (n: NodeId)
      requires Valid() && |eventQueue| > 0 && eventQueue[0].kind == BecomeInfectious
      requires eventQueue[0].time <= timestamp as real
      modifies this
      ensures Valid()
      ensures n == old(eventQueue[0].node) && n in old(nodeStates) && old(nodeStates)[n] == Exposed
      ensures nodeStates == old(nodeStates)[n := Infectious]
      ensures forall x :: x in eventQueue <==>
        x in old(eventQueue[1..]) || x == Event(timestamp as real + RecoveryDuration(old(normals)), Recover, n)
      ensures eventQueue == Pushed(old(eventQueue[1..]), Event(timestamp as real + RecoveryDuration(old(normals)), Recover, n))
      ensures Due(eventQueue, timestamp as real) < Due(old(eventQueue), timestamp as real)
      ensures zoneMap == old(zoneMap) && draws == old(draws) && normals == old(normals) + 1
      ensures Now() == EventRowOf(old(Now()), timestamp)
    {
      n := eventQueue[0].node;
      assert n in nodeStates && nodeStates[n] == Exposed;
      ghost var later := Event(timestamp as real + RecoveryDuration(normals), Recover, n);
      ghost var rest := eventQueue[1..];
      assert Tracks(nodeStates[n := Infectious], Pushed(rest, later)) &&
             (forall x :: x in Pushed(rest, later) <==> x in rest || x == later) &&
             Due(Pushed(rest, later), timestamp as real) == Due(rest, timestamp as real) by {
        PushedAt(rest, later);
        TracksPromote(nodeStates, eventQueue, later, Slot(rest, later));
        DueInsert(rest, later, Slot(rest, later), timestamp as real);
        InsertMembers(rest, later, Slot(rest, later));
      }
      Promote(n, timestamp);
    }

    /** The updates for a popped BECOME_INFECTIOUS entry: the node becomes infectious and its
        RECOVER entry is pushed a sampled recovery period after `timestamp`. */
    method Promote(n: NodeId, timestamp: int)
      requires |eventQueue| > 0 && eventQueue[0].kind == BecomeInfectious && eventQueue[0].node == n
      requires StateOf(nodeStates, n) == Exposed && Sorted(eventQueue[1..])
      modifies this
      ensures Sorted(eventQueue)
      ensures nodeStates == old(nodeStates)[n := Infectious]
      ensures eventQueue == Pushed(old(eventQueue[1..]), Event(timestamp as real + RecoveryDuration(old(normals)), Recover, n))
      ensures zoneMap == old(zoneMap) && draws == old(draws) && normals == old(normals) + 1
      ensures Now() == EventRowOf(old(Now()), timestamp)
    {
      ghost var a := Now();
      var later := Event(timestamp as real + RecoveryDuration(normals), Recover, n);
      var q, k := Schedule(eventQueue[1..], later);
      nodeStates := nodeStates[n := Infectious];
      eventQueue := q;
      normals := normals + 1;
      PromoteFields(a.states, a.loads, a.queue, a.draws, a.normals, timestamp, nodeStates, eventQueue);
    }

    /** A popped RECOVER event: its node, which is infectious, dies when the next uniform
        sample is below `mortality_rate` and recovers otherwise. */
    method RetireHead(timestamp: int) returns (n: NodeId, dies: bool)
      requires Valid() && |eventQueue| > 0 && eventQueue[0].kind == Recover
      modifies this
      ensures Valid()
      ensures n == old(eventQueue[0].node) && n in old(nodeStates) && old(nodeStates)[n] == Infectious
      ensures dies == (uniform(old(draws)) < mortalityRate)
      ensures nodeStates == old(nodeStates)[n := if dies then Dead else Recovered]
      ensures eventQueue == old(eventQueue[1..])
      ensures zoneMap == old(zoneMap) && draws == old(draws) + 1 && normals == old(normals)
      ensures Now() == EventRowOf(old(Now()), timestamp)
    {
      ghost var pre := Now();
      EventRowRetires(pre, timestamp);
      n := eventQueue[0].node;
      assert n in nodeStates && nodeStates[n] == Infectious;
      dies := uniform(draws) < mortalityRate;
      var st := if dies then Dead else Recovered;
      TracksRetire(nodeStates, eventQueue, st);
      nodeStates := nodeStates[n := st];
      eventQueue := eventQueue[1..];
      draws := draws + 1;
    }

    /** The event loop of `step`: every queued event due at `timestamp` is popped in heap
        order. BECOME_INFECTIOUS makes its exposed node infectious and queues its recovery a
        sampled period after `timestamp`; RECOVER makes its infectious node dead with
        probability `mortality_rate`, recovered otherwise. The state test on each popped event
        always passes, because the queue holds exactly one entry per exposed or infectious node
        for the transition it awaits. */
    method ProcessEvents(timestamp: int)
      returns (newlyInfected: seq<NodeId>, newlyRecovered: seq<NodeId>, newlyDead: seq<NodeId>)
      requires Valid()
      modifies this
      ensures Valid()
      ensures zoneMap == old(zoneMap) && nodeStates.Keys == old(nodeStates).Keys
      ensures EventsApplied(old(nodeStates), nodeStates, newlyInfected, newlyRecovered, newlyDead)
      ensures |eventQueue| == 0 || eventQueue[0].time > timestamp as real
      ensures mortalityRate <= 0.0 ==> newlyDead == []
      ensures Now() == EventsOf(old(Now()), timestamp)
    {
      newlyInfected, newlyRecovered, newlyDead := [], [], [];
      while |eventQueue| > 0 && eventQueue[0].time <= timestamp as real
        invariant Valid()
        invariant zoneMap == old(zoneMap)
        invariant EventsApplied(old(nodeStates), nodeStates, newlyInfected, newlyRecovered, newlyDead)
        invariant LaterFor(eventQueue, newlyInfected, timestamp as real)
        invariant mortalityRate <= 0.0 ==> newlyDead == []
        invariant EventsOf(Now(), timestamp) == EventsOf(old(Now()), timestamp)
        decreases Due(eventQueue, timestamp as real)
      {
        ghost var pre := Now();
        newlyInfected, newlyRecovered, newlyDead :=
          PopEvent(timestamp, old(nodeStates), newlyInfected, newlyRecovered, newlyDead);
        EventsOfStep(pre, timestamp);
      }
    }

    /** One pass of the event loop: the due head is popped and applied. */
    method PopEvent(timestamp: int, ghost start: map<NodeId, MState>,
                    newlyInfected: seq<NodeId>, newlyRecovered: seq<NodeId>, newlyDead: seq<NodeId>)
      returns (newlyInfected': seq<NodeId>, newlyRecovered': seq<NodeId>, newlyDead': seq<NodeId>)
      requires Valid() && |eventQueue| > 0 && eventQueue[0].time <= timestamp as real
      requires EventsApplied(start, nodeStates, newlyInfected, newlyRecovered, newlyDead)
      requires LaterFor(eventQueue, newlyInfected, timestamp as real)
      requires mortalityRate <= 0.0 ==> newlyDead == []
      modifies this
      ensures Valid() && zoneMap == old(zoneMap)
      ensures EventsApplied(start, nodeStates, newlyInfected', newlyRecovered', newlyDead')
      ensures LaterFor(eventQueue, newlyInfected', timestamp as real)
      ensures mortalityRate <= 0.0 ==> newlyDead' == []
      ensures Due(eventQueue, timestamp as real) < Due(old(eventQueue), timestamp as real)
      ensures Now() == EventRowOf(old(Now()), timestamp)
    {
      var head := eventQueue[0];
      assert head in eventQueue;
      newlyInfected', newlyRecovered', newlyDead' := newlyInfected, newlyRecovered, newlyDead;
      if head.kind == BecomeInfectious {
        ghost var before := nodeStates;
        ghost var q := eventQueue;
        ghost var later := Event(timestamp as real + RecoveryDuration(normals), Recover, q[0].node);
        var n := PromoteHead(timestamp);
        ApplyPromote(start, before, newlyInfected, newlyRecovered, newlyDead, n);
        LaterForPromote(q, newlyInfected, timestamp as real, later, eventQueue);
        newlyInfected' := newlyInfected + [n];
      } else {
        ghost var before := nodeStates;
        var n, dies := RetireHead(timestamp);
        ApplyRetire(start, before, newlyInfected, newlyRecovered, newlyDead, n, dies);
        if dies {
          newlyDead' := newlyDead + [n];
        } else {
          newlyRecovered' := newlyRecovered + [n];
        }
      }
    }
  
    /** One row of the contact loop: an infectious-susceptible pair draws a uniform sample,
        and a sample below `transmission_prob` exposes the susceptible side. */
    method ContactRow(timestamp: int, c: Sir.Contact) returns (infection: Option<Infection>)
      requires Valid() && c.u in nodeStates && c.v in nodeStates
      modifies this
      ensures Valid()
      ensures Now() == ContactRowOf(old(Now()), timestamp, c)
      ensures zoneMap == old(zoneMap)
      ensures draws == old(draws) + (if AtRisk(old(nodeStates), c).Some? then 1 else 0)
      ensures normals == old(normals) + (if infection.Some? then 1 else 0)
      ensures infection.Some? <==>
        AtRisk(old(nodeStates), c).Some? && uniform(old(draws)) < transmissionProb
      ensures infection.Some? ==>
        var x := AtRisk(old(nodeStates), c).value;
        infection.value == Infection(x.target, ByContact, Some(x.source), None) &&
        nodeStates == old(nodeStates)[x.target := Exposed]
      ensures infection.None? ==> nodeStates == old(nodeStates)
      ensures NoneDue(old(eventQueue), timestamp as real) ==> NoneDue(eventQueue, timestamp as real)
    {
      infection := None;
      var risk := AtRisk(nodeStates, c);
      if risk.Some? {
        var coin := uniform(draws);
        if coin < transmissionProb {
          var x := risk.value;
          var i := InfectNode(x.target, timestamp, ByContact, Some(x.source), None);
          infection := Some(i);
          ContactRowExposes(old(Now()), timestamp, c);
        }
        ghost var mid := Now();
        draws := draws + 1;
        assert Now() == mid.(draws := mid.draws + 1);
      }
    }

    /** The contact loop of `step`: each row between an infectious and a susceptible node
        draws a uniform sample, and a sample below `transmission_prob` exposes the susceptible
        side. */
    method ContactPhase(timestamp: int, group: seq<Sir.Contact>)
      returns (infections: seq<Infection>, exposed: seq<NodeId>)
      requires Valid() && forall c :: c in group ==> c.u in nodeStates && c.v in nodeStates
      modifies this
      ensures Valid()
      ensures Now() == ContactsOf(old(Now()), timestamp, group)
      ensures zoneMap == old(zoneMap) && draws >= old(draws) && normals >= old(normals)
      ensures Exposes(old(nodeStates), nodeStates, exposed)
      ensures |infections| == |exposed|
      ensures forall k :: 0 <= k < |infections| ==>
        infections[k].id == exposed[k] && ByContactIn(old(nodeStates), group, infections[k])
      ensures transmissionProb <= 0.0 ==> exposed == []
      ensures transmissionProb >= 1.0 ==> forall c :: c in group ==> Caught(old(nodeStates), nodeStates, c)
      ensures NoneDue(old(eventQueue), timestamp as real) ==> NoneDue(eventQueue, timestamp as real)
    {
      infections, exposed := [], [];
      var j := 0;
      while j < |group|
        invariant 0 <= j <= |group|
        invariant Valid()
        invariant zoneMap == old(zoneMap) && draws >= old(draws) && normals >= old(normals)
        invariant ContactsDone(old(nodeStates), nodeStates, group, j, infections, exposed, transmissionProb)
        invariant Now() == ContactsOf(old(Now()), timestamp, group[..j])
        invariant NoneDue(old(eventQueue), timestamp as real) ==> NoneDue(eventQueue, timestamp as real)
      {
        ghost var before := nodeStates;
        ghost var coin := uniform(draws);
        ContactsOfSnoc(old(Now()), timestamp, group, j);
        var infection := ContactRow(timestamp, group[j]);
        var infections', exposed' := infections, exposed;
        if infection.Some? {
          infections' := infections + [infection.value];
          exposed' := exposed + [infection.value.id];
        }
        ContactAdvance(old(nodeStates), before, nodeStates, group, j, infections, exposed,
                       transmissionProb, coin, infection, infections', exposed');
        assert group[..j + 1][..j] == group[..j];
        infections, exposed := infections', exposed';
        j := j + 1;
      }
      assert group[..j] == group;
    }
  
    /** `1 - exp(-beta_air * load)`. */
    function AirborneProbability(load: real): real
    {
      1.0 - exp(-betaAir * load)
    }

    /** The airborne row of `n` exposes it: its community's load is positive and the uniform
        sample it draws is below the airborne probability of that load. */
    ghost predicate AirInfects(b: Snap, n: NodeId)
    {
      var load := LoadOf(b.loads, communities, n);
      load > 0.0 && uniform(b.draws) < AirborneProbability(load)
    }

    /** One node of the airborne loop on a snapshot: in a loaded community it draws one
        uniform sample and, when it is below the airborne probability, is exposed; otherwise
        nothing is drawn or changed. */
    ghost function AirRowOf(a: Snap, timestamp: int, n: NodeId): Snap
    {
      var load := LoadOf(a.loads, communities, n);
      if load > 0.0 then
        if uniform(a.draws) < AirborneProbability(load) then ExposeIn(a, timestamp, n).(draws := a.draws + 1)
        else a.(draws := a.draws + 1)
      else a
    }

    /** A node whose airborne draw succeeds is exposed and the draw counted. */
    lemma AirRowExposes(a: Snap, timestamp: int, n: NodeId)
      requires AirInfects(a, n)
      ensures AirRowOf(a, timestamp, n) == var b := ExposeIn(a, timestamp, n); b.(draws := b.draws + 1)
    {
    }

    /** The airborne loop over `candidates`, in order. */
    ghost function AirOf(a: Snap, timestamp: int, candidates: seq<NodeId>): Snap
    {
      if |candidates| == 0 then a
      else AirRowOf(AirOf(a, timestamp, candidates[..|candidates| - 1]), timestamp, candidates[|candidates| - 1])
    }

    /** The loop over one more candidate is one more row. */
    lemma AirOfSnoc(a: Snap, timestamp: int, candidates: seq<NodeId>, j: nat)
      requires j < |candidates|
      ensures AirOf(a, timestamp, candidates[..j + 1]) ==
              AirRowOf(AirOf(a, timestamp, candidates[..j]), timestamp, candidates[j])
    {
      assert candidates[..j + 1][..j] == candidates[..j];
    }

    /** The row of candidate `k`, which is `n`, exposes it in the snapshot the rows before it
        leave. */
    ghost predicate CandidateExposes(a: Snap, timestamp: int, candidates: seq<NodeId>, k: nat, n: NodeId)
    {
      k < |candidates| && candidates[k] == n && AirInfects(AirOf(a, timestamp, candidates[..k]), n)
    }

    lemma CandidateExposesPrefix(a: Snap, timestamp: int, candidates: seq<NodeId>, m: nat, k: nat, n: NodeId)
      requires k < m <= |candidates|
      ensures CandidateExposes(a, timestamp, candidates[..m], k, n) <==> CandidateExposes(a, timestamp, candidates, k, n)
    {
      assert candidates[..m][..k] == candidates[..k];
    }

    /** One airborne row exposes `n` exactly when it is `n`'s row and `AirInfects` holds, and
        leaves `n` as it was otherwise. */
    lemma AirRowState(b: Snap, timestamp: int, m: NodeId, n: NodeId)
      ensures StateOf(AirRowOf(b, timestamp, m).states, n) ==
        if m == n && AirInfects(b, n) then Exposed else StateOf(b.states, n)
    {
    }

    /** Some candidate row exposes `n`, each row seeing the snapshot the rows before it leave. */
    ghost predicate ExposedByAir(a: Snap, timestamp: int, candidates: seq<NodeId>, n: NodeId)
    {
      |candidates| > 0 &&
      (ExposedByAir(a, timestamp, candidates[..|candidates| - 1], n) ||
       (candidates[|candidates| - 1] == n && AirInfects(AirOf(a, timestamp, candidates[..|candidates| - 1]), n)))
    }

    /** Over the airborne loop a node ends exposed exactly when a row of its own exposes it,
        and keeps its state otherwise. */
    lemma {:induction false} AirExposure(a: Snap, timestamp: int, candidates: seq<NodeId>, n: NodeId)
      ensures StateOf(AirOf(a, timestamp, candidates).states, n) ==
        if ExposedByAir(a, timestamp, candidates, n) then Exposed else StateOf(a.states, n)
    {
      if |candidates| > 0 {
        var init := candidates[..|candidates| - 1];
        AirExposure(a, timestamp, init, n);
        AirRowState(AirOf(a, timestamp, init), timestamp, candidates[|candidates| - 1], n);
      }
    }

    /** `ExposedByAir` names a row: some candidate `k`, which is `n`, is exposed in the
        snapshot left by the rows before it. */
    lemma {:induction false} ExposedByAirIff(a: Snap, timestamp: int, candidates: seq<NodeId>, n: NodeId)
      ensures ExposedByAir(a, timestamp, candidates, n) <==>
        exists k: nat :: CandidateExposes(a, timestamp, candidates, k, n)
    {
      if |candidates| > 0 {
        var m := |candidates| - 1;
        var init := candidates[..m];
        ExposedByAirIff(a, timestamp, init, n);
        if ExposedByAir(a, timestamp, candidates, n) {
          if ExposedByAir(a, timestamp, init, n) {
            var k: nat :| CandidateExposes(a, timestamp, init, k, n);
            CandidateExposesPrefix(a, timestamp, candidates, m, k, n);
            assert CandidateExposes(a, timestamp, candidates, k, n);
          } else {
            assert CandidateExposes(a, timestamp, candidates, m, n);
          }
        }
        if exists k: nat :: CandidateExposes(a, timestamp, candidates, k, n) {
          var k: nat :| CandidateExposes(a, timestamp, candidates, k, n);
          if k < m {
            CandidateExposesPrefix(a, timestamp, candidates, m, k, n);
            assert CandidateExposes(a, timestamp, init, k, n);
            assert ExposedByAir(a, timestamp, init, n);
          }
          assert ExposedByAir(a, timestamp, candidates, n);
        }
      }
    }

    /** `infect_node` on a snapshot: the node becomes exposed and its BECOME_INFECTIOUS event is
        pushed a sampled incubation period (the next normal sample) after `timestamp`. */
    ghost function ExposeIn(a: Snap, timestamp: int, n: NodeId): Snap
    {
      Snap(a.states[n := Exposed], a.loads,
           Pushed(a.queue, Event(timestamp as real + IncubationDuration(a.normals), BecomeInfectious, n)),
           a.draws, a.normals + 1)
    }

    /** `ExposeIn` on a snapshot given by its fields. */
    lemma ExposeInFields(states: map<NodeId, MState>, loads: map<ZoneId, real>, queue: seq<Event>, draws: nat,
                         normals: nat, timestamp: int, n: NodeId, states': map<NodeId, MState>, queue': seq<Event>)
      requires states' == states[n := Exposed]
      requires queue' == Pushed(queue, Event(timestamp as real + IncubationDuration(normals), BecomeInfectious, n))
      ensures Snap(states', loads, queue', draws, normals + 1) ==
              ExposeIn(Snap(states, loads, queue, draws, normals), timestamp, n)
    {
    }

    /** A contact row exposes `n`: the row puts `n` at risk in snapshot `b` and the uniform
        sample it draws is below `transmission_prob`. */
    ghost predicate Infects(b: Snap, c: Sir.Contact, n: NodeId)
    {
      AtRisk(b.states, c).Some? && AtRisk(b.states, c).value.target == n && uniform(b.draws) < transmissionProb
    }

    /** One row of the contact loop on a snapshot: a row with an infectious-susceptible pair
        draws one uniform sample and, when it is below `transmission_prob`, exposes the
        susceptible side; any other row draws nothing and changes nothing. */
    ghost function ContactRowOf(a: Snap, timestamp: int, c: Sir.Contact): Snap
    {
      var risk := AtRisk(a.states, c);
      if risk.None? then a
      else if uniform(a.draws) < transmissionProb then ExposeIn(a, timestamp, risk.value.target).(draws := a.draws + 1)
      else a.(draws := a.draws + 1)
    }

    /** A row whose draw succeeds exposes its target and counts the draw. */
    lemma ContactRowExposes(a: Snap, timestamp: int, c: Sir.Contact)
      requires AtRisk(a.states, c).Some? && uniform(a.draws) < transmissionProb
      ensures ContactRowOf(a, timestamp, c) ==
              var b := ExposeIn(a, timestamp, AtRisk(a.states, c).value.target); b.(draws := b.draws + 1)
    {
    }

    /** The contact loop over the rows of `group`, in order. */
    ghost function ContactsOf(a: Snap, timestamp: int, group: seq<Sir.Contact>): Snap
    {
      if |group| == 0 then a
      else ContactRowOf(ContactsOf(a, timestamp, group[..|group| - 1]), timestamp, group[|group| - 1])
    }

    /** The contact loop exposes nodes but drops none. */
    lemma {:induction false} ContactsOfKeys(a: Snap, timestamp: int, group: seq<Sir.Contact>)
      ensures a.states.Keys <= ContactsOf(a, timestamp, group).states.Keys
    {
      if |group| > 0 {
        ContactsOfKeys(a, timestamp, group[..|group| - 1]);
      }
    }

    /** The loop over one more row. */
    lemma ContactsOfSnoc(a: Snap, timestamp: int, group: seq<Sir.Contact>, j: nat)
      requires j < |group|
      ensures ContactsOf(a, timestamp, group[..j + 1]) ==
              ContactRowOf(ContactsOf(a, timestamp, group[..j]), timestamp, group[j])
    {
      assert group[..j + 1][..j] == group[..j];
    }

    /** One contact row exposes `n` exactly when it `Infects` it, and leaves it as it was
        otherwise. */
    lemma ContactRowState(b: Snap, timestamp: int, c: Sir.Contact, n: NodeId)
      ensures StateOf(ContactRowOf(b, timestamp, c).states, n) ==
        if Infects(b, c, n) then Exposed else StateOf(b.states, n)
    {
    }

    /** Some row of `group` exposes `n`, each row seeing the snapshot the rows before it
        leave. */
    ghost predicate ExposedByRow(a: Snap, timestamp: int, group: seq<Sir.Contact>, n: NodeId)
    {
      |group| > 0 &&
      (ExposedByRow(a, timestamp, group[..|group| - 1], n) ||
       Infects(ContactsOf(a, timestamp, group[..|group| - 1]), group[|group| - 1], n))
    }

    /** Over the contact loop a node susceptible before it ends exposed exactly when some row
        exposes it, and susceptible otherwise. */
    lemma {:induction false} ContactsExposure(a: Snap, timestamp: int, group: seq<Sir.Contact>, n: NodeId)
      requires StateOf(a.states, n) == Susceptible
      ensures StateOf(ContactsOf(a, timestamp, group).states, n) ==
        if ExposedByRow(a, timestamp, group, n) then Exposed else Susceptible
    {
      if |group| > 0 {
        var init := group[..|group| - 1];
        ContactsExposure(a, timestamp, init, n);
        ContactRowState(ContactsOf(a, timestamp, init), timestamp, group[|group| - 1], n);
      }
    }

    /** Row `k` of `group` exposes `n` in the snapshot the rows before it leave. */
    ghost predicate RowExposes(a: Snap, timestamp: int, group: seq<Sir.Contact>, k: nat, n: NodeId)
    {
      k < |group| && Infects(ContactsOf(a, timestamp, group[..k]), group[k], n)
    }

    /** A row of a prefix of `group` is that row of `group`. */
    lemma RowExposesPrefix(a: Snap, timestamp: int, group: seq<Sir.Contact>, m: nat, k: nat, n: NodeId)
      requires k < m <= |group|
      ensures RowExposes(a, timestamp, group[..m], k, n) <==> RowExposes(a, timestamp, group, k, n)
    {
      assert group[..m][..k] == group[..k];
    }

    /** `ExposedByRow` names a row: some row `k` exposes `n` in the snapshot left by the rows
        before it. */
    lemma {:induction false} ExposedByRowIff(a: Snap, timestamp: int, group: seq<Sir.Contact>, n: NodeId)
      ensures ExposedByRow(a, timestamp, group, n) <==> exists k: nat :: RowExposes(a, timestamp, group, k, n)
    {
      if |group| > 0 {
        var m := |group| - 1;
        var init := group[..m];
        ExposedByRowIff(a, timestamp, init, n);
        if ExposedByRow(a, timestamp, group, n) {
          if ExposedByRow(a, timestamp, init, n) {
            var k: nat :| RowExposes(a, timestamp, init, k, n);
            RowExposesPrefix(a, timestamp, group, m, k, n);
            assert RowExposes(a, timestamp, group, k, n);
          } else {
            assert RowExposes(a, timestamp, group, m, n);
          }
        }
        if exists k: nat :: RowExposes(a, timestamp, group, k, n) {
          var k: nat :| RowExposes(a, timestamp, group, k, n);
          if k < m {
            RowExposesPrefix(a, timestamp, group, m, k, n);
            assert RowExposes(a, timestamp, init, k, n);
            assert ExposedByRow(a, timestamp, init, n);
          }
          assert ExposedByRow(a, timestamp, group, n);
        }
      }
    }

    /** One node of the airborne loop: in a loaded community it draws a uniform sample, and a
        sample below the airborne probability exposes it. */
    method AirRow(timestamp: int, n: NodeId) returns (infection: Option<Infection>)
      requires Valid() && n in nodeStates && nodeStates[n] == Susceptible
      modifies this
      ensures Valid()
      ensures Now() == AirRowOf(old(Now()), timestamp, n)
      ensures zoneMap == old(zoneMap)
      ensures draws == old(draws) + (if LoadOf(zoneMap, communities, n) > 0.0 then 1 else 0)
      ensures normals == old(normals) + (if infection.Some? then 1 else 0)
      ensures infection.Some? <==>
        var load := LoadOf(zoneMap, communities, n);
        load > 0.0 && uniform(old(draws)) < AirborneProbability(load)
      ensures infection.Some? ==>
        ByAirIn(zoneMap, communities, n, infection.value) && nodeStates == old(nodeStates)[n := Exposed]
      ensures infection.None? ==> nodeStates == old(nodeStates)
      ensures NoneDue(old(eventQueue), timestamp as real) ==> NoneDue(eventQueue, timestamp as real)
    {
      infection := None;
      var zone := ZoneOf(communities, n);
      var load := if zone in zoneMap then zoneMap[zone] else 0.0;
      if load > 0.0 {
        infection := AirDraw(timestamp, n, zone, load);
      }
    }

    /** The draw of the airborne loop for a node in a loaded community. */
    method AirDraw(timestamp: int, n: NodeId, zone: ZoneId, load: real) returns (infection: Option<Infection>)
      requires Valid() && n in nodeStates && nodeStates[n] == Susceptible
      requires zone == ZoneOf(communities, n) && load == LoadOf(zoneMap, communities, n) && load > 0.0
      modifies this
      ensures Valid()
      ensures Now() == AirRowOf(old(Now()), timestamp, n)
      ensures zoneMap == old(zoneMap) && draws == old(draws) + 1
      ensures normals == old(normals) + (if infection.Some? then 1 else 0)
      ensures infection.Some? <==> uniform(old(draws)) < AirborneProbability(load)
      ensures infection.Some? ==>
        infection.value == Infection(n, ByAir, None, Some(zone)) && nodeStates == old(nodeStates)[n := Exposed]
      ensures infection.None? ==> nodeStates == old(nodeStates)
      ensures NoneDue(old(eventQueue), timestamp as real) ==> NoneDue(eventQueue, timestamp as real)
    {
      infection := None;
      var coin := uniform(draws);
      if coin < AirborneProbability(load) {
        var i := InfectNode(n, timestamp, ByAir, None, Some(zone));
        infection := Some(i);
        AirRowExposes(old(Now()), timestamp, n);
      }
      ghost var mid := Now();
      draws := draws + 1;
      assert Now() == mid.(draws := mid.draws + 1);
    }

    /** The airborne loop of `step`: the nodes still susceptible after the contact loop, in
        dictionary order, each exposed to its community's load. */
    method AirbornePhase(timestamp: int) returns (infections: seq<Infection>, exposed: seq<NodeId>)
      requires Valid()
      modifies this
      ensures Valid()
      ensures Now() == AirOf(old(Now()), timestamp, InState(order, old(nodeStates), Susceptible))
      ensures zoneMap == old(zoneMap) && draws >= old(draws) && normals >= old(normals)
      ensures Exposes(old(nodeStates), nodeStates, exposed)
      ensures |infections| == |exposed|
      ensures forall k :: 0 <= k < |infections| ==> ByAirIn(zoneMap, communities, exposed[k], infections[k])
      ensures NoneDue(old(eventQueue), timestamp as real) ==> NoneDue(eventQueue, timestamp as real)
    {
      var candidates := InState(order, nodeStates, Susceptible);
      InStateDistinct(order, nodeStates, Susceptible);
      infections, exposed := [], [];
      var j := 0;
      while j < |candidates|
        invariant 0 <= j <= |candidates|
        invariant Valid()
        invariant zoneMap == old(zoneMap) && draws >= old(draws) && normals >= old(normals)
        invariant AirborneDone(old(nodeStates), nodeStates, zoneMap, communities, candidates, j, infections, exposed)
        invariant Now() == AirOf(old(Now()), timestamp, candidates[..j])
        invariant NoneDue(old(eventQueue), timestamp as real) ==> NoneDue(eventQueue, timestamp as real)
      {
        infections, exposed := AirStep(timestamp, candidates, j, old(Now()), old(nodeStates), infections, exposed);
        j := j + 1;
      }
      assert candidates[..j] == candidates;
    }

    /** One pass of the airborne loop: candidate `j`, still susceptible, runs its row. */
    method AirStep(timestamp: int, candidates: seq<NodeId>, j: nat, ghost start: Snap,
                   ghost before: map<NodeId, MState>, infections: seq<Infection>, exposed: seq<NodeId>)
      returns (infections': seq<Infection>, exposed': seq<NodeId>)
      requires Valid() && j < |candidates| && Distinct(candidates)
      requires candidates[j] in before && before[candidates[j]] == Susceptible
      requires AirborneDone(before, nodeStates, zoneMap, communities, candidates, j, infections, exposed)
      requires Now() == AirOf(start, timestamp, candidates[..j])
      modifies this
      ensures Valid()
      ensures AirborneDone(before, nodeStates, zoneMap, communities, candidates, j + 1, infections', exposed')
      ensures Now() == AirOf(start, timestamp, candidates[..j + 1])
      ensures zoneMap == old(zoneMap) && draws >= old(draws) && normals >= old(normals)
      ensures NoneDue(old(eventQueue), timestamp as real) ==> NoneDue(eventQueue, timestamp as real)
    {
      var n := candidates[j];
      assert n !in candidates[..j];
      ghost var now := nodeStates;
      AirOfSnoc(start, timestamp, candidates, j);
      var infection := AirRow(timestamp, n);
      infections', exposed' := infections, exposed;
      if infection.Some? {
        infections' := infections + [infection.value];
        exposed' := exposed + [n];
      }
      AirborneAdvance(before, now, nodeStates, zoneMap, communities, candidates, j,
                      infections, exposed, infection, infections', exposed');
    }

    /** The seeding of a patient zero by the generator: the node becomes infectious and its
        recovery is queued a sampled period after `start`. */
    method SeedInfectious(node: NodeId, start: int)
      requires Valid() && node in nodeStates && nodeStates[node] == Susceptible
      modifies this
      ensures Valid()
      ensures nodeStates == old(nodeStates)[node := Infectious]
      ensures multiset(eventQueue) == multiset(old(eventQueue)) +
        multiset{Event(start as real + RecoveryDuration(old(normals)), Recover, node)}
      ensures eventQueue == Pushed(old(eventQueue), Event(start as real + RecoveryDuration(old(normals)), Recover, node))
      ensures zoneMap == old(zoneMap) && draws == old(draws) && normals == old(normals) + 1
      ensures Now() == SeedIn(old(Now()), start, node)
    {
      ghost var e := Event(start as real + RecoveryDuration(normals), Recover, node);
      assert Tracks(nodeStates[node := Infectious], Pushed(eventQueue, e)) &&
             multiset(Pushed(eventQueue, e)) == multiset(eventQueue) + multiset{e} by {
        PushedAt(eventQueue, e);
        TracksInsert(nodeStates, eventQueue, e, Slot(eventQueue, e));
        InsertMultiset(eventQueue, e, Slot(eventQueue, e));
      }
      Seed(node, start);
    }

    /** The two updates of one pass of the seeding loop: the node becomes infectious and
        its RECOVER entry is pushed a sampled recovery period after `start`. */
    method Seed(node: NodeId, start: int)
      requires Sorted(eventQueue)
      modifies this
      ensures Sorted(eventQueue)
      ensures nodeStates == old(nodeStates)[node := Infectious]
      ensures eventQueue == Pushed(old(eventQueue), Event(start as real + RecoveryDuration(old(normals)), Recover, node))
      ensures zoneMap == old(zoneMap) && draws == old(draws) && normals == old(normals) + 1
      ensures Now() == SeedIn(old(Now()), start, node)
    {
      ghost var a := Now();
      var e := Event(start as real + RecoveryDuration(normals), Recover, node);
      var q, k := Schedule(eventQueue, e);
      nodeStates := nodeStates[node := Infectious];
      eventQueue := q;
      normals := normals + 1;
      SeedInFields(a.states, a.loads, a.queue, a.draws, a.normals, start, node, nodeStates, eventQueue);
    }

    /** One pass of the seeding loop on a snapshot. */
    ghost function SeedIn(a: Snap, start: int, n: NodeId): Snap
    {
      Snap(a.states[n := Infectious], a.loads,
           Pushed(a.queue, Event(start as real + RecoveryDuration(a.normals), Recover, n)),
           a.draws, a.normals + 1)
    }

    /** `SeedIn` on a snapshot given by its fields. */
    lemma SeedInFields(states: map<NodeId, MState>, loads: map<ZoneId, real>, queue: seq<Event>, draws: nat,
                       normals: nat, start: int, n: NodeId, states': map<NodeId, MState>, queue': seq<Event>)
      requires states' == states[n := Infectious]
      requires queue' == Pushed(queue, Event(start as real + RecoveryDuration(normals), Recover, n))
      ensures Snap(states', loads, queue', draws, normals + 1) == SeedIn(Snap(states, loads, queue, draws, normals), start, n)
    {
    }

    /** The patient zeros `sample` seeded one after the other, on a snapshot. */
    ghost function SeedsOf(a: Snap, sample: seq<NodeId>, start: int): Snap
    {
      if |sample| == 0 then a
      else SeedIn(SeedsOf(a, sample[..|sample| - 1], start), start, sample[|sample| - 1])
    }

    lemma SeedsOfSnoc(a: Snap, sample: seq<NodeId>, start: int, i: nat)
      requires i < |sample|
      ensures SeedsOf(a, sample[..i + 1], start) == SeedIn(SeedsOf(a, sample[..i], start), start, sample[i])
    {
      assert sample[..i + 1][..i] == sample[..i];
    }

    /** The state `__init__` builds: every node of the table susceptible, every community's
        load 0, no events queued and no samples drawn. */
    ghost function Fresh(): Snap
    {
      Snap(map n | n in Elems(order) :: Susceptible, map z | z in communities.Values :: 0.0, [], 0, 0)
    }

    /** The state changes of `step`, in its order: the loads decay and are fed by the
        nodes infectious at the start of the step, the due events are applied, then the
        contact loop and the airborne loop expose susceptible nodes. */
    method Update(timestamp: int, group: seq<Sir.Contact>)
      returns (infections: seq<Infection>, exposed: seq<NodeId>,
               newlyInfected: seq<NodeId>, newlyRecovered: seq<NodeId>, newlyDead: seq<NodeId>)
      requires Valid() && forall c :: c in group ==> c.u in nodeStates && c.v in nodeStates
      modifies this
      ensures Valid()
      ensures zoneMap.Keys == old(zoneMap).Keys
      ensures forall z :: z in zoneMap ==>
        zoneMap[z] == old(zoneMap)[z] * (1.0 - ventilationRate) +
                      ShedLoad(communities, InState(order, old(nodeStates), Infectious), z, sheddingRate)
      ensures StepApplied(old(nodeStates), nodeStates, exposed, newlyInfected, newlyRecovered, newlyDead)
      ensures NoneDue(eventQueue, timestamp as real)
      ensures |infections| == |exposed|
      ensures forall k :: 0 <= k < |infections| ==>
        infections[k].id == exposed[k] && Explained(nodeStates, zoneMap, communities, group, infections[k])
      ensures mortalityRate <= 0.0 ==> newlyDead == []
      ensures Now() == StepOf(old(Now()), timestamp, group)
    {
      DecayZones();
      var infectious := InState(order, nodeStates, Infectious);
      Shed(infectious);
      assert zoneMap == Aired(old(zoneMap), infectious) by {
        assert zoneMap.Keys == Aired(old(zoneMap), infectious).Keys;
        forall z | z in zoneMap
          ensures zoneMap[z] == Aired(old(zoneMap), infectious)[z]
        {
        }
      }
      ghost var s0 := nodeStates;
      newlyInfected, newlyRecovered, newlyDead := ProcessEvents(timestamp);
      HeadNotDue(eventQueue, timestamp as real);
      ghost var s1 := nodeStates;
      infections, exposed := Spread(timestamp, group);
      EventsThenExposes(s0, s1, nodeStates, newlyInfected, newlyRecovered, newlyDead, exposed);
    }

    /** The contact loop and then the airborne loop of `step`. */
    method Spread(timestamp: int, group: seq<Sir.Contact>) returns (infections: seq<Infection>, exposed: seq<NodeId>)
      requires Valid() && forall c :: c in group ==> c.u in nodeStates && c.v in nodeStates
      modifies this
      ensures Valid()
      ensures Now() == SpreadOf(old(Now()), timestamp, group)
      ensures zoneMap == old(zoneMap)
      ensures Exposes(old(nodeStates), nodeStates, exposed)
      ensures |infections| == |exposed|
      ensures forall k :: 0 <= k < |infections| ==>
        infections[k].id == exposed[k] && Explained(nodeStates, zoneMap, communities, group, infections[k])
      ensures NoneDue(old(eventQueue), timestamp as real) ==> NoneDue(eventQueue, timestamp as real)
    {
      ghost var s1 := nodeStates;
      var contactInfections, contactExposed := ContactPhase(timestamp, group);
      ghost var s2 := nodeStates;
      var airInfections, airExposed := AirbornePhase(timestamp);
      PhasesExplained(s1, s2, nodeStates, zoneMap, communities, group,
                      contactInfections, contactExposed, airInfections, airExposed);
      infections := contactInfections + airInfections;
      exposed := contactExposed + airExposed;
    }

    /** `step(timestamp, contact_group)`: the state changes of `Update`, reported with the
        zones loaded above 0.1, the load statistics and the number of nodes in each state. */
    method Step(timestamp: int, group: seq<Sir.Contact>) returns (report: Report)
      requires Valid() && forall c :: c in group ==> c.u in nodeStates && c.v in nodeStates
      modifies this
      ensures Valid()
      ensures zoneMap.Keys == old(zoneMap).Keys
      ensures forall z :: z in zoneMap ==>
        zoneMap[z] == old(zoneMap)[z] * (1.0 - ventilationRate) +
                      ShedLoad(communities, InState(order, old(nodeStates), Infectious), z, sheddingRate)
      ensures var r := report.record;
        StepApplied(old(nodeStates), nodeStates, r.newExposed, r.newInfected, r.newRecovered, r.newDead)
      ensures NoneDue(eventQueue, timestamp as real)
      ensures report.record.time == timestamp
      ensures report.record.infected == [] && report.record.exposed == [] && report.record.recovered == []
      ensures |report.newInfections| == |report.record.newExposed|
      ensures forall k :: 0 <= k < |report.newInfections| ==>
        report.newInfections[k].id == report.record.newExposed[k] &&
        Explained(nodeStates, zoneMap, communities, group, report.newInfections[k])
      ensures report.record.totalExposed == |WithState(nodeStates, Exposed)|
      ensures report.record.totalInfected == |WithState(nodeStates, Infectious)|
      ensures report.record.totalRecovered == |WithState(nodeStates, Recovered)|
      ensures report.record.totalDead == |WithState(nodeStates, Dead)|
      ensures report.zoneUpdates == Updates(zoneMap) && report.stats == StatsOf(zones, zoneMap)
      ensures Totals(report.record) <= |order|
      ensures mortalityRate <= 0.0 ==> report.record.newDead == []
      ensures Now() == StepOf(old(Now()), timestamp, group)
    {
      var infections, exposed, newlyInfected, newlyRecovered, newlyDead := Update(timestamp, group);
      StateCount(order, nodeStates, Exposed);
      StateCount(order, nodeStates, Infectious);
      StateCount(order, nodeStates, Recovered);
      StateCount(order, nodeStates, Dead);
      StatesPartition(order, nodeStates);
      var record := StepRecord(timestamp, [], [], [], exposed, newlyInfected, newlyRecovered, newlyDead,
                               |InState(order, nodeStates, Exposed)|, |InState(order, nodeStates, Infectious)|,
                               |InState(order, nodeStates, Recovered)|, |InState(order, nodeStates, Dead)|);
      report := Report(record, infections, Updates(zoneMap), StatsOf(zones, zoneMap));
    }
  }

  /** A step as the generator takes it: its report, timed as asked, lists the step's state
      changes, the node counts after it and the zone loads; there is no death while the
      mortality rate is not positive. */
  method TakeStep(sim: MeaslesSimulation, timestamp: int, group: seq<Sir.Contact>) returns (report: Report)
    requires sim.Valid() && forall c :: c in group ==> c.u in sim.nodeStates && c.v in sim.nodeStates
    requires sim.mortalityRate <= 0.0 ==> WithState(sim.nodeStates, Dead) == {}
    modifies sim
    ensures sim.Valid() && sim.nodeStates.Keys == old(sim.nodeStates).Keys
    ensures report.record.time == timestamp && Totals(report.record) <= |sim.order|
    ensures StepReported(old(sim.nodeStates), sim.nodeStates, report)
    ensures NewsReported(sim, sim.Now(), report, group)
    ensures sim.mortalityRate <= 0.0 ==>
      WithState(sim.nodeStates, Dead) == {} && report.record.newDead == [] && report.record.totalDead == 0
    ensures sim.Now() == sim.StepOf(old(sim.Now()), timestamp, group)
  {
    ghost var before := sim.nodeStates;
    report := sim.Step(timestamp, group);
    var r := report.record;
    StepAdvances(before, sim.nodeStates, r.newExposed, r.newInfected, r.newRecovered, r.newDead);
  }

  /** What holds during the drain loop, once its steps have reached time `now`. */
  ghost predicate Draining(cs: seq<Sir.Contact>, rs: seq<Report>, first: Report, nodes: nat,
                           mortalityRate: real, now: int)
    requires |cs| > 0
  {
    Yielded(cs, rs, nodes, mortalityRate) && rs[0] == first &&
    forall k :: 0 < k < |rs| ==> rs[k].record.time <= now
  }

  /** One more drain step keeps `Draining`. */
  lemma DrainAdvance(cs: seq<Sir.Contact>, rs: seq<Report>, first: Report, nodes: nat, mortalityRate: real,
                     steps: nat, r: Report, rs': seq<Report>)
    requires |cs| > 0 && steps < MaxDrainSteps
    requires Draining(cs, rs, first, nodes, mortalityRate, cs[|cs| - 1].timestamp + DrainStep * steps)
    requires r.record.time == cs[|cs| - 1].timestamp + DrainStep * (steps + 1)
    requires Totals(r.record) <= nodes
    requires mortalityRate <= 0.0 ==> r.record.newDead == [] && r.record.totalDead == 0
    requires rs' == if DrainNewsworthy(r) then rs + [r] else rs
    ensures Draining(cs, rs', first, nodes, mortalityRate, cs[|cs| - 1].timestamp + DrainStep * (steps + 1))
  {
    NextDrainTime(cs[|cs| - 1].timestamp, steps);
    if DrainNewsworthy(r) {
      YieldedAppend(cs, rs, nodes, mortalityRate, r);
    }
  }

  /** A time after every report of the groups before position `i`: the timestamp of group
      `i`, or just after the last timestamp once every group is done. */
  function NextTime(cs: seq<Sir.Contact>, i: nat): int
    requires 0 < |cs|
  {
    if i < |cs| then cs[i].timestamp else cs[|cs| - 1].timestamp + 1
  }

  /** What holds during the loop over groups, before the group at position `i`. */
  ghost predicate Grouped(cs: seq<Sir.Contact>, rs: seq<Report>, first: Report, nodes: nat,
                          mortalityRate: real, i: nat)
    requires 0 < |cs|
  {
    Yielded(cs, rs, nodes, mortalityRate) && rs[0] == first &&
    forall k :: 0 < k < |rs| ==> rs[k].record.time < NextTime(cs, i)
  }

  /** One more group keeps `Grouped`. */
  lemma GroupAdvance(cs: seq<Sir.Contact>, rs: seq<Report>, first: Report, nodes: nat, mortalityRate: real,
                     i: nat, j: nat, r: Report, rs': seq<Report>)
    requires 0 < |cs| && Sir.TimeOrdered(cs) && i < |cs| && j == Sir.GroupEnd(cs, i)
    requires Grouped(cs, rs, first, nodes, mortalityRate, i)
    requires r.record.time == cs[i].timestamp && Totals(r.record) <= nodes
    requires mortalityRate <= 0.0 ==> r.record.newDead == [] && r.record.totalDead == 0
    requires rs' == if Newsworthy(r) then rs + [r] else rs
    ensures Grouped(cs, rs', first, nodes, mortalityRate, j)
  {
    assert cs[i].timestamp < NextTime(cs, j);
    assert r.record.time == cs[i].timestamp && cs[i] in cs;
    if Newsworthy(r) {
      YieldedAppend(cs, rs, nodes, mortalityRate, r);
    }
  }

  /** The times of the reports `rs`. */
  ghost function StepTimes(rs: seq<Report>): set<int>
  {
    set k | 0 <= k < |rs| :: rs[k].record.time
  }

  /** The timestamps of the rows before position `i`. */
  ghost function RowTimes(cs: seq<Sir.Contact>, i: nat): set<int>
    requires i <= |cs|
  {
    set m | 0 <= m < i :: cs[m].timestamp
  }

  /** The steps `taken` before the group at position `i`: one per timestamp of those rows,
      in increasing time. */
  ghost predicate Covered(cs: seq<Sir.Contact>, taken: seq<Report>, i: nat)
    requires 0 < |cs| && i <= |cs|
  {
    StepTimes(taken) == RowTimes(cs, i) &&
    (forall a, b :: 0 <= a < b < |taken| ==> taken[a].record.time < taken[b].record.time) &&
    (forall k :: 0 <= k < |taken| ==> taken[k].record.time < NextTime(cs, i))
  }

  /** A step for the group at `i` covers its rows. */
  lemma CoveredAdvance(cs: seq<Sir.Contact>, taken: seq<Report>, i: nat, j: nat, r: Report)
    requires 0 < |cs| && Sir.TimeOrdered(cs) && i < |cs| && j == Sir.GroupEnd(cs, i)
    requires Covered(cs, taken, i) && r.record.time == cs[i].timestamp
    requires i > 0 ==> cs[i - 1].timestamp < cs[i].timestamp
    ensures Covered(cs, taken + [r], j)
  {
    var taken' := taken + [r];
    assert StepTimes(taken') == StepTimes(taken) + {r.record.time} by {
      assert forall k :: 0 <= k < |taken| ==> taken'[k] == taken[k];
      assert taken'[|taken|] == r;
    }
    assert RowTimes(cs, j) == RowTimes(cs, i) + {cs[i].timestamp} by {
      assert forall m :: i <= m < j ==> cs[m].timestamp == cs[i].timestamp;
    }
    assert cs[i].timestamp < NextTime(cs, j);
  }

  /** The reports of a run: the initial one, the newsworthy ones of the steps `groupSteps`,
      one per timestamp of the table in increasing time, then the newsworthy ones of the drain
      steps `drainSteps`, each 20 seconds after the one before. */
  ghost predicate Generated(cs: seq<Sir.Contact>, initial: Report, groupSteps: seq<Report>, drainSteps: seq<Report>,
                            reports: seq<Report>)
    requires 0 < |cs|
  {
    Covered(cs, groupSteps, |cs|) &&
    DrainKept([initial] + Keep(Newsworthy, groupSteps), reports, drainSteps, cs[|cs| - 1].timestamp)
  }

  /** `snaps` are the states around each of `steps`, the first being the seeded one: the
      nodes of `sim.order`, those of `sample` infectious and the others susceptible, every
      community's load 0, the recoveries of `sample` queued from `start`, no uniform sample
      drawn and one normal sample per patient zero. */
  ghost predicate SeededRun(sim: MeaslesSimulation, snaps: seq<Snap>, steps: seq<Report>, groups: seq<seq<Sir.Contact>>,
                            sample: seq<NodeId>, start: int)
  {
    Stepped(sim, snaps, steps, groups) &&
    snaps[0] == sim.SeedsOf(sim.Fresh(), sample, start) &&
    snaps[0].states.Keys == Elems(sim.order) &&
    forall n :: n in snaps[0].states ==> snaps[0].states[n] == if n in sample then Infectious else Susceptible
  }

  /** No news is lost: a group step that exposes someone, and any step that leaves some
      community's load above 0.1, is in the stream. */
  lemma NewsYielded(sim: MeaslesSimulation, cs: seq<Sir.Contact>, initial: Report, groupSteps: seq<Report>,
                    drainSteps: seq<Report>, reports: seq<Report>, snaps: seq<Snap>,
                    groups: seq<seq<Sir.Contact>>, k: nat)
    requires 0 < |cs| && Generated(cs, initial, groupSteps, drainSteps, reports)
    requires Stepped(sim, snaps, groupSteps + drainSteps, groups + NoRows(|drainSteps|))
    requires k < |groupSteps| + |drainSteps|
    requires (k < |groupSteps| && groupSteps[k].record.newExposed != []) || Updates(snaps[k + 1].loads) != map[]
    ensures (groupSteps + drainSteps)[k] in reports
  {
    var steps := groupSteps + drainSteps;
    SteppedAt(sim, snaps, steps, groups + NoRows(|drainSteps|), k);
    assert steps[k].zoneUpdates == Updates(snaps[k + 1].loads);
    if k < |groupSteps| {
      assert steps[k] == groupSteps[k];
      KeepKeepsPassing(Newsworthy, groupSteps, k);
    } else {
      assert steps[k] == drainSteps[k - |groupSteps|];
      KeepKeepsPassing(DrainNewsworthy, drainSteps, k - |groupSteps|);
    }
  }

  /** The generator's patient zeros: each node of `sample` becomes infectious, with its
      recovery queued a sampled period after `start`. */
  method SeedAll(sim: MeaslesSimulation, sample: seq<NodeId>, start: int)
    requires sim.Valid() && Distinct(sample)
    requires forall n :: n in sim.nodeStates ==> sim.nodeStates[n] == Susceptible
    requires Elems(sample) <= sim.nodeStates.Keys
    modifies sim
    ensures sim.Valid() && sim.nodeStates.Keys == old(sim.nodeStates).Keys
    ensures forall n :: n in sim.nodeStates ==>
      sim.nodeStates[n] == if n in sample then Infectious else Susceptible
    ensures sim.Now() == sim.SeedsOf(old(sim.Now()), sample, start)
  {
    var i := 0;
    assert sample[..0] == [];
    while i < |sample|
      invariant SeedLoop(sim, sample, start, i, old(sim.Now()), old(sim.nodeStates).Keys)
      decreases |sample| - i
    {
      i := SeedOnce(sim, sample, start, i, old(sim.Now()), old(sim.nodeStates).Keys);
    }
    assert sample[..i] == sample;
  }

  /** What holds at the head of the seeding loop once the nodes of `sample` before `i` are
      seeded, starting from `origin`, whose nodes were `keys`. */
  ghost predicate SeedLoop(sim: MeaslesSimulation, sample: seq<NodeId>, start: int, i: nat, origin: Snap,
                           keys: set<NodeId>)
    reads sim
  {
    i <= |sample| && Distinct(sample) && Elems(sample) <= keys &&
    sim.Valid() && sim.nodeStates.Keys == keys &&
    (forall n :: n in sim.nodeStates ==> sim.nodeStates[n] == if n in sample[..i] then Infectious else Susceptible) &&
    sim.Now() == sim.SeedsOf(origin, sample[..i], start)
  }

  /** One pass of the seeding loop: `sample[i]` becomes infectious. */
  method SeedOnce(sim: MeaslesSimulation, sample: seq<NodeId>, start: int, i: nat, ghost origin: Snap,
                  ghost keys: set<NodeId>)
    returns (i': nat)
    requires i < |sample| && SeedLoop(sim, sample, start, i, origin, keys)
    modifies sim
    ensures i' == i + 1 && SeedLoop(sim, sample, start, i', origin, keys)
  {
    assert sample[i] !in sample[..i];
    assert sample[..i + 1] == sample[..i] + [sample[i]];
    sim.SeedsOfSnoc(origin, sample, start, i);
    sim.SeedInfectious(sample[i], start);
    i' := i + 1;
  }

  /** The loop over timestamp groups: one step per group, in increasing time, its report
      kept when it passes the grouped test. The ghost `taken` holds every step's report and
      `snaps` the simulator's states around the steps. */
  method RunGroups(sim: MeaslesSimulation, cs: seq<Sir.Contact>, initial: Report)
    returns (reports: seq<Report>, ghost taken: seq<Report>, ghost snaps: seq<Snap>, ghost groups: seq<seq<Sir.Contact>>)
    requires |cs| > 0 && Sir.TimeOrdered(cs)
    requires sim.Valid() && sim.nodeStates.Keys == Sir.Nodes(cs)
    requires sim.mortalityRate <= 0.0 ==> WithState(sim.nodeStates, Dead) == {}
    requires sim.mortalityRate <= 0.0 ==> initial.record.newDead == [] && initial.record.totalDead == 0
    modifies sim
    ensures sim.Valid()
    ensures Yielded(cs, reports, |sim.order|, sim.mortalityRate) && reports[0] == initial
    ensures forall k :: 0 < k < |reports| ==> reports[k].record.time <= cs[|cs| - 1].timestamp
    ensures sim.mortalityRate <= 0.0 ==> WithState(sim.nodeStates, Dead) == {}
    ensures reports == [initial] + Keep(Newsworthy, taken) && Covered(cs, taken, |cs|)
    ensures Grouping(cs, groups, taken, |cs|)
    ensures StepsFrom(sim, snaps, taken, groups, old(sim.Now()), sim.Now())
  {
    reports, taken, snaps, groups := [initial], [], [sim.Now()], [];
    var i := 0;
    GroupsStart(sim, cs, initial);
    while i < |cs|
      invariant i <= |cs| && GroupLoop(sim, cs, initial, reports, taken, snaps, groups, i, old(sim.Now()))
      decreases |cs| - i
    {
      reports, taken, snaps, groups, i := GroupOnce(sim, cs, initial, reports, taken, snaps, groups, i, old(sim.Now()));
    }
  }

  /** What holds at the head of the loop over groups once the rows before `i` are done: the
      reports kept so far, the steps taken and the states around them. */
  ghost predicate GroupLoop(sim: MeaslesSimulation, cs: seq<Sir.Contact>, initial: Report, reports: seq<Report>,
                            taken: seq<Report>, snaps: seq<Snap>, groups: seq<seq<Sir.Contact>>, i: nat, start: Snap)
    requires 0 < |cs| && i <= |cs|
    reads sim
  {
    Sir.TimeOrdered(cs) && sim.Valid() && sim.nodeStates.Keys == Sir.Nodes(cs) &&
    (sim.mortalityRate <= 0.0 ==> WithState(sim.nodeStates, Dead) == {}) &&
    Grouped(cs, reports, initial, |sim.order|, sim.mortalityRate, i) &&
    (0 < i < |cs| ==> cs[i - 1].timestamp < cs[i].timestamp) &&
    reports == [initial] + Keep(Newsworthy, taken) &&
    Covered(cs, taken, i) && Grouping(cs, groups, taken, i) &&
    StepsFrom(sim, snaps, taken, groups, start, sim.Now())
  }

  /** The loop over groups' invariant holds before its first pass. */
  lemma GroupsStart(sim: MeaslesSimulation, cs: seq<Sir.Contact>, initial: Report)
    requires |cs| > 0 && Sir.TimeOrdered(cs)
    requires sim.Valid() && sim.nodeStates.Keys == Sir.Nodes(cs)
    requires sim.mortalityRate <= 0.0 ==> WithState(sim.nodeStates, Dead) == {}
    requires sim.mortalityRate <= 0.0 ==> initial.record.newDead == [] && initial.record.totalDead == 0
    ensures GroupLoop(sim, cs, initial, [initial], [], [sim.Now()], [], 0, sim.Now())
  {
    assert Keep(Newsworthy, []) == [];
  }

  /** One pass of the loop over groups: the step over the rows from `i` to the end of their
      timestamp group. */
  method GroupOnce(sim: MeaslesSimulation, cs: seq<Sir.Contact>, initial: Report, reports: seq<Report>,
                   ghost taken: seq<Report>, ghost snaps: seq<Snap>, ghost groups: seq<seq<Sir.Contact>>, i: nat,
                   ghost start: Snap)
    returns (reports': seq<Report>, ghost taken': seq<Report>, ghost snaps': seq<Snap>,
             ghost groups': seq<seq<Sir.Contact>>, i': nat)
    requires 0 < |cs| && i < |cs| && GroupLoop(sim, cs, initial, reports, taken, snaps, groups, i, start)
    modifies sim
    ensures i < i' <= |cs| && GroupLoop(sim, cs, initial, reports', taken', snaps', groups', i', start)
  {
    var j := Sir.GroupEnd(cs, i);
    Sir.GroupNodes(cs, i, j);
    ghost var before := sim.Now();
    var report := TakeStep(sim, cs[i].timestamp, cs[i..j]);
    reports' := if Newsworthy(report) then reports + [report] else reports;
    GroupAdvance(cs, reports, initial, |sim.order|, sim.mortalityRate, i, j, report, reports');
    KeepAppend(Newsworthy, [initial], taken, report, reports');
    CoveredAdvance(cs, taken, i, j, report);
    GroupingAdvance(cs, groups, taken, i, j, report);
    StepsFromAppend(sim, snaps, taken, groups, start, before, report, cs[i..j], sim.Now());
    taken', snaps', groups', i' := taken + [report], snaps + [sim.Now()], groups + [cs[i..j]], j;
  }

  /** The drain loop: while events are queued, at most 1000 steps, each 20 seconds after the
      previous one, starting from the last timestamp; a report is kept when it passes the
      drain test. The ghost `drained` holds every drain step's report and `snaps` the
      simulator's states around them. */
  method Drain(sim: MeaslesSimulation, cs: seq<Sir.Contact>, reports: seq<Report>)
    returns (reports': seq<Report>, steps: nat, ghost drained: seq<Report>, ghost snaps: seq<Snap>)
    requires |cs| > 0 && sim.Valid()
    requires Yielded(cs, reports, |sim.order|, sim.mortalityRate)
    requires forall k :: 0 < k < |reports| ==> reports[k].record.time <= cs[|cs| - 1].timestamp
    requires sim.mortalityRate <= 0.0 ==> WithState(sim.nodeStates, Dead) == {}
    modifies sim
    ensures Yielded(cs, reports', |sim.order|, sim.mortalityRate) && reports'[0] == reports[0]
    ensures steps <= MaxDrainSteps && (steps < MaxDrainSteps ==> |sim.eventQueue| == 0)
    ensures |drained| == steps && DrainKept(reports, reports', drained, cs[|cs| - 1].timestamp)
    ensures StepsFrom(sim, snaps, drained, NoRows(steps), old(sim.Now()), sim.Now())
  {
    reports', drained, snaps := reports, [], [sim.Now()];
    var now := cs[|cs| - 1].timestamp;
    steps := 0;
    DrainStarts(sim, cs, reports);
    while steps < MaxDrainSteps && |sim.eventQueue| > 0
      invariant now == cs[|cs| - 1].timestamp + DrainStep * steps
      invariant DrainLoop(sim, cs, reports, reports', steps, drained, snaps, old(sim.Now()))
    {
      reports', steps, now, drained, snaps := DrainOnce(sim, cs, reports, reports', steps, now, drained, snaps, old(sim.Now()));
    }
  }

  /** What holds at the head of the drain loop once it has taken `steps` steps from `start`:
      the reports kept so far, the steps taken and the states around them. */
  ghost predicate DrainLoop(sim: MeaslesSimulation, cs: seq<Sir.Contact>, reports: seq<Report>, reports': seq<Report>,
                            steps: nat, drained: seq<Report>, snaps: seq<Snap>, start: Snap)
    requires |cs| > 0 && |reports| > 0
    reads sim
  {
    var last := cs[|cs| - 1].timestamp;
    steps <= MaxDrainSteps && sim.Valid() &&
    (sim.mortalityRate <= 0.0 ==> WithState(sim.nodeStates, Dead) == {}) &&
    Draining(cs, reports', reports[0], |sim.order|, sim.mortalityRate, last + DrainStep * steps) &&
    |drained| == steps && DrainKept(reports, reports', drained, last) &&
    StepsFrom(sim, snaps, drained, NoRows(steps), start, sim.Now())
  }

  /** The drain loop's invariant holds before its first pass. */
  lemma DrainStarts(sim: MeaslesSimulation, cs: seq<Sir.Contact>, reports: seq<Report>)
    requires |cs| > 0 && sim.Valid()
    requires Yielded(cs, reports, |sim.order|, sim.mortalityRate)
    requires forall k :: 0 < k < |reports| ==> reports[k].record.time <= cs[|cs| - 1].timestamp
    requires sim.mortalityRate <= 0.0 ==> WithState(sim.nodeStates, Dead) == {}
    ensures DrainLoop(sim, cs, reports, reports, 0, [], [sim.Now()], sim.Now())
  {
    assert Keep(DrainNewsworthy, []) == [];
  }

  /** One pass of the drain loop: the step `steps + 1`, 20 seconds after `now`. */
  method DrainOnce(sim: MeaslesSimulation, cs: seq<Sir.Contact>, reports: seq<Report>, reports': seq<Report>,
                   steps: nat, now: int, ghost drained: seq<Report>, ghost snaps: seq<Snap>, ghost start: Snap)
    returns (kept: seq<Report>, steps': nat, now': int, ghost drained': seq<Report>, ghost snaps': seq<Snap>)
    requires |cs| > 0 && |reports| > 0 && steps < MaxDrainSteps
    requires now == cs[|cs| - 1].timestamp + DrainStep * steps
    requires DrainLoop(sim, cs, reports, reports', steps, drained, snaps, start)
    modifies sim
    ensures steps' == steps + 1 && now' == cs[|cs| - 1].timestamp + DrainStep * steps'
    ensures DrainLoop(sim, cs, reports, kept, steps', drained', snaps', start)
  {
    ghost var before := sim.Now();
    now' := now + DrainStep;
    steps' := steps + 1;
    var report := TakeStep(sim, now', []);
    kept := if DrainNewsworthy(report) then reports' + [report] else reports';
    DrainAdvance(cs, reports', reports[0], |sim.order|, sim.mortalityRate, steps, report, kept);
    DrainKeptAppend(reports, reports', drained, cs[|cs| - 1].timestamp, report, kept);
    StepsFromAppend(sim, snaps, drained, NoRows(steps), start, before, report, [], sim.Now());
    NoRowsSnoc(steps);
    drained', snaps' := drained + [report], snaps + [sim.Now()];
  }

  /** `run_measles_simulation_generator`, the yielded reports collected in order. `order` is
      the order in which the table lists its nodes (first occurrence, `u` column before `v`
      column), `zones` the order of the community dictionary, `sample` what `random.sample`
      returns and `uniform`, `normal` and `exp` the random sources and `math.exp`. The
      patient zeros start infectious with a recovery queued; the first report describes
      them; one step per timestamp group follows, then up to 1000 steps of 20 seconds
      while events are queued. */
  method RunMeaslesSimulation(contacts: Option<seq<Sir.Contact>>, order: seq<NodeId>,
                              communities: map<NodeId, ZoneId>, zones: seq<ZoneId>, sample: seq<NodeId>,
                              transmissionProb: real, recoveryDays: real, incubationDays: real,
                              ventilationRate: real, sheddingRate: real, betaAir: real, mortalityRate: real,
                              uniform: nat -> real, normal: (real, real, nat) -> real, exp: real -> real)
    returns (run: Run, ghost model: MeaslesSimulation?, ghost groupSteps: seq<Report>, ghost drainSteps: seq<Report>,
             ghost snaps: seq<Snap>, ghost groups: seq<seq<Sir.Contact>>)
    requires contacts.Some? ==>
      var cs := contacts.value;
      |cs| > 0 && Sir.TimeOrdered(cs) && Distinct(order) && Elems(order) == Sir.Nodes(cs) &&
      Distinct(sample) && Elems(sample) <= Elems(order) &&
      Distinct(zones) && Elems(zones) == communities.Values &&
      (forall n :: n in order ==> ZoneOf(communities, n) in communities.Values) &&
      (forall k :: 0.0 <= uniform(k) < 1.0)
    ensures run.NotLoaded? <==> contacts.None?
    ensures run.Yields? ==>
      var cs := contacts.value;
      Yielded(cs, run.reports, |order|, mortalityRate) &&
      run.reports[0] == InitialReport(cs[0].timestamp, sample) &&
      Generated(cs, InitialReport(cs[0].timestamp, sample), groupSteps, drainSteps, run.reports) &&
      model != null && model.order == order && model.communities == communities && model.zones == zones &&
      model.transmissionProb == transmissionProb && model.recoveryDays == recoveryDays &&
      model.incubationDays == incubationDays && model.ventilationRate == ventilationRate &&
      model.sheddingRate == sheddingRate && model.betaAir == betaAir && model.mortalityRate == mortalityRate &&
      model.uniform == uniform && model.normal == normal && model.exp == exp &&
      Grouping(cs, groups, groupSteps, |cs|) &&
      SeededRun(model, snaps, groupSteps + drainSteps, groups + NoRows(|drainSteps|), sample, cs[0].timestamp) &&
      |drainSteps| <= MaxDrainSteps && (|drainSteps| < MaxDrainSteps ==> |snaps[|snaps| - 1].queue| == 0)
  {
    if contacts.None? {
      return NotLoaded, null, [], [], [], [];
    }
    var cs := contacts.value;
    var sim := new MeaslesSimulation(order, communities, zones, transmissionProb, recoveryDays,
                                     incubationDays, ventilationRate, sheddingRate, betaAir,
                                     mortalityRate, uniform, normal, exp);
    var reports;
    reports, groupSteps, drainSteps, snaps, groups := Generate(sim, cs, sample);
    return Yields(reports), sim, groupSteps, drainSteps, snaps, groups;
  }

  /** The body of the generator on a freshly built simulator: seed the sample, step through
      the timestamp groups, then drain the queue. */
  method Generate(sim: MeaslesSimulation, cs: seq<Sir.Contact>, sample: seq<NodeId>)
    returns (reports: seq<Report>, ghost groupSteps: seq<Report>, ghost drainSteps: seq<Report>,
             ghost snaps: seq<Snap>, ghost groups: seq<seq<Sir.Contact>>)
    requires |cs| > 0 && Sir.TimeOrdered(cs)
    requires sim.Valid() && sim.Now() == sim.Fresh() && sim.nodeStates.Keys == Elems(sim.order)
    requires forall n :: n in sim.nodeStates ==> sim.nodeStates[n] == Susceptible
    requires Elems(sim.order) == Sir.Nodes(cs) && Distinct(sample) && Elems(sample) <= Elems(sim.order)
    modifies sim
    ensures Yielded(cs, reports, |sim.order|, sim.mortalityRate)
    ensures reports[0] == InitialReport(cs[0].timestamp, sample)
    ensures Generated(cs, InitialReport(cs[0].timestamp, sample), groupSteps, drainSteps, reports)
    ensures Grouping(cs, groups, groupSteps, |cs|)
    ensures SeededRun(sim, snaps, groupSteps + drainSteps, groups + NoRows(|drainSteps|), sample, cs[0].timestamp)
    ensures |drainSteps| <= MaxDrainSteps && (|drainSteps| < MaxDrainSteps ==> |snaps[|snaps| - 1].queue| == 0)
  {
    var start := cs[0].timestamp;
    SeedAll(sim, sample, start);
    ghost var groupSnaps, drainSnaps;
    reports, groupSteps, groupSnaps, groups := RunGroups(sim, cs, InitialReport(start, sample));
    var steps;
    reports, steps, drainSteps, drainSnaps := Drain(sim, cs, reports);
    SteppedConcat(sim, groupSnaps, groupSteps, groups, drainSnaps, drainSteps, NoRows(steps));
    snaps := groupSnaps + drainSnaps[1..];
  }
}
