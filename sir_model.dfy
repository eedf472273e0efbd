/** The event-driven SIR simulation over a temporal contact table: statuses
    susceptible/infected/recovered, a recovery queue ordered by time, transmissions along
    contacts decided by coin flips, and the history of step records it returns. */
module Sir {
  import opened Common
  import App

  /** One row of the contact table: at `timestamp`, `u` met `v`. */
  datatype Contact = Contact(timestamp: int, u: NodeId, v: NodeId)

  /** The status codes 0, 1 and 2. */
  datatype Status = Susceptible | Infected | Recovered

  /** A recovery-queue entry `(time_to_recover, node_id)`. */
  datatype Entry = Entry(time: int, node: NodeId)

  /** `{"error": "Data not loaded"}`, or the history. */
  datatype Outcome = NotLoaded | History(records: seq<StepRecord>)

  const SecondsPerDay := 24 * 60 * 60

  /** The grouping by timestamp visits groups in increasing time; the table is taken as
      already ordered by time. */
  predicate TimeOrdered(cs: seq<Contact>)
  {
    forall i, j :: 0 <= i < j < |cs| ==> cs[i].timestamp <= cs[j].timestamp
  }

  /** Every node that occurs in a contact. */
  function Nodes(cs: seq<Contact>): (r: set<NodeId>)
    ensures forall c :: c in cs ==> c.u in r && c.v in r
  {
    (set c | c in cs :: c.u) + (set c | c in cs :: c.v)
  }

  /** What `random.sample(nodes, count)` can return. */
  predicate IsSample(sample: seq<NodeId>, count: nat, nodes: set<NodeId>)
  {
    |sample| == count && Distinct(sample) && Elems(sample) <= nodes
  }

  /** `status.get(n, 0)`. */
  function StatusOf(status: map<NodeId, Status>, n: NodeId): Status
  {
    if n in status then status[n] else Susceptible
  }

  /** The nodes with status `st`. */
  function WithStatus(status: map<NodeId, Status>, st: Status): (r: set<NodeId>)
    ensures forall n :: n in r <==> n in status && status[n] == st
  {
    set n | n in status && status[n] == st
  }

  /** Heap order on entries: by time, then by node. */
  predicate Precedes(a: Entry, b: Entry)
  {
    a.time < b.time || (a.time == b.time && a.node < b.node)
  }

  predicate Ordered(q: seq<Entry>)
  {
    forall i, j :: 0 <= i < j < |q| ==> Precedes(q[i], q[j])
  }

  predicate NodesDistinct(q: seq<Entry>)
  {
    forall i, j :: 0 <= i < j < |q| ==> q[i].node != q[j].node
  }

  function NodeSet(q: seq<Entry>): (r: set<NodeId>)
    ensures forall n :: n in r <==> exists i :: 0 <= i < |q| && q[i].node == n
  {
    set x | x in q :: x.node
  }

  /** `heapq.heappush`: the queue is kept as the sequence the heap pops in order. */
  method Push(q: seq<Entry>, e: Entry) returns (r: seq<Entry>)
    requires Ordered(q) && NodesDistinct(q) && e.node !in NodeSet(q)
    ensures Ordered(r) && NodesDistinct(r)
    ensures |r| == |q| + 1
    ensures forall x :: x in r <==> x in q || x == e
    ensures NodeSet(r) == NodeSet(q) + {e.node}
  {
    var k := 0;
    while k < |q| && Precedes(q[k], e)
      invariant 0 <= k <= |q|
      invariant forall m :: 0 <= m < k ==> Precedes(q[m], e)
    {
      k := k + 1;
    }
    forall m | k <= m < |q|
      ensures Precedes(e, q[m])
    {
      assert q[k].node != e.node;
      assert Precedes(e, q[k]);
    }
    r := q[..k] + [e] + q[k..];
    assert forall m :: 0 <= m < k ==> r[m] == q[m];
    assert r[k] == e;
    assert forall m :: k < m < |r| ==> r[m] == q[m - 1];
  }

  /** The variables of `run_simulation` between steps. */
  datatype State = State(
    status: map<NodeId, Status>,
    queue: seq<Entry>,
    infectedIds: set<NodeId>,
    recoveredIds: set<NodeId>,
    draws: nat)

  /** The two id sets mirror the status map, and the queue holds exactly one entry per
      infected node, in heap order. */
  predicate Consistent(s: State)
  {
    s.infectedIds == WithStatus(s.status, Infected) &&
    s.recoveredIds == WithStatus(s.status, Recovered) &&
    Ordered(s.queue) && NodesDistinct(s.queue) && NodeSet(s.queue) == s.infectedIds
  }

  /** Initialisation: everybody seen in a contact is susceptible, then the patient zeros are
      infected and their recoveries queued at `start + duration`. */
  method Initialise(nodes: set<NodeId>, sample: seq<NodeId>, start: int, duration: int)
    returns (s: State)
    requires Distinct(sample) && Elems(sample) <= nodes
    ensures Consistent(s) && s.draws == 0
    ensures s.status.Keys == nodes
    ensures s.infectedIds == Elems(sample) && s.recoveredIds == {}
    ensures forall n :: n in nodes && n !in Elems(sample) ==> s.status[n] == Susceptible
    ensures forall e :: e in s.queue ==> e.time == start + duration
  {
    var status := map n | n in nodes :: Susceptible;
    s := State(status, [], {}, {}, 0);
    var i := 0;
    while i < |sample|
      invariant 0 <= i <= |sample|
      invariant Consistent(s) && s.draws == 0
      invariant s.status.Keys == nodes
      invariant s.infectedIds == Elems(sample[..i]) && s.recoveredIds == {}
      invariant forall n :: n in nodes && n !in Elems(sample[..i]) ==> s.status[n] == Susceptible
      invariant forall e :: e in s.queue ==> e.time == start + duration
    {
      var n := sample[i];
      assert n !in Elems(sample[..i]);
      var q := Push(s.queue, Entry(start + duration, n));
      s := State(s.status[n := Infected], q, s.infectedIds + {n}, s.recoveredIds, 0);
      assert sample[..i + 1] == sample[..i] + [n];
      i := i + 1;
    }
    assert sample[..i] == sample;
  }

  /** Popping the head entry, whose node is infected, and recovering that node keeps the
      state consistent. */
  lemma RecoverHead(t: State, u: State)
    requires Consistent(t) && |t.queue| > 0
    requires var n := t.queue[0].node;
      u == State(t.status[n := Recovered], t.queue[1..], t.infectedIds - {n}, t.recoveredIds + {n}, t.draws)
    ensures Consistent(u)
  {
    var n := t.queue[0].node;
    assert n in NodeSet(t.queue);
    forall m | m in NodeSet(u.queue)
      ensures m in t.infectedIds - {n}
    {
      var k :| 0 <= k < |u.queue| && u.queue[k].node == m;
      assert u.queue[k] == t.queue[k + 1];
    }
    forall m | m in t.infectedIds - {n}
      ensures m in NodeSet(u.queue)
    {
      var k :| 0 <= k < |t.queue| && t.queue[k].node == m;
      assert k > 0;
      assert u.queue[k - 1] == t.queue[k];
    }
  }

  /** What step A does to `s`: exactly the entries due at `timestamp` leave the front of the
      heap, in heap order, and their nodes move from infected to recovered. */
  ghost predicate RecoveryDone(s: State, timestamp: int, t: State, newlyRecovered: seq<NodeId>)
  {
    Consistent(t) &&
    t.status.Keys == s.status.Keys && t.draws == s.draws &&
    |newlyRecovered| <= |s.queue| && t.queue == s.queue[|newlyRecovered|..] &&
    (forall k :: 0 <= k < |newlyRecovered| ==>
       newlyRecovered[k] == s.queue[k].node && s.queue[k].time <= timestamp) &&
    (|t.queue| == 0 || t.queue[0].time > timestamp) &&
    Distinct(newlyRecovered) && Elems(newlyRecovered) <= s.infectedIds &&
    t.infectedIds == s.infectedIds - Elems(newlyRecovered) &&
    t.recoveredIds == s.recoveredIds + Elems(newlyRecovered) &&
    forall n :: n in s.status ==>
      t.status[n] == (if n in Elems(newlyRecovered) then Recovered else s.status[n])
  }

  /** Step A: pop every queue entry due at `timestamp`, in heap order, and recover its node.
      The guard on the popped node's status always passes, because the queue holds exactly
      the infected nodes. */
  method Recover(s: State, timestamp: int) returns (t: State, newlyRecovered: seq<NodeId>)
    requires Consistent(s)
    ensures RecoveryDone(s, timestamp, t, newlyRecovered)
  {
    t := s;
    newlyRecovered := [];
    while |t.queue| > 0 && t.queue[0].time <= timestamp
      invariant Consistent(t)
      invariant t.status.Keys == s.status.Keys && t.draws == s.draws
      invariant |newlyRecovered| <= |s.queue| && t.queue == s.queue[|newlyRecovered|..]
      invariant forall k :: 0 <= k < |newlyRecovered| ==>
        newlyRecovered[k] == s.queue[k].node && s.queue[k].time <= timestamp
      invariant Distinct(newlyRecovered) && Elems(newlyRecovered) <= s.infectedIds
      invariant t.infectedIds == s.infectedIds - Elems(newlyRecovered)
      invariant t.recoveredIds == s.recoveredIds + Elems(newlyRecovered)
      invariant forall n :: n in s.status ==>
        t.status[n] == (if n in Elems(newlyRecovered) then Recovered else s.status[n])
      decreases |t.queue|
    {
      var e := t.queue[0];
      var n := e.node;
      assert e == s.queue[|newlyRecovered|];
      assert n in NodeSet(t.queue);
      assert n in t.status && t.status[n] == Infected;
      forall k | 0 <= k < |newlyRecovered|
        ensures newlyRecovered[k] != n
      {
        assert s.queue[k].node != s.queue[|newlyRecovered|].node;
      }
      var u := State(t.status[n := Recovered], t.queue[1..], t.infectedIds - {n}, t.recoveredIds + {n}, t.draws);
      RecoverHead(t, u);
      t := u;
      newlyRecovered := newlyRecovered + [n];
    }
  }

  /** The endpoint a contact puts at risk: the susceptible side of an infected-susceptible
      pair, if the contact is one. */
  function AtRisk(status: map<NodeId, Status>, c: Contact): (r: Option<NodeId>)
    ensures r.Some? <==>
      (StatusOf(status, c.u) == Infected && StatusOf(status, c.v) == Susceptible) ||
      (StatusOf(status, c.v) == Infected && StatusOf(status, c.u) == Susceptible)
    ensures r.Some? ==> StatusOf(status, r.value) == Susceptible && (r.value == c.u || r.value == c.v)
    ensures StatusOf(status, c.u) == Infected && StatusOf(status, c.v) == Susceptible ==> r == Some(c.v)
  {
    if StatusOf(status, c.u) == Infected && StatusOf(status, c.v) == Susceptible then Some(c.v)
    else if StatusOf(status, c.v) == Infected && StatusOf(status, c.u) == Susceptible then Some(c.u)
    else None
  }

  /** Infecting a susceptible node and queueing its recovery keeps the state consistent. */
  lemma InfectKeeps(t: State, n: NodeId, q: seq<Entry>, u: State)
    requires Consistent(t) && n in t.status && t.status[n] == Susceptible
    requires NodeSet(q) == NodeSet(t.queue) + {n} && Ordered(q) && NodesDistinct(q)
    requires u == State(t.status[n := Infected], q, t.infectedIds + {n}, t.recoveredIds, u.draws)
    ensures Consistent(u)
  {
  }

  /** One row of step B, from status map `before` and draw counter `d`: a contact at risk
      draws coin `d`, and on success its susceptible end is infected at once. */
  ghost predicate RowStep(before: map<NodeId, Status>, after: map<NodeId, Status>, d: nat, d': nat,
                          c: Contact, transmissionProb: real, rand: nat -> real)
  {
    var risk := AtRisk(before, c);
    d' == (if risk.Some? then d + 1 else d) &&
    after == (if risk.Some? && rand(d) < transmissionProb then before[risk.value := Infected] else before)
  }

  /** `trail[i]` and `draws[i]` are the status map and the draw counter when row `i` of
      `group` comes up, for the first `m` rows. */
  ghost predicate Rows(group: seq<Contact>, trail: seq<map<NodeId, Status>>, draws: seq<nat>, m: nat,
                       transmissionProb: real, rand: nat -> real)
  {
    m <= |group| && m < |trail| && m < |draws| &&
    forall i: nat :: i < m ==> RowAt(group, trail, draws, i, transmissionProb, rand)
  }

  /** Row `i` of `group` takes `trail[i]` and `draws[i]` to `trail[i + 1]` and `draws[i + 1]`. */
  ghost predicate RowAt(group: seq<Contact>, trail: seq<map<NodeId, Status>>, draws: seq<nat>, i: nat,
                        transmissionProb: real, rand: nat -> real)
  {
    i < |group| && i + 1 < |trail| && i + 1 < |draws| &&
    RowStep(trail[i], trail[i + 1], draws[i], draws[i + 1], group[i], transmissionProb, rand)
  }

  /** A node infected over the first `m` rows was infected by one of them: a row whose contact
      put it at risk in the status reached at that row, and whose coin came up. */
  lemma {:induction false} InfectedByRow(group: seq<Contact>, trail: seq<map<NodeId, Status>>, draws: seq<nat>,
                                         m: nat, transmissionProb: real, rand: nat -> real, n: NodeId)
    requires Rows(group, trail, draws, m, transmissionProb, rand)
    requires StatusOf(trail[0], n) != Infected && StatusOf(trail[m], n) == Infected
    ensures exists i :: 0 <= i < m && AtRisk(trail[i], group[i]) == Some(n) && rand(draws[i]) < transmissionProb
  {
    assert m > 0;
    assert RowAt(group, trail, draws, m - 1, transmissionProb, rand);
    if StatusOf(trail[m - 1], n) == Infected {
      InfectedByRow(group, trail, draws, m - 1, transmissionProb, rand, n);
    } else {
      assert AtRisk(trail[m - 1], group[m - 1]) == Some(n);
    }
  }

  /** Rows only ever infect, so an infected node stays infected. */
  lemma {:induction false} StaysInfected(group: seq<Contact>, trail: seq<map<NodeId, Status>>, draws: seq<nat>,
                                         m: nat, transmissionProb: real, rand: nat -> real, i: nat, n: NodeId)
    requires Rows(group, trail, draws, m, transmissionProb, rand) && i <= m
    requires StatusOf(trail[i], n) == Infected
    ensures StatusOf(trail[m], n) == Infected
    decreases m - i
  {
    if i < m {
      assert RowAt(group, trail, draws, i, transmissionProb, rand);
      StaysInfected(group, trail, draws, m, transmissionProb, rand, i + 1, n);
    }
  }

  /** What step B does to `s` over the rows of `group`: the rows form a chain of `RowStep`s
      from `s` to `t`, the newly infected were susceptible and are each infected by a row
      whose coin came up, their recoveries are queued at `due`, and when every coin comes up
      every row at risk infects. */
  ghost predicate Transmitted(s: State, group: seq<Contact>, due: int, transmissionProb: real, rand: nat -> real,
                              t: State, newlyInfected: seq<NodeId>, trail: seq<map<NodeId, Status>>, draws: seq<nat>)
  {
    Consistent(t) &&
    t.status.Keys == s.status.Keys && t.draws >= s.draws &&
    Distinct(newlyInfected) &&
    (forall n :: n in newlyInfected ==> n in s.status && s.status[n] == Susceptible) &&
    t.infectedIds == s.infectedIds + Elems(newlyInfected) &&
    t.recoveredIds == s.recoveredIds &&
    (forall n :: n in s.status ==>
       t.status[n] == (if n in Elems(newlyInfected) then Infected else s.status[n])) &&
    (forall e :: e in t.queue <==> e in s.queue || (e.node in newlyInfected && e.time == due)) &&
    (transmissionProb <= 0.0 && (forall k :: rand(k) >= 0.0) ==> newlyInfected == []) &&
    |trail| == |draws| == |group| + 1 && Rows(group, trail, draws, |group|, transmissionProb, rand) &&
    trail[0] == s.status && draws[0] == s.draws && trail[|group|] == t.status && draws[|group|] == t.draws &&
    (forall n :: n in newlyInfected ==>
       exists i :: 0 <= i < |group| && AtRisk(trail[i], group[i]) == Some(n) && rand(draws[i]) < transmissionProb) &&
    ((forall k :: rand(k) < transmissionProb) ==>
       forall i :: 0 <= i < |group| && AtRisk(trail[i], group[i]).Some? ==>
         StatusOf(t.status, AtRisk(trail[i], group[i]).value) == Infected)
  }

  /** Step B: the contacts of one timestamp, in order. A contact between an infected and a
      susceptible node draws a coin (`rand(k) < transmissionProb` for the k-th draw); on
      success the susceptible node is infected at once, so it can pass the infection on in
      later rows of the same group. The ghost `trail` and `draws` record the status map and
      the draw counter as each row comes up. */
  method Transmit(s: State, group: seq<Contact>, timestamp: int, duration: int,
                  transmissionProb: real, rand: nat -> real)
    returns (t: State, newlyInfected: seq<NodeId>, ghost trail: seq<map<NodeId, Status>>, ghost draws: seq<nat>)
    requires Consistent(s)
    requires forall c :: c in group ==> c.u in s.status && c.v in s.status
    ensures Transmitted(s, group, timestamp + duration, transmissionProb, rand, t, newlyInfected, trail, draws)
  {
    t := s;
    newlyInfected := [];
    trail, draws := [s.status], [s.draws];
    var j := 0;
    while j < |group|
      invariant TransmitLoop(s, group, timestamp, duration, transmissionProb, rand, t, newlyInfected, trail, draws, j)
      decreases |group| - j
    {
      t, newlyInfected, trail, draws, j :=
        TransmitRow(s, group, timestamp, duration, transmissionProb, rand, t, newlyInfected, trail, draws, j);
    }
    RowsOutcome(group, trail, draws, transmissionProb, rand, newlyInfected);
  }

  /** What holds at the head of the loop over the rows of a group once the rows before `j`
      are done: `t` is `s` with the nodes of `newlyInfected` infected and queued, after the
      rows recorded in `trail` and `draws`. */
  ghost predicate TransmitLoop(s: State, group: seq<Contact>, timestamp: int, duration: int,
                               transmissionProb: real, rand: nat -> real, t: State, newlyInfected: seq<NodeId>,
                               trail: seq<map<NodeId, Status>>, draws: seq<nat>, j: nat)
  {
    j <= |group| && (forall c :: c in group ==> c.u in s.status && c.v in s.status) &&
    Spreading(s, t, newlyInfected, timestamp + duration, transmissionProb, rand) &&
    |trail| == |draws| == j + 1 && Rows(group, trail, draws, j, transmissionProb, rand) &&
    trail[0] == s.status && draws[0] == s.draws && trail[j] == t.status && draws[j] == t.draws
  }

  /** `t` is `s` with the nodes of `newlyInfected`, all susceptible in `s`, infected and their
      recoveries queued at `due`. */
  ghost predicate Spreading(s: State, t: State, newlyInfected: seq<NodeId>, due: int,
                            transmissionProb: real, rand: nat -> real)
  {
    Consistent(s) && Consistent(t) && t.status.Keys == s.status.Keys && t.draws >= s.draws &&
    Distinct(newlyInfected) &&
    (forall n :: n in newlyInfected ==> n in s.status && s.status[n] == Susceptible) &&
    t.infectedIds == s.infectedIds + Elems(newlyInfected) &&
    t.recoveredIds == s.recoveredIds &&
    (forall n :: n in s.status ==> t.status[n] == (if n in Elems(newlyInfected) then Infected else s.status[n])) &&
    (forall e :: e in t.queue <==> e in s.queue || (e.node in newlyInfected && e.time == due)) &&
    (transmissionProb <= 0.0 && (forall k :: rand(k) >= 0.0) ==> newlyInfected == [])
  }

  /** One row of the loop over a group: an at-risk contact draws a coin, and a coin below
      the probability infects its susceptible side. */
  method TransmitRow(s: State, group: seq<Contact>, timestamp: int, duration: int,
                     transmissionProb: real, rand: nat -> real, t: State, newlyInfected: seq<NodeId>,
                     ghost trail: seq<map<NodeId, Status>>, ghost draws: seq<nat>, j: nat)
    returns (t': State, newlyInfected': seq<NodeId>, ghost trail': seq<map<NodeId, Status>>,
             ghost draws': seq<nat>, j': nat)
    requires j < |group|
    requires TransmitLoop(s, group, timestamp, duration, transmissionProb, rand, t, newlyInfected, trail, draws, j)
    ensures j' == j + 1
    ensures TransmitLoop(s, group, timestamp, duration, transmissionProb, rand, t', newlyInfected', trail', draws', j')
  {
    var c := group[j];
    var risk := AtRisk(t.status, c);
    t', newlyInfected' := t, newlyInfected;
    if risk.Some? {
      var n := risk.value;
      if rand(t.draws) < transmissionProb {
        t', newlyInfected' := Infect(s, t, newlyInfected, n, timestamp + duration, transmissionProb, rand);
      } else {
        t' := t.(draws := t.draws + 1);
      }
    }
    RowsAppend(group, trail, draws, j, transmissionProb, rand, t'.status, t'.draws);
    trail', draws' := trail + [t'.status], draws + [t'.draws];
    j' := j + 1;
  }

  /** A successful coin: the susceptible node `n` is infected, its recovery queued at `due`,
      and the draw counted. */
  method Infect(s: State, t: State, newlyInfected: seq<NodeId>, n: NodeId, due: int,
                transmissionProb: real, rand: nat -> real)
    returns (u: State, newlyInfected': seq<NodeId>)
    requires Spreading(s, t, newlyInfected, due, transmissionProb, rand)
    requires n in t.status && t.status[n] == Susceptible && rand(t.draws) < transmissionProb
    ensures Spreading(s, u, newlyInfected', due, transmissionProb, rand)
    ensures u.status == t.status[n := Infected] && u.draws == t.draws + 1 && newlyInfected' == newlyInfected + [n]
  {
    assert n !in NodeSet(t.queue);
    var q := Push(t.queue, Entry(due, n));
    u := State(t.status[n := Infected], q, t.infectedIds + {n}, t.recoveredIds, t.draws + 1);
    InfectKeeps(t, n, q, u);
    newlyInfected' := newlyInfected + [n];
  }

  /** What the rows of a whole group bring about: every node infected over them was infected
      by a row of its own, and when every coin comes up every row at risk infects. */
  lemma RowsOutcome(group: seq<Contact>, trail: seq<map<NodeId, Status>>, draws: seq<nat>,
                    transmissionProb: real, rand: nat -> real, infected: seq<NodeId>)
    requires |trail| == |draws| == |group| + 1 && Rows(group, trail, draws, |group|, transmissionProb, rand)
    requires forall n :: n in infected ==> StatusOf(trail[0], n) != Infected && StatusOf(trail[|group|], n) == Infected
    ensures forall n :: n in infected ==>
      exists i :: 0 <= i < |group| && AtRisk(trail[i], group[i]) == Some(n) && rand(draws[i]) < transmissionProb
    ensures (forall k :: rand(k) < transmissionProb) ==>
      forall i :: 0 <= i < |group| && AtRisk(trail[i], group[i]).Some? ==>
        StatusOf(trail[|group|], AtRisk(trail[i], group[i]).value) == Infected
  {
    forall n | n in infected
      ensures exists i :: 0 <= i < |group| && AtRisk(trail[i], group[i]) == Some(n) && rand(draws[i]) < transmissionProb
    {
      InfectedByRow(group, trail, draws, |group|, transmissionProb, rand, n);
    }
    if forall k :: rand(k) < transmissionProb {
      forall i | 0 <= i < |group| && AtRisk(trail[i], group[i]).Some?
        ensures StatusOf(trail[|group|], AtRisk(trail[i], group[i]).value) == Infected
      {
        var n := AtRisk(trail[i], group[i]).value;
        assert RowAt(group, trail, draws, i, transmissionProb, rand);
        StaysInfected(group, trail, draws, |group|, transmissionProb, rand, i + 1, n);
      }
    }
  }

  /** Appending the state after row `j` extends the rows by one. */
  lemma RowsAppend(group: seq<Contact>, trail: seq<map<NodeId, Status>>, draws: seq<nat>, j: nat,
                   transmissionProb: real, rand: nat -> real, after: map<NodeId, Status>, d': nat)
    requires |trail| == |draws| == j + 1 && j < |group| && Rows(group, trail, draws, j, transmissionProb, rand)
    requires RowStep(trail[j], after, draws[j], d', group[j], transmissionProb, rand)
    ensures Rows(group, trail + [after], draws + [d'], j + 1, transmissionProb, rand)
  {
    var trail', draws' := trail + [after], draws + [d'];
    forall i: nat | i < j + 1
      ensures RowAt(group, trail', draws', i, transmissionProb, rand)
    {
      if i < j {
        assert RowAt(group, trail, draws, i, transmissionProb, rand);
        assert trail'[i] == trail[i] && trail'[i + 1] == trail[i + 1] && draws'[i] == draws[i] && draws'[i + 1] == draws[i + 1];
      }
    }
  }

  /** Infection spreads along a group within one timestamp: when `a` is infected, `b` and `d`
      susceptible and every coin comes up, the rows a-b then b-d infect `b` and then `d`. */
  lemma SameGroupChain(a: NodeId, b: NodeId, d: NodeId, ts: int, trail: seq<map<NodeId, Status>>, draws: seq<nat>,
                       transmissionProb: real, rand: nat -> real)
    requires a != b && b != d && a != d
    requires Rows([Contact(ts, a, b), Contact(ts, b, d)], trail, draws, 2, transmissionProb, rand)
    requires StatusOf(trail[0], a) == Infected && StatusOf(trail[0], b) == Susceptible && StatusOf(trail[0], d) == Susceptible
    requires forall k :: rand(k) < transmissionProb
    ensures StatusOf(trail[2], b) == Infected && StatusOf(trail[2], d) == Infected
  {
    var group := [Contact(ts, a, b), Contact(ts, b, d)];
    assert RowAt(group, trail, draws, 0, transmissionProb, rand);
    assert AtRisk(trail[0], group[0]) == Some(b);
    assert RowAt(group, trail, draws, 1, transmissionProb, rand);
    assert AtRisk(trail[1], group[1]) == Some(d);
  }

  /** The first record: the patient zeros as infected, nothing recovered. */
  function InitialRecord(start: int, sample: seq<NodeId>): (r: StepRecord)
    ensures r.time == start && r.infected == sample && r.recovered == []
    ensures r.newInfected == [] && r.newRecovered == []
  {
    StepRecord(start, sample, [], [], [], [], [], [], 0, 0, 0, 0)
  }

  /** A later record: what changed at `time`, and the set sizes after the step. */
  function StepRecordOf(time: int, newlyInfected: seq<NodeId>, newlyRecovered: seq<NodeId>,
                        totalInfected: nat, totalRecovered: nat): (r: StepRecord)
    ensures r.time == time && r.infected == [] && r.recovered == []
    ensures r.newInfected == newlyInfected && r.newRecovered == newlyRecovered
    ensures r.totalInfected == totalInfected && r.totalRecovered == totalRecovered
  {
    StepRecord(time, [], [], [], [], newlyInfected, newlyRecovered, [], 0, totalInfected, totalRecovered, 0)
  }

  /** Every identity a history reports as infected, record by record. */
  function Infections(h: seq<StepRecord>): seq<NodeId>
  {
    if |h| == 0 then [] else Infections(h[..|h| - 1]) + h[|h| - 1].infected + h[|h| - 1].newInfected
  }

  /** Every identity a history reports as recovered, record by record. */
  function Recoveries(h: seq<StepRecord>): seq<NodeId>
  {
    if |h| == 0 then [] else Recoveries(h[..|h| - 1]) + h[|h| - 1].newRecovered
  }

  /** The history agrees with the state: folding it as the front end does gives the status
      sets, every node is reported infected at most once and recovered at most once, and the
      reported identities are exactly the nodes that have left the susceptible status. */
  predicate Reports(h: seq<StepRecord>, s: State)
  {
    App.Fold(h) == App.Drawn(s.infectedIds, s.recoveredIds) &&
    Distinct(Infections(h)) && Elems(Infections(h)) == s.infectedIds + s.recoveredIds &&
    Distinct(Recoveries(h)) && Elems(Recoveries(h)) == s.recoveredIds
  }

  lemma DistinctAppend(a: seq<NodeId>, b: seq<NodeId>)
    requires Distinct(a) && Distinct(b) && Elems(a) !! Elems(b)
    ensures Distinct(a + b)
  {
    forall i, j | 0 <= i < j < |a + b|
      ensures (a + b)[i] != (a + b)[j]
    {
      if j >= |a| && i < |a| {
        assert (a + b)[i] in Elems(a) && (a + b)[j] in Elems(b);
      }
    }
  }

  /** A step that recovers `nr` and then infects `ni` keeps the history in agreement with the
      state once its record is appended. */
  lemma AppendStep(h: seq<StepRecord>, s: State, m: State, t: State, nr: seq<NodeId>,
                   ni: seq<NodeId>, rec: StepRecord)
    requires Reports(h, s) && Consistent(s)
    requires Distinct(nr) && Elems(nr) <= s.infectedIds
    requires m.infectedIds == s.infectedIds - Elems(nr) && m.recoveredIds == s.recoveredIds + Elems(nr)
    requires Distinct(ni) && Elems(ni) !! (m.infectedIds + m.recoveredIds)
    requires t.infectedIds == m.infectedIds + Elems(ni) && t.recoveredIds == m.recoveredIds
    requires rec.infected == [] && rec.newInfected == ni && rec.newRecovered == nr
    ensures Reports(h + [rec], t)
  {
    assert s.infectedIds !! s.recoveredIds;
    AppendInfections(h, ni, rec);
    AppendRecoveries(h, nr, rec);
    var d := App.Fold(h + [rec]);
    assert (h + [rec])[..|h + [rec]| - 1] == h;
    assert d == App.ApplyRecord(App.Fold(h), rec);
  }

  lemma AppendInfections(h: seq<StepRecord>, ni: seq<NodeId>, rec: StepRecord)
    requires Distinct(Infections(h)) && Distinct(ni) && Elems(ni) !! Elems(Infections(h))
    requires rec.infected == [] && rec.newInfected == ni
    ensures Distinct(Infections(h + [rec]))
    ensures Elems(Infections(h + [rec])) == Elems(Infections(h)) + Elems(ni)
  {
    var h' := h + [rec];
    assert h'[..|h'| - 1] == h;
    assert Infections(h') == Infections(h) + [] + ni;
    assert Infections(h) + [] == Infections(h);
    DistinctAppend(Infections(h), ni);
  }

  lemma AppendRecoveries(h: seq<StepRecord>, nr: seq<NodeId>, rec: StepRecord)
    requires Distinct(Recoveries(h)) && Distinct(nr) && Elems(nr) !! Elems(Recoveries(h))
    requires rec.newRecovered == nr
    ensures Distinct(Recoveries(h + [rec]))
    ensures Elems(Recoveries(h + [rec])) == Elems(Recoveries(h)) + Elems(nr)
  {
    var h' := h + [rec];
    assert h'[..|h'| - 1] == h;
    assert Recoveries(h') == Recoveries(h) + nr;
    DistinctAppend(Recoveries(h), nr);
  }

  /** A step with nothing to report leaves the state's sets as they were. */
  lemma QuietStep(h: seq<StepRecord>, s: State, t: State, nr: seq<NodeId>, ni: seq<NodeId>)
    requires Reports(h, s) && nr == [] && ni == []
    requires t.infectedIds == s.infectedIds - Elems(nr) + Elems(ni)
    requires t.recoveredIds == s.recoveredIds + Elems(nr)
    ensures Reports(h, t)
  {
    assert Elems(nr) == {} && Elems(ni) == {};
  }

  /** Every record after the first reports a change. */
  predicate OnlyChanges(h: seq<StepRecord>)
  {
    forall k :: 1 <= k < |h| ==> |h[k].newInfected| > 0 || |h[k].newRecovered| > 0
  }

  /** The records after the first are in strictly increasing time, none before `start`. */
  predicate TimesIncrease(h: seq<StepRecord>, start: int)
  {
    (forall k :: 1 <= k < |h| ==> start <= h[k].time) &&
    (forall k, l :: 1 <= k < l < |h| ==> h[k].time < h[l].time)
  }

  /** The totals of each record after the first are the sizes of the front end's sets after
      folding the history up to and including that record. */
  predicate TotalsAgree(h: seq<StepRecord>)
  {
    forall k: nat :: 1 <= k < |h| ==> TotalsAt(h, k)
  }

  /** The totals of record `k` are the sizes of the front end's sets after folding the
      history up to and including it. */
  predicate TotalsAt(h: seq<StepRecord>, k: nat)
  {
    k < |h| &&
    h[k].totalInfected == |App.Fold(h[..k + 1]).infected| &&
    h[k].totalRecovered == |App.Fold(h[..k + 1]).recovered|
  }

  /** The facts about the history `run_simulation` returns. */
  predicate WellFormedHistory(h: seq<StepRecord>, cs: seq<Contact>, sample: seq<NodeId>)
    requires |cs| > 0
  {
    |h| >= 1 && h[0] == InitialRecord(cs[0].timestamp, sample) &&
    OnlyChanges(h) && TimesIncrease(h, cs[0].timestamp) && TotalsAgree(h)
  }

  lemma TotalsAppend(h: seq<StepRecord>, rec: StepRecord)
    requires TotalsAgree(h)
    requires rec.totalInfected == |App.Fold(h + [rec]).infected|
    requires rec.totalRecovered == |App.Fold(h + [rec]).recovered|
    ensures TotalsAgree(h + [rec])
  {
    forall k: nat | 1 <= k < |h| + 1
      ensures TotalsAt(h + [rec], k)
    {
      if k < |h| {
        assert TotalsAt(h, k);
        TotalsAtAppend(h, rec, k);
      } else {
        TotalsAtLast(h + [rec]);
      }
    }
  }

  /** The last record's totals are those of the whole history. */
  lemma TotalsAtLast(h: seq<StepRecord>)
    requires |h| > 0
    requires h[|h| - 1].totalInfected == |App.Fold(h).infected|
    requires h[|h| - 1].totalRecovered == |App.Fold(h).recovered|
    ensures TotalsAt(h, |h| - 1)
  {
    assert h[..|h|] == h;
  }

  /** Appending a record keeps the totals of the records before it. */
  lemma TotalsAtAppend(h: seq<StepRecord>, rec: StepRecord, k: nat)
    requires TotalsAt(h, k)
    ensures TotalsAt(h + [rec], k)
  {
    assert (h + [rec])[..k + 1] == h[..k + 1];
  }

  lemma ChangesAppend(h: seq<StepRecord>, rec: StepRecord)
    requires OnlyChanges(h) && (|rec.newInfected| > 0 || |rec.newRecovered| > 0)
    ensures OnlyChanges(h + [rec])
  {
    var h' := h + [rec];
    assert forall k :: 0 <= k < |h| ==> h'[k] == h[k];
  }

  /** No record after the first is later than `bound`. */
  predicate TimesBelow(h: seq<StepRecord>, bound: int)
  {
    forall k :: 1 <= k < |h| ==> h[k].time <= bound
  }

  lemma TimesAppend(h: seq<StepRecord>, start: int, bound: int, rec: StepRecord)
    requires TimesIncrease(h, start) && start <= rec.time
    requires TimesBelow(h, bound) && bound < rec.time
    ensures TimesIncrease(h + [rec], start)
    ensures TimesBelow(h + [rec], rec.time)
  {
    var h' := h + [rec];
    assert forall k :: 0 <= k < |h| ==> h'[k] == h[k];
  }

  /** Appending a step record after a well-formed history keeps it well formed. */
  lemma WellFormedAppend(h: seq<StepRecord>, cs: seq<Contact>, sample: seq<NodeId>, bound: int,
                         rec: StepRecord)
    requires |cs| > 0 && WellFormedHistory(h, cs, sample)
    requires |rec.newInfected| > 0 || |rec.newRecovered| > 0
    requires cs[0].timestamp <= rec.time
    requires TimesBelow(h, bound) && bound < rec.time
    requires rec.totalInfected == |App.Fold(h + [rec]).infected|
    requires rec.totalRecovered == |App.Fold(h + [rec]).recovered|
    ensures WellFormedHistory(h + [rec], cs, sample)
    ensures TimesBelow(h + [rec], rec.time)
  {
    TotalsAppend(h, rec);
    ChangesAppend(h, rec);
    TimesAppend(h, cs[0].timestamp, bound, rec);
    assert (h + [rec])[0] == h[0];
  }

  /** The end of the group of rows that share the timestamp of row `i`. */
  function GroupEnd(cs: seq<Contact>, i: nat): (j: nat)
    requires i < |cs| && TimeOrdered(cs)
    ensures i < j <= |cs|
    ensures forall k :: i <= k < j ==> cs[k].timestamp == cs[i].timestamp
    ensures j < |cs| ==> cs[i].timestamp < cs[j].timestamp
    decreases |cs| - i
  {
    if i + 1 < |cs| && cs[i + 1].timestamp == cs[i].timestamp then GroupEnd(cs, i + 1) else i + 1
  }

  /** What holds between timestamp groups, after the rows before position `i`. */
  predicate Progress(cs: seq<Contact>, sample: seq<NodeId>, i: nat, s: State, h: seq<StepRecord>)
    requires |cs| > 0
  {
    i <= |cs| && Consistent(s) && s.status.Keys == Nodes(cs) &&
    Reports(h, s) && WellFormedHistory(h, cs, sample) &&
    (0 < i < |cs| ==> cs[i - 1].timestamp < cs[i].timestamp) &&
    (i == 0 ==> |h| == 1) &&
    (i > 0 ==> TimesBelow(h, cs[i - 1].timestamp))
  }

  /** The state and history after one timestamp group still satisfy `Progress`: the group
      recovered `nr` and then infected `ni`, and `h'` carries a record only if one of the
      two is non-empty. */
  lemma GroupProgress(cs: seq<Contact>, sample: seq<NodeId>, i: nat, j: nat, s: State,
                      h: seq<StepRecord>, m: State, t: State, nr: seq<NodeId>, ni: seq<NodeId>,
                      h': seq<StepRecord>)
    requires |cs| > 0 && i < j <= |cs| && Progress(cs, sample, i, s, h)
    requires cs[0].timestamp <= cs[i].timestamp == cs[j - 1].timestamp
    requires j < |cs| ==> cs[j - 1].timestamp < cs[j].timestamp
    requires Consistent(t) && t.status.Keys == s.status.Keys
    requires Distinct(nr) && Elems(nr) <= s.infectedIds
    requires m.infectedIds == s.infectedIds - Elems(nr) && m.recoveredIds == s.recoveredIds + Elems(nr)
    requires Distinct(ni) && Elems(ni) !! (m.infectedIds + m.recoveredIds)
    requires t.infectedIds == m.infectedIds + Elems(ni) && t.recoveredIds == m.recoveredIds
    requires |ni| == 0 && |nr| == 0 ==> h' == h
    requires |ni| > 0 || |nr| > 0 ==>
      h' == h + [StepRecordOf(cs[i].timestamp, ni, nr, |t.infectedIds|, |t.recoveredIds|)]
    ensures Progress(cs, sample, j, t, h')
  {
    var timestamp := cs[i].timestamp;
    if |ni| > 0 || |nr| > 0 {
      var rec := StepRecordOf(timestamp, ni, nr, |t.infectedIds|, |t.recoveredIds|);
      AppendStep(h, s, m, t, nr, ni, rec);
      var bound := if i == 0 then timestamp - 1 else cs[i - 1].timestamp;
      assert TimesBelow(h, bound);
      WellFormedAppend(h, cs, sample, bound, rec);
    } else {
      QuietStep(h, s, t, nr, ni);
    }
  }

  /** One group's recoveries, transmissions and optional record keep the loop invariant. */
  lemma GroupStep(cs: seq<Contact>, sample: seq<NodeId>, i: nat, s: State, h: seq<StepRecord>,
                  group: seq<Contact>, duration: int, transmissionProb: real, rand: nat -> real, m: State, t: State,
                  nr: seq<NodeId>, ni: seq<NodeId>, trail: seq<map<NodeId, Status>>, draws: seq<nat>,
                  h': seq<StepRecord>)
    requires |cs| > 0 && TimeOrdered(cs) && i < |cs| && Progress(cs, sample, i, s, h)
    requires RecoveryDone(s, cs[i].timestamp, m, nr)
    requires Transmitted(m, group, cs[i].timestamp + duration, transmissionProb, rand,
                         t, ni, trail, draws)
    requires h' == if |ni| > 0 || |nr| > 0
                   then h + [StepRecordOf(cs[i].timestamp, ni, nr, |t.infectedIds|, |t.recoveredIds|)]
                   else h
    ensures Progress(cs, sample, GroupEnd(cs, i), t, h')
  {
    var j := GroupEnd(cs, i);
    assert cs[0].timestamp <= cs[i].timestamp;
    forall n | n in ni
      ensures n !in m.infectedIds + m.recoveredIds
    {
      assert m.status[n] == Susceptible;
    }
    GroupProgress(cs, sample, i, j, s, h, m, t, nr, ni, h');
  }

  /** Both ends of every contact in a group are nodes of the table. */
  lemma GroupNodes(cs: seq<Contact>, i: nat, j: nat)
    requires i <= j <= |cs|
    ensures forall c :: c in cs[i..j] ==> c.u in Nodes(cs) && c.v in Nodes(cs)
  {
    forall c | c in cs[i..j]
      ensures c in cs
    {
      var k :| 0 <= k < j - i && cs[i..j][k] == c;
      assert cs[i + k] == c;
    }
  }

  /** One iteration of the loop over timestamp groups: recoveries due at the group's time,
      then its contacts, then a record if anything changed. `m` is the state between the
      two steps, and the ghost `trail` and `draws` are those of the contact rows. */
  method SimulateGroup(cs: seq<Contact>, sample: seq<NodeId>, i: nat, s: State, h: seq<StepRecord>,
                       duration: int, transmissionProb: real, rand: nat -> real)
    returns (j: nat, group: seq<Contact>, t: State, h': seq<StepRecord>, m: State, newlyRecovered: seq<NodeId>,
             newlyInfected: seq<NodeId>, ghost trail: seq<map<NodeId, Status>>, ghost draws: seq<nat>)
    requires |cs| > 0 && TimeOrdered(cs) && i < |cs| && Progress(cs, sample, i, s, h)
    ensures j == GroupEnd(cs, i) && |group| == j - i && forall k :: 0 <= k < |group| ==> group[k] == cs[i + k]
    ensures RecoveryDone(s, cs[i].timestamp, m, newlyRecovered)
    ensures Transmitted(m, group, cs[i].timestamp + duration, transmissionProb, rand, t, newlyInfected, trail, draws)
    ensures h' == if |newlyInfected| > 0 || |newlyRecovered| > 0
                  then h + [StepRecordOf(cs[i].timestamp, newlyInfected, newlyRecovered, |t.infectedIds|, |t.recoveredIds|)]
                  else h
    ensures Progress(cs, sample, j, t, h')
  {
    j, group := GroupAt(cs, i);
    m, newlyRecovered, t, newlyInfected, trail, draws :=
      Advance(s, group, cs[i].timestamp, duration, transmissionProb, rand);
    if |newlyInfected| > 0 || |newlyRecovered| > 0 {
      h' := h + [StepRecordOf(cs[i].timestamp, newlyInfected, newlyRecovered, |t.infectedIds|, |t.recoveredIds|)];
    } else {
      h' := h;
    }
    GroupStep(cs, sample, i, s, h, group, duration, transmissionProb, rand, m, t, newlyRecovered, newlyInfected,
              trail, draws, h');
  }

  /** The rows from `i` up to the next timestamp, and the end of that group. */
  method GroupAt(cs: seq<Contact>, i: nat) returns (j: nat, group: seq<Contact>)
    requires i < |cs| && TimeOrdered(cs)
    ensures j == GroupEnd(cs, i) && |group| == j - i && forall k :: 0 <= k < |group| ==> group[k] == cs[i + k]
    ensures forall c :: c in group ==> c.u in Nodes(cs) && c.v in Nodes(cs)
  {
    j := GroupEnd(cs, i);
    group := cs[i..j];
    GroupNodes(cs, i, j);
  }

  /** Steps A and B of one timestamp group: the recoveries due at `timestamp`, then the
      contacts of `group`, run on the state the recoveries left. */
  method Advance(s: State, group: seq<Contact>, timestamp: int, duration: int,
                 transmissionProb: real, rand: nat -> real)
    returns (m: State, newlyRecovered: seq<NodeId>, t: State, newlyInfected: seq<NodeId>,
             ghost trail: seq<map<NodeId, Status>>, ghost draws: seq<nat>)
    requires Consistent(s)
    requires forall c :: c in group ==> c.u in s.status && c.v in s.status
    ensures RecoveryDone(s, timestamp, m, newlyRecovered)
    ensures Transmitted(m, group, timestamp + duration, transmissionProb, rand, t, newlyInfected, trail, draws)
  {
    m, newlyRecovered := Recover(s, timestamp);
    t, newlyInfected, trail, draws := Transmit(m, group, timestamp, duration, transmissionProb, rand);
  }

  /** `run_simulation(contacts_df, patient_zero_count, transmission_prob, recovery_days)`.
      `sample` is what `random.sample` returns and `rand(k)` what the k-th call of
      `random.random()` returns. The ghost `final` is the status map at the end. */
  method RunSimulation(contacts: Option<seq<Contact>>, patientZeroCount: nat,
                       transmissionProb: real, recoveryDays: int,
                       sample: seq<NodeId>, rand: nat -> real)
    returns (out: Outcome, ghost final: map<NodeId, Status>)
    requires contacts.Some? ==>
      |contacts.value| > 0 && TimeOrdered(contacts.value) &&
      IsSample(sample, patientZeroCount, Nodes(contacts.value))
    ensures out == NotLoaded <==> contacts.None?
    ensures out.History? ==>
      var cs := contacts.value;
      var h := out.records;
      WellFormedHistory(h, cs, sample) &&
      final.Keys == Nodes(cs) &&
      App.Fold(h) == App.Drawn(WithStatus(final, Infected), WithStatus(final, Recovered)) &&
      Distinct(Infections(h)) && Distinct(Recoveries(h)) &&
      Elems(Infections(h)) == WithStatus(final, Infected) + WithStatus(final, Recovered) &&
      Elems(Recoveries(h)) == WithStatus(final, Recovered)
  {
    if contacts.None? {
      return NotLoaded, map[];
    }
    var cs := contacts.value;
    var start := cs[0].timestamp;
    var duration := recoveryDays * SecondsPerDay;
    var s := Initialise(Nodes(cs), sample, start, duration);
    var h := [InitialRecord(start, sample)];
    assert App.Fold(h) == App.ApplyRecord(App.Fold([]), h[0]);
    assert Infections(h) == Infections([]) + sample + [];
    assert Recoveries(h) == Recoveries([]) + [];

    var i := 0;
    while i < |cs|
      invariant Progress(cs, sample, i, s, h)
      decreases |cs| - i
    {
      var group, m, recovered, infected;
      ghost var trail, draws;
      i, group, s, h, m, recovered, infected, trail, draws :=
        SimulateGroup(cs, sample, i, s, h, duration, transmissionProb, rand);
    }
    return History(h), s.status;
  }
}
