/** Shared vocabulary of the visualisation front end and the simulation back ends:
    optional values, node identities, graph nodes and links, the step record that the
    back ends emit and the front end folds, and a few sequence helpers. */
module Common {

  datatype Option<+T> = None | Some(value: T)

  /** Node identities are the dense integers 0, 1, 2, ... that the data loader assigns. */
  type NodeId = nat

  /** A node of the graph snapshot: identity and layout position in data space. */
  datatype GraphNode = GraphNode(id: NodeId, x: real, y: real)

  /** A link endpoint as the front end sees it: the bare identity sent by the back end, or the
      node object that a force-graph library substitutes for it in place. */
  datatype Endpoint = ById(id: NodeId) | ByNode(node: GraphNode)

  datatype Link = Link(source: Endpoint, target: Endpoint)

  /** One record of the simulation history. A list field the back end leaves out is the empty
      list here and a count it leaves out is 0: every consumer modelled reads them that way. */
  datatype StepRecord = StepRecord(
    time: int,
    infected: seq<NodeId>,
    exposed: seq<NodeId>,
    recovered: seq<NodeId>,
    newExposed: seq<NodeId>,
    newInfected: seq<NodeId>,
    newRecovered: seq<NodeId>,
    newDead: seq<NodeId>,
    totalExposed: nat,
    totalInfected: nat,
    totalRecovered: nat,
    totalDead: nat)

  /** The set of elements of a list of identities. */
  function Elems(s: seq<NodeId>): (r: set<NodeId>)
    ensures forall x :: x in r <==> x in s
  {
    set x | x in s
  }

  /** No identity occurs twice. */
  predicate Distinct(s: seq<NodeId>)
  {
    forall i, j :: 0 <= i < j < |s| ==> s[i] != s[j]
  }

  /** A list without repetition has as many elements as entries. */
  lemma {:induction false} DistinctSize(s: seq<NodeId>)
    requires Distinct(s)
    ensures |Elems(s)| == |s|
  {
    if |s| > 0 {
      var rest := s[1..];
      assert forall i, j :: 0 <= i < j < |rest| ==> rest[i] == s[i + 1] && rest[j] == s[j + 1];
      DistinctSize(rest);
      assert s[0] !in rest;
      assert Elems(s) == {s[0]} + Elems(rest);
    }
  }

  /** `Array.prototype.find` on node lists: the first node with identity `id`. */
  function Find(nodes: seq<GraphNode>, id: NodeId): (r: Option<GraphNode>)
    ensures r.Some? <==> exists i :: 0 <= i < |nodes| && nodes[i].id == id
    ensures r.Some? ==> r.value in nodes && r.value.id == id
    ensures r.Some? ==> exists i :: 0 <= i < |nodes| && nodes[i] == r.value &&
                                    forall j :: 0 <= j < i ==> nodes[j].id != id
  {
    if |nodes| == 0 then None
    else if nodes[0].id == id then Some(nodes[0])
    else
      var r := Find(nodes[1..], id);
      assert r.Some? ==> exists i :: 0 <= i < |nodes[1..]| && nodes[1..][i] == r.value &&
                                     forall j :: 0 <= j < i ==> nodes[1..][j].id != id;
      r
  }

  /** `Math.min(...xs)` on a non-empty list. */
  function SeqMin(xs: seq<real>): (m: real)
    requires |xs| > 0
    ensures m in xs
    ensures forall i :: 0 <= i < |xs| ==> m <= xs[i]
  {
    if |xs| == 1 then xs[0]
    else
      var rest := SeqMin(xs[1..]);
      assert forall i :: 1 <= i < |xs| ==> xs[i] == xs[1..][i - 1];
      if xs[0] <= rest then xs[0] else rest
  }

  /** `Math.max(...xs)` on a non-empty list. */
  function SeqMax(xs: seq<real>): (m: real)
    requires |xs| > 0
    ensures m in xs
    ensures forall i :: 0 <= i < |xs| ==> xs[i] <= m
  {
    if |xs| == 1 then xs[0]
    else
      var rest := SeqMax(xs[1..]);
      assert forall i :: 1 <= i < |xs| ==> xs[i] == xs[1..][i - 1];
      if xs[0] >= rest then xs[0] else rest
  }

  /** The sum a `reduce((sum, v) => sum + v, 0)` computes. */
  function Sum(xs: seq<real>): real
  {
    if |xs| == 0 then 0.0 else xs[0] + Sum(xs[1..])
  }

  /** A sum of values that all lie in [lo, hi] lies in [n lo, n hi]. */
  lemma {:induction false} SumBounds(xs: seq<real>, lo: real, hi: real)
    requires forall i :: 0 <= i < |xs| ==> lo <= xs[i] <= hi
    ensures (|xs| as real) * lo <= Sum(xs) <= (|xs| as real) * hi
  {
    if |xs| > 0 {
      assert forall i :: 0 <= i < |xs[1..]| ==> xs[1..][i] == xs[i + 1];
      SumBounds(xs[1..], lo, hi);
    }
  }
}
