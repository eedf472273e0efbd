/** The geographic map view: node positions mapped linearly into a fixed latitude/longitude
    box, links as pairs of scaled positions, and the marker colour of a node's state. */
module MapLayout {
  import opened Common

  const LatMin: real := 25.5
  const LatMax: real := 31.5
  const LonMin: real := 61.5
  const LonMax: real := 69.5

  const InfectedColour := "#ef4444"
  const RecoveredColour := "#3b82f6"
  const OtherColour := "#10b981"

  /** `getNodeColor(nodeStates[node.id])`; a node without a state is `None`. */
  function NodeColour(state: Option<string>): (c: string)
    ensures c == InfectedColour <==> state == Some("infected")
    ensures c == RecoveredColour <==> state == Some("recovered")
    ensures c == OtherColour <==> state != Some("infected") && state != Some("recovered")
  {
    if state == Some("infected") then InfectedColour
    else if state == Some("recovered") then RecoveredColour
    else OtherColour
  }

  /** `a * w / d`, the share of width `w` that `a` takes of `d`. */
  function Share(a: real, d: real, w: real): (r: real)
    requires d > 0.0
    ensures r * d == a * w
  {
    a * w / d
  }

  lemma SignOfProduct(x: real, y: real)
    requires x >= 0.0 && y >= 0.0
    ensures x * y >= 0.0
  {
  }

  lemma PositiveProduct(x: real, d: real)
    requires d > 0.0
    ensures x > 0.0 ==> x * d > 0.0
  {
  }

  /** A share of `a` in [0, d] lies in [0, w]. */
  lemma ShareBounds(a: real, d: real, w: real)
    requires d > 0.0 && w >= 0.0 && 0.0 <= a <= d
    ensures 0.0 <= Share(a, d, w) <= w
  {
    var r := Share(a, d, w);
    assert (r - w) * d == (a - d) * w;
    SignOfProduct(a, w);
    SignOfProduct(d - a, w);
    PositiveProduct(-r, d);
    PositiveProduct(r - w, d);
  }

  lemma ShareEnds(d: real, w: real)
    requires d > 0.0
    ensures Share(0.0, d, w) == 0.0 && Share(d, d, w) == w
  {
    var r := Share(d, d, w);
    assert (r - w) * d == 0.0;
  }

  lemma ShareMonotone(a: real, b: real, d: real, w: real)
    requires d > 0.0 && w >= 0.0 && a <= b
    ensures Share(a, d, w) <= Share(b, d, w)
  {
    var r := Share(a, d, w);
    var s := Share(b, d, w);
    assert (r - s) * d == (a - b) * w;
    SignOfProduct(b - a, w);
    PositiveProduct(r - s, d);
  }

  lemma ShareHalf(d: real, w: real)
    requires d > 0.0
    ensures Share(d / 2.0, d, w) == w / 2.0
  {
    var r := Share(d / 2.0, d, w);
    assert (r - w / 2.0) * d == 0.0;
  }

  /** `scaleLat` / `scaleLon`: `v` in data range [lo, hi] mapped onto [outMin, outMax];
      a data range of zero width maps everything to `outMin`. */
  function ScaleLinear(v: real, lo: real, hi: real, outMin: real, outMax: real): (r: real)
    requires lo <= hi && outMin <= outMax
    ensures hi == lo ==> r == outMin
    ensures hi > lo && v == lo ==> r == outMin
    ensures hi > lo && v == hi ==> r == outMax
    ensures lo <= v <= hi ==> outMin <= r <= outMax
  {
    if hi - lo == 0.0 then outMin
    else
      ShareEnds(hi - lo, outMax - outMin);
      if lo <= v <= hi then
        ShareBounds(v - lo, hi - lo, outMax - outMin);
        outMin + Share(v - lo, hi - lo, outMax - outMin)
      else outMin + Share(v - lo, hi - lo, outMax - outMin)
  }

  /** The map is linear: it keeps the order of data values. */
  lemma ScaleLinearMonotone(v: real, w: real, lo: real, hi: real, outMin: real, outMax: real)
    requires lo <= hi && outMin <= outMax && v <= w
    ensures ScaleLinear(v, lo, hi, outMin, outMax) <= ScaleLinear(w, lo, hi, outMin, outMax)
  {
    if hi > lo {
      ShareMonotone(v - lo, w - lo, hi - lo, outMax - outMin);
    }
  }

  /** The midpoint of the data range lands on the midpoint of the output range. */
  lemma ScaleLinearMidpoint(lo: real, hi: real, outMin: real, outMax: real)
    requires lo <= hi && outMin <= outMax
    ensures lo < hi ==> ScaleLinear((lo + hi) / 2.0, lo, hi, outMin, outMax) == (outMin + outMax) / 2.0
  {
    if lo < hi {
      assert (lo + hi) / 2.0 - lo == (hi - lo) / 2.0;
      ShareHalf(hi - lo, outMax - outMin);
    }
  }

  datatype LatLon = LatLon(lat: real, lon: real)

  /** A node with its original fields and its map position. */
  datatype ScaledNode = ScaledNode(node: GraphNode, pos: LatLon)

  datatype ScaledLink = ScaledLink(id: nat, from: LatLon, to: LatLon)

  /** The data-space bounding box of the nodes. */
  datatype Bounds = Bounds(xMin: real, xMax: real, yMin: real, yMax: real)

  function Xs(nodes: seq<GraphNode>): (xs: seq<real>)
    ensures |xs| == |nodes| && forall i :: 0 <= i < |nodes| ==> xs[i] == nodes[i].x
  {
    seq(|nodes|, i requires 0 <= i < |nodes| => nodes[i].x)
  }

  function Ys(nodes: seq<GraphNode>): (ys: seq<real>)
    ensures |ys| == |nodes| && forall i :: 0 <= i < |nodes| ==> ys[i] == nodes[i].y
  {
    seq(|nodes|, i requires 0 <= i < |nodes| => nodes[i].y)
  }

  function BoundsOf(nodes: seq<GraphNode>): (b: Bounds)
    requires |nodes| > 0
    ensures b.xMin <= b.xMax && b.yMin <= b.yMax
    ensures forall i :: 0 <= i < |nodes| ==>
      b.xMin <= nodes[i].x <= b.xMax && b.yMin <= nodes[i].y <= b.yMax
  {
    var xs := Xs(nodes);
    var ys := Ys(nodes);
    assert xs[0] == nodes[0].x && ys[0] == nodes[0].y;
    Bounds(SeqMin(xs), SeqMax(xs), SeqMin(ys), SeqMax(ys))
  }

  /** Latitude comes from `y`, longitude from `x`. */
  function Place(x: real, y: real, b: Bounds): (p: LatLon)
    requires b.xMin <= b.xMax && b.yMin <= b.yMax
    ensures p == LatLon(ScaleLinear(y, b.yMin, b.yMax, LatMin, LatMax),
                        ScaleLinear(x, b.xMin, b.xMax, LonMin, LonMax))
  {
    LatLon(ScaleLinear(y, b.yMin, b.yMax, LatMin, LatMax),
           ScaleLinear(x, b.xMin, b.xMax, LonMin, LonMax))
  }

  predicate InBox(p: LatLon)
  {
    LatMin <= p.lat <= LatMax && LonMin <= p.lon <= LonMax
  }

  /** `nodes.map(node => ({ ...node, lat, lon }))`: every node keeps its fields and lands
      in the box. */
  function ScaleNodes(nodes: seq<GraphNode>): (r: seq<ScaledNode>)
    requires |nodes| > 0
    ensures |r| == |nodes|
    ensures forall i :: 0 <= i < |nodes| ==>
      r[i].node == nodes[i] && r[i].pos == Place(nodes[i].x, nodes[i].y, BoundsOf(nodes)) &&
      InBox(r[i].pos)
  {
    var b := BoundsOf(nodes);
    seq(|nodes|, i requires 0 <= i < |nodes| => ScaledNode(nodes[i], Place(nodes[i].x, nodes[i].y, b)))
  }

  /** The map centre: the scaled midpoint of the bounds, that is the middle of the box on
      each axis whose data range is not degenerate, and the box's lower edge otherwise. */
  function Centre(b: Bounds): (c: LatLon)
    requires b.xMin <= b.xMax && b.yMin <= b.yMax
    ensures c == Place((b.xMin + b.xMax) / 2.0, (b.yMin + b.yMax) / 2.0, b)
    ensures c.lat == (if b.yMin < b.yMax then (LatMin + LatMax) / 2.0 else LatMin)
    ensures c.lon == (if b.xMin < b.xMax then (LonMin + LonMax) / 2.0 else LonMin)
    ensures InBox(c)
  {
    ScaleLinearMidpoint(b.yMin, b.yMax, LatMin, LatMax);
    ScaleLinearMidpoint(b.xMin, b.xMax, LonMin, LonMax);
    Place((b.xMin + b.xMax) / 2.0, (b.yMin + b.yMax) / 2.0, b)
  }

  /** `scaledNodes.find(n => n.id === id)`. */
  function Lookup(scaled: seq<ScaledNode>, id: NodeId): (r: Option<ScaledNode>)
    ensures r.Some? <==> exists i :: 0 <= i < |scaled| && scaled[i].node.id == id
    ensures r.Some? ==> r.value in scaled && r.value.node.id == id
  {
    if |scaled| == 0 then None
    else if scaled[0].node.id == id then Some(scaled[0])
    else
      var r := Lookup(scaled[1..], id);
      assert forall i :: 1 <= i < |scaled| ==> scaled[i] == scaled[1..][i - 1];
      r
  }

  /** The identity read from a link endpoint as written: `link.source.id`. A bare number has
      no `id` property, so only a node object yields one. */
  function EndpointIdAsWritten(e: Endpoint): (r: Option<NodeId>)
    ensures r.Some? <==> e.ByNode?
    ensures e.ByNode? ==> r == Some(e.node.id)
  {
    match e
    case ById(_) => None
    case ByNode(n) => Some(n.id)
  }

  /** The identity a link endpoint denotes, whichever form it takes. */
  function EndpointId(e: Endpoint): (r: Option<NodeId>)
    ensures r.Some?
    ensures r.value == (if e.ById? then e.id else e.node.id)
  {
    match e
    case ById(id) => Some(id)
    case ByNode(n) => Some(n.id)
  }

  /** One link, the `index`-th, as a pair of positions, or `None` when an endpoint does not
      resolve to a scaled node. */
  function ScaleLink(scaled: seq<ScaledNode>, l: Link, index: nat, key: Endpoint -> Option<NodeId>)
    : (r: Option<ScaledLink>)
    ensures r.Some? <==>
      key(l.source).Some? && key(l.target).Some? &&
      Lookup(scaled, key(l.source).value).Some? && Lookup(scaled, key(l.target).value).Some?
    ensures r.Some? ==>
      r.value == ScaledLink(index, Lookup(scaled, key(l.source).value).value.pos,
                            Lookup(scaled, key(l.target).value).value.pos)
  {
    var s := key(l.source);
    var t := key(l.target);
    if s.None? || t.None? then None
    else
      var sn := Lookup(scaled, s.value);
      var tn := Lookup(scaled, t.value);
      if sn.Some? && tn.Some? then Some(ScaledLink(index, sn.value.pos, tn.value.pos)) else None
  }

  /** `r` lists resolved links of `links`, whose first element sits at position `offset`:
      each is the resolution of the link its id names, and the ids strictly increase. */
  predicate LinksOf(r: seq<ScaledLink>, scaled: seq<ScaledNode>, links: seq<Link>, offset: nat,
                    key: Endpoint -> Option<NodeId>)
  {
    (forall k :: 0 <= k < |r| ==>
       offset <= r[k].id < offset + |links| &&
       ScaleLink(scaled, links[r[k].id - offset], r[k].id, key) == Some(r[k])) &&
    (forall k, m :: 0 <= k < m < |r| ==> r[k].id < r[m].id)
  }

  /** Resolved links of the links after the first are resolved links of all of them. */
  lemma WidenLinks(r: seq<ScaledLink>, scaled: seq<ScaledNode>, links: seq<Link>, offset: nat,
                   key: Endpoint -> Option<NodeId>)
    requires |links| > 0 && LinksOf(r, scaled, links[1..], offset + 1, key)
    ensures LinksOf(r, scaled, links, offset, key)
    ensures forall k :: 0 <= k < |r| ==> offset < r[k].id
  {
    forall k | 0 <= k < |r|
      ensures links[r[k].id - offset] == links[1..][r[k].id - (offset + 1)]
    {
    }
  }

  /** The first link's resolution goes in front of the resolutions of the later ones. */
  lemma PrependLink(l: ScaledLink, r: seq<ScaledLink>, scaled: seq<ScaledNode>, links: seq<Link>,
                    offset: nat, key: Endpoint -> Option<NodeId>)
    requires |links| > 0 && ScaleLink(scaled, links[0], offset, key) == Some(l)
    requires LinksOf(r, scaled, links, offset, key)
    requires forall k :: 0 <= k < |r| ==> offset < r[k].id
    ensures LinksOf([l] + r, scaled, links, offset, key)
  {
    var s := [l] + r;
    assert l.id == offset;
    forall k | 0 <= k < |s|
      ensures offset <= s[k].id < offset + |links|
      ensures ScaleLink(scaled, links[s[k].id - offset], s[k].id, key) == Some(s[k])
    {
      if k > 0 {
        assert s[k] == r[k - 1];
      }
    }
    forall k, m | 0 <= k < m < |s|
      ensures s[k].id < s[m].id
    {
      assert s[m] == r[m - 1];
      if k > 0 {
        assert s[k] == r[k - 1];
      }
    }
  }

  /** `links.map((link, index) => ...).filter(Boolean)` over the links from position
      `offset` on: the resolvable links in order, each carrying its position as id. */
  function ScaleLinks(scaled: seq<ScaledNode>, links: seq<Link>, offset: nat,
                      key: Endpoint -> Option<NodeId>): (r: seq<ScaledLink>)
    ensures |r| <= |links|
    ensures LinksOf(r, scaled, links, offset, key)
  {
    if |links| == 0 then []
    else
      var rest := ScaleLinks(scaled, links[1..], offset + 1, key);
      WidenLinks(rest, scaled, links, offset, key);
      var here := ScaleLink(scaled, links[0], offset, key);
      if here.Some? then
        PrependLink(here.value, rest, scaled, links, offset, key);
        [here.value] + rest
      else rest
  }

  /** No resolvable link is dropped. */
  lemma {:induction false} ScaleLinksComplete(scaled: seq<ScaledNode>, links: seq<Link>, offset: nat,
                                              key: Endpoint -> Option<NodeId>, i: nat)
    requires i < |links| && ScaleLink(scaled, links[i], offset + i, key).Some?
    ensures ScaleLink(scaled, links[i], offset + i, key).value in ScaleLinks(scaled, links, offset, key)
  {
    var full := ScaleLinks(scaled, links, offset, key);
    var rest := ScaleLinks(scaled, links[1..], offset + 1, key);
    var here := ScaleLink(scaled, links[0], offset, key);
    assert full == (if here.Some? then [here.value] + rest else rest);
    if i == 0 {
      assert full[0] == here.value;
    } else {
      assert links[i] == links[1..][i - 1];
      ScaleLinksComplete(scaled, links[1..], offset + 1, key, i - 1);
      var x := ScaleLink(scaled, links[i], offset + i, key).value;
      assert x in rest;
    }
  }

  /** What the map view draws. */
  datatype Layout = Layout(nodes: seq<ScaledNode>, links: seq<ScaledLink>, centre: LatLon)

  /** The scaled data: `None` without nodes, otherwise the scaled nodes, links and centre. */
  function ScaledData(nodes: seq<GraphNode>, links: seq<Link>, key: Endpoint -> Option<NodeId>)
    : (r: Option<Layout>)
    ensures r.None? <==> |nodes| == 0
    ensures r.Some? ==>
      r.value.nodes == ScaleNodes(nodes) &&
      r.value.links == ScaleLinks(r.value.nodes, links, 0, key) &&
      r.value.centre == Centre(BoundsOf(nodes)) &&
      InBox(r.value.centre) &&
      forall i :: 0 <= i < |r.value.nodes| ==> InBox(r.value.nodes[i].pos)
  {
    if |nodes| == 0 then None
    else
      var scaled := ScaleNodes(nodes);
      Some(Layout(scaled, ScaleLinks(scaled, links, 0, key), Centre(BoundsOf(nodes))))
  }

  /** As written, a link whose endpoints are the bare identities the back end sends is
      dropped even though both nodes are on the map. */
  lemma BareLinkDropped(a: GraphNode, b: GraphNode)
    ensures ScaledData([a, b], [Link(ById(a.id), ById(b.id))], EndpointIdAsWritten).value.links == []
    ensures |ScaledData([a, b], [Link(ById(a.id), ById(b.id))], EndpointId).value.links| == 1
  {
    var nodes := [a, b];
    var links := [Link(ById(a.id), ById(b.id))];
    var scaled := ScaleNodes(nodes);
    assert scaled[0].node.id == a.id && scaled[1].node.id == b.id;
    assert Lookup(scaled, a.id).Some? && Lookup(scaled, b.id).Some?;
    assert ScaleLink(scaled, links[0], 0, EndpointId).Some?;
    ScaleLinksComplete(scaled, links, 0, EndpointId, 0);
  }
}
