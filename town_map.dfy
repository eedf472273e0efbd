/** The canvas town map: scales node positions onto the canvas, fits the view to them, culls what
    lies off screen, highlights transmission edges, and handles wheel, button and drag zoom and
    pan, and the jump to the busiest infection source. */
module TownMap {
  import opened Common

  /** The canvas size in pixels. */
  datatype Dims = Dims(width: real, height: real)

  /** The view transform: screen = world * scale + (x, y). */
  datatype Transform = Transform(x: real, y: real, scale: real)

  /** A node with its position on the unzoomed canvas. */
  datatype ScaledNode = ScaledNode(node: GraphNode, sx: real, sy: real)

  datatype ScaledLink = ScaledLink(source: ScaledNode, target: ScaledNode)

  const Padding: real := 50.0

  /** The transform before any fit: no offset, scale 2. */
  const InitialTransform := Transform(0.0, 0.0, 2.0)

  /** `scaleX` / `scaleY`: maps [lo, hi] linearly onto [Padding, extent + Padding], where
      `extent` is the canvas size less both paddings; a zero range sends everything to the
      middle of the canvas. */
  function ScaleAxis(v: real, lo: real, hi: real, extent: real): (r: real)
    ensures hi - lo != 0.0 && v == lo ==> r == Padding
    ensures hi - lo != 0.0 && v == hi ==> r == extent + Padding
    ensures hi - lo == 0.0 ==> r == extent / 2.0 + Padding
    ensures lo <= v <= hi && extent >= 0.0 ==> Padding <= r <= extent + Padding
  {
    var range := hi - lo;
    if range == 0.0 then extent / 2.0 + Padding
    else
      var r := ((v - lo) / range) * extent + Padding;
      assert lo <= v <= hi && range != 0.0 ==> 0.0 <= (v - lo) / range <= 1.0 by {
        if lo <= v <= hi && range != 0.0 {
          assert (v - lo) / range * range == v - lo;
        }
      }
      assert lo <= v <= hi && extent >= 0.0 && range != 0.0 ==> 0.0 <= ((v - lo) / range) * extent <= extent by {
        if lo <= v <= hi && extent >= 0.0 && range != 0.0 {
          MulBetween((v - lo) / range, extent);
        }
      }
      r
  }

  lemma MulBetween(a: real, e: real)
    requires 0.0 <= a <= 1.0 && e >= 0.0
    ensures 0.0 <= a * e <= e
  {
    assert e - a * e == (1.0 - a) * e;
  }

  function Xs(nodes: seq<GraphNode>): (r: seq<real>)
    ensures |r| == |nodes| && forall i :: 0 <= i < |r| ==> r[i] == nodes[i].x
  {
    seq(|nodes|, i requires 0 <= i < |nodes| => nodes[i].x)
  }

  function Ys(nodes: seq<GraphNode>): (r: seq<real>)
    ensures |r| == |nodes| && forall i :: 0 <= i < |r| ==> r[i] == nodes[i].y
  {
    seq(|nodes|, i requires 0 <= i < |nodes| => nodes[i].y)
  }

  /** The layout effect's node scaling: every node keeps its data and gains a canvas position
      inside the padded canvas. */
  function ScaleNodes(nodes: seq<GraphNode>, dims: Dims): (r: seq<ScaledNode>)
    ensures |r| == |nodes|
    ensures forall i :: 0 <= i < |r| ==> r[i].node == nodes[i]
    ensures dims.width >= 2.0 * Padding ==> forall i :: 0 <= i < |r| ==> Padding <= r[i].sx <= dims.width - Padding
    ensures dims.height >= 2.0 * Padding ==> forall i :: 0 <= i < |r| ==> Padding <= r[i].sy <= dims.height - Padding
    ensures |nodes| > 0 ==> forall i :: 0 <= i < |r| ==>
              r[i].sx == ScaleAxis(nodes[i].x, SeqMin(Xs(nodes)), SeqMax(Xs(nodes)), dims.width - 2.0 * Padding) &&
              r[i].sy == ScaleAxis(nodes[i].y, SeqMin(Ys(nodes)), SeqMax(Ys(nodes)), dims.height - 2.0 * Padding)
  {
    if |nodes| == 0 then []
    else
      var xs, ys := Xs(nodes), Ys(nodes);
      var xMin, xMax, yMin, yMax := SeqMin(xs), SeqMax(xs), SeqMin(ys), SeqMax(ys);
      seq(|nodes|, i requires 0 <= i < |nodes| =>
        ScaledNode(nodes[i],
                   ScaleAxis(nodes[i].x, xMin, xMax, dims.width - 2.0 * Padding),
                   ScaleAxis(nodes[i].y, yMin, yMax, dims.height - 2.0 * Padding)))
  }

  /** Coordinate `i` is a smallest of `xs`. */
  predicate Lowest(xs: seq<real>, i: nat)
    requires i < |xs|
  {
    forall k :: 0 <= k < |xs| ==> xs[i] <= xs[k]
  }

  /** Coordinate `i` is a largest of `xs`. */
  predicate Highest(xs: seq<real>, i: nat)
    requires i < |xs|
  {
    forall k :: 0 <= k < |xs| ==> xs[k] <= xs[i]
  }

  /** Every coordinate of `xs` equals coordinate `i`. */
  predicate Flat(xs: seq<real>, i: nat)
    requires i < |xs|
  {
    forall k :: 0 <= k < |xs| ==> xs[k] == xs[i]
  }

  /** The node scaling stretches each axis over the padded canvas: a node of smallest
      coordinate lands on the padding, one of largest coordinate on the far padding, and when
      all nodes share the coordinate they all land in the middle of the canvas. */
  lemma ScaleNodesSpan(nodes: seq<GraphNode>, dims: Dims, i: nat)
    requires i < |nodes|
    ensures var sx := ScaleNodes(nodes, dims)[i].sx;
            (Lowest(Xs(nodes), i) && !Flat(Xs(nodes), i) ==> sx == Padding) &&
            (Highest(Xs(nodes), i) && !Flat(Xs(nodes), i) ==> sx == dims.width - Padding) &&
            (Flat(Xs(nodes), i) ==> sx == dims.width / 2.0)
    ensures var sy := ScaleNodes(nodes, dims)[i].sy;
            (Lowest(Ys(nodes), i) && !Flat(Ys(nodes), i) ==> sy == Padding) &&
            (Highest(Ys(nodes), i) && !Flat(Ys(nodes), i) ==> sy == dims.height - Padding) &&
            (Flat(Ys(nodes), i) ==> sy == dims.height / 2.0)
  {
    AxisSpan(Xs(nodes), i, dims.width - 2.0 * Padding);
    AxisSpan(Ys(nodes), i, dims.height - 2.0 * Padding);
  }

  /** Where `ScaleAxis` puts coordinate `i` of `xs`, scaled between the smallest and the
      largest coordinate. */
  lemma AxisSpan(xs: seq<real>, i: nat, extent: real)
    requires i < |xs|
    ensures var r := ScaleAxis(xs[i], SeqMin(xs), SeqMax(xs), extent);
            (Lowest(xs, i) && !Flat(xs, i) ==> r == Padding) &&
            (Highest(xs, i) && !Flat(xs, i) ==> r == extent + Padding) &&
            (Flat(xs, i) ==> r == extent / 2.0 + Padding)
  {
    var lo :| 0 <= lo < |xs| && xs[lo] == SeqMin(xs);
    var hi :| 0 <= hi < |xs| && xs[hi] == SeqMax(xs);
    if !Flat(xs, i) {
      var k :| 0 <= k < |xs| && xs[k] != xs[i];
      assert SeqMin(xs) <= xs[k] <= SeqMax(xs) && SeqMin(xs) <= xs[i] <= SeqMax(xs);
      assert SeqMax(xs) - SeqMin(xs) != 0.0;
    } else {
      assert xs[lo] == xs[i] == xs[hi];
    }
  }

  /** The first scaled node with identity `id`. */
  function FindScaled(scaled: seq<ScaledNode>, id: NodeId): (r: Option<ScaledNode>)
    ensures r.Some? <==> exists i :: 0 <= i < |scaled| && scaled[i].node.id == id
    ensures r.Some? ==> r.value in scaled && r.value.node.id == id
  {
    if |scaled| == 0 then None
    else if scaled[0].node.id == id then Some(scaled[0])
    else
      var r := FindScaled(scaled[1..], id);
      assert forall i :: 0 < i < |scaled| ==> scaled[i] == scaled[1..][i - 1];
      r
  }

  /** `link.source.id || link.source` as written: a bare id is kept, and so is the id of a node
      object unless that id is 0, which is falsy, so the node object itself becomes the key and
      matches no identity. */
  function LinkKeyAsWritten(e: Endpoint): (k: Option<NodeId>)
    ensures e.ById? ==> k == Some(e.id)
    ensures e.ByNode? ==> (k.Some? <==> e.node.id != 0)
  {
    match e
    case ById(id) => Some(id)
    case ByNode(n) => if n.id != 0 then Some(n.id) else None
  }

  /** The identity an endpoint refers to, in either form. */
  function LinkKey(e: Endpoint): (k: Option<NodeId>)
    ensures k.Some? && (e.ById? ==> k.value == e.id) && (e.ByNode? ==> k.value == e.node.id)
  {
    match e
    case ById(id) => Some(id)
    case ByNode(n) => Some(n.id)
  }

  /** The scaled link for `l` under the endpoint keying `key`, when both endpoints resolve. */
  function ResolveLink(scaled: seq<ScaledNode>, l: Link, key: Endpoint -> Option<NodeId>): Option<ScaledLink>
  {
    var s := if key(l.source).Some? then FindScaled(scaled, key(l.source).value) else None;
    var t := if key(l.target).Some? then FindScaled(scaled, key(l.target).value) else None;
    if s.Some? && t.Some? then Some(ScaledLink(s.value, t.value)) else None
  }

  /** The layout effect's link resolution: links with an unresolved endpoint are dropped, the
      rest keep their order. */
  function ResolveWith(scaled: seq<ScaledNode>, links: seq<Link>, key: Endpoint -> Option<NodeId>): (r: seq<ScaledLink>)
    ensures |r| <= |links|
    ensures forall l :: l in r ==> l.source in scaled && l.target in scaled
    ensures forall l :: l in r <==> exists j :: 0 <= j < |links| && ResolveLink(scaled, links[j], key) == Some(l)
  {
    if |links| == 0 then []
    else
      var rest := ResolveWith(scaled, links[1..], key);
      assert forall j :: 0 < j < |links| ==> links[j] == links[1..][j - 1];
      var here := ResolveLink(scaled, links[0], key);
      (if here.Some? then [here.value] else []) + rest
  }

  /** Link resolution as written drops every link whose endpoint is the node object of node 0,
      although that node is present. */
  lemma NodeZeroLinkDropped(n0: GraphNode, other: GraphNode)
    requires n0.id == 0 && other.id != 0
    ensures var scaled := [ScaledNode(n0, 0.0, 0.0), ScaledNode(other, 0.0, 0.0)];
            var links := [Link(ByNode(n0), ByNode(other))];
            ResolveWith(scaled, links, LinkKeyAsWritten) == [] &&
            |ResolveWith(scaled, links, LinkKey)| == 1
  {
    var scaled := [ScaledNode(n0, 0.0, 0.0), ScaledNode(other, 0.0, 0.0)];
    var links := [Link(ByNode(n0), ByNode(other))];
    assert FindScaled(scaled, 0) == Some(scaled[0]);
    assert FindScaled(scaled, other.id) == Some(scaled[1]);
    assert ResolveLink(scaled, links[0], LinkKeyAsWritten) == None;
    assert links[1..] == [];
  }

  /** With the corrected keying, a link whose two endpoints are among the nodes is kept. */
  lemma ResolvedWhenPresent(scaled: seq<ScaledNode>, links: seq<Link>, j: nat)
    requires j < |links|
    requires FindScaled(scaled, LinkKey(links[j].source).value).Some?
    requires FindScaled(scaled, LinkKey(links[j].target).value).Some?
    ensures exists l :: l in ResolveWith(scaled, links, LinkKey) &&
                        l.source.node.id == LinkKey(links[j].source).value &&
                        l.target.node.id == LinkKey(links[j].target).value
  {
    var l := ResolveLink(scaled, links[j], LinkKey).value;
    assert l in ResolveWith(scaled, links, LinkKey);
  }

  /** The outcome of the fit step of the layout effect. */
  datatype FitResult = Unchanged | Fitted(t: Transform) | NonFinite

  function Mean(xs: seq<real>): real
    requires |xs| > 0
  {
    Sum(xs) / (|xs| as real)
  }

  function Min3(a: real, b: real, c: real): (m: real)
    ensures m <= a && m <= b && m <= c && (m == a || m == b || m == c)
  {
    if a <= b && a <= c then a else if b <= c then b else c
  }

  function ScreenXs(scaled: seq<ScaledNode>): (r: seq<real>)
    ensures |r| == |scaled| && forall i :: 0 <= i < |r| ==> r[i] == scaled[i].sx
  {
    seq(|scaled|, i requires 0 <= i < |scaled| => scaled[i].sx)
  }

  function ScreenYs(scaled: seq<ScaledNode>): (r: seq<real>)
    ensures |r| == |scaled| && forall i :: 0 <= i < |r| ==> r[i] == scaled[i].sy
  {
    seq(|scaled|, i requires 0 <= i < |scaled| => scaled[i].sy)
  }

  /** The larger of the two screen-space extents of the scaled nodes. */
  function MaxRange(scaled: seq<ScaledNode>): (m: real)
    requires |scaled| > 0
    ensures m >= 0.0
    ensures forall i, j :: 0 <= i < |scaled| && 0 <= j < |scaled| ==>
              scaled[i].sx - scaled[j].sx <= m && scaled[i].sy - scaled[j].sy <= m
    ensures (exists i, j :: 0 <= i < |scaled| && 0 <= j < |scaled| && scaled[i].sx - scaled[j].sx == m) ||
            (exists i, j :: 0 <= i < |scaled| && 0 <= j < |scaled| && scaled[i].sy - scaled[j].sy == m)
  {
    ScreenSpans(scaled);
    var xr, yr := Span(ScreenXs(scaled)), Span(ScreenYs(scaled));
    if xr >= yr then xr else yr
  }

  /** Each screen span bounds the differences along its axis and is one of them. */
  lemma ScreenSpans(scaled: seq<ScaledNode>)
    requires |scaled| > 0
    ensures forall i, j :: 0 <= i < |scaled| && 0 <= j < |scaled| ==>
              scaled[i].sx - scaled[j].sx <= Span(ScreenXs(scaled)) &&
              scaled[i].sy - scaled[j].sy <= Span(ScreenYs(scaled))
    ensures exists i, j :: 0 <= i < |scaled| && 0 <= j < |scaled| && scaled[i].sx - scaled[j].sx == Span(ScreenXs(scaled))
    ensures exists i, j :: 0 <= i < |scaled| && 0 <= j < |scaled| && scaled[i].sy - scaled[j].sy == Span(ScreenYs(scaled))
  {
    var xs, ys := ScreenXs(scaled), ScreenYs(scaled);
    var i, j := SpanEnds(xs);
    assert scaled[i].sx - scaled[j].sx == Span(xs);
    var k, l := SpanEnds(ys);
    assert scaled[k].sy - scaled[l].sy == Span(ys);
  }

  /** `Math.max(...xs) - Math.min(...xs)`: the extent of one axis. */
  function Span(xs: seq<real>): (r: real)
    requires |xs| > 0
    ensures r >= 0.0
    ensures forall i, j :: 0 <= i < |xs| && 0 <= j < |xs| ==> xs[i] - xs[j] <= r
  {
    SeqMax(xs) - SeqMin(xs)
  }

  /** Positions of a largest and a smallest value of `xs`, which differ by the span. */
  lemma SpanEnds(xs: seq<real>) returns (i: nat, j: nat)
    requires |xs| > 0
    ensures i < |xs| && j < |xs| && xs[i] - xs[j] == Span(xs)
  {
    i :| 0 <= i < |xs| && xs[i] == SeqMax(xs);
    j :| 0 <= j < |xs| && xs[j] == SeqMin(xs);
  }

  /** The fit step: without nodes the transform is left alone; otherwise the scale is the
      largest that fits the node spread into the canvas less 100 pixels, capped at 2, and the
      translation puts the mean node position at the canvas centre. When every node sits at the
      same screen position the source divides by zero: the quotients are infinite and the cap
      wins on a canvas wider and taller than 100 pixels, and the result is not finite otherwise. */
  function Fit(scaled: seq<ScaledNode>, dims: Dims): (r: FitResult)
    ensures r.Unchanged? <==> |scaled| == 0
    ensures r.NonFinite? <==> |scaled| > 0 && MaxRange(scaled) == 0.0 && (dims.width <= 100.0 || dims.height <= 100.0)
    ensures r.Fitted? ==> r.t.scale <= 2.0
    ensures r.Fitted? ==> r.t == CentreMean(Mean(ScreenXs(scaled)), Mean(ScreenYs(scaled)), r.t.scale, dims)
    ensures r.Fitted? && MaxRange(scaled) > 0.0 ==> r.t.scale == FitScale(MaxRange(scaled), dims)
    ensures r.Fitted? && MaxRange(scaled) == 0.0 ==> r.t.scale == 2.0
  {
    if |scaled| == 0 then Unchanged
    else
      var maxRange := MaxRange(scaled);
      if maxRange == 0.0 then
        if dims.width > 100.0 && dims.height > 100.0 then
          Fitted(CentreMean(Mean(ScreenXs(scaled)), Mean(ScreenYs(scaled)), 2.0, dims))
        else NonFinite
      else
        Fitted(CentreMean(Mean(ScreenXs(scaled)), Mean(ScreenYs(scaled)), FitScale(maxRange, dims), dims))
  }

  /** The transform of scale `s` that puts the point (avgX, avgY) at the canvas centre. */
  function CentreMean(avgX: real, avgY: real, s: real, dims: Dims): (t: Transform)
    ensures t.scale == s
    ensures avgX * t.scale + t.x == dims.width / 2.0 && avgY * t.scale + t.y == dims.height / 2.0
  {
    Transform(dims.width / 2.0 - avgX * s, dims.height / 2.0 - avgY * s, s)
  }

  /** `Math.min((width - 100) / maxRange, (height - 100) / maxRange, 2)` for a positive spread:
      the largest scale, up to 2, at which the spread fits both canvas sizes less 100 pixels. */
  function FitScale(maxRange: real, dims: Dims): (s: real)
    requires maxRange > 0.0
    ensures s <= 2.0 && s * maxRange <= dims.width - 100.0 && s * maxRange <= dims.height - 100.0
    ensures s == 2.0 || s * maxRange == dims.width - 100.0 || s * maxRange == dims.height - 100.0
  {
    var s := Min3((dims.width - 100.0) / maxRange, (dims.height - 100.0) / maxRange, 2.0);
    DivMul(s, dims.width - 100.0, maxRange);
    DivMul(s, dims.height - 100.0, maxRange);
    s
  }

  lemma DivMul(s: real, a: real, m: real)
    requires m > 0.0 && s <= a / m
    ensures s * m <= a && (s == a / m ==> s * m == a)
  {
  }

  /** `isInViewport`: the drawing's culling rectangle in world units, the canvas enlarged by 100
      screen pixels on every side. */
  predicate InViewport(t: Transform, dims: Dims, px: real, py: real)
    requires t.scale != 0.0
  {
    var margin := 100.0 / t.scale;
    var minX := -t.x / t.scale - margin;
    var maxX := (dims.width - t.x) / t.scale + margin;
    var minY := -t.y / t.scale - margin;
    var maxY := (dims.height - t.y) / t.scale + margin;
    minX <= px <= maxX && minY <= py <= maxY
  }

  /** With a positive scale, a world point is kept exactly when its screen position lies within
      100 pixels of the canvas. */
  lemma InViewportIffOnScreen(t: Transform, dims: Dims, px: real, py: real)
    requires t.scale > 0.0
    ensures InViewport(t, dims, px, py) <==>
            -100.0 <= px * t.scale + t.x <= dims.width + 100.0 &&
            -100.0 <= py * t.scale + t.y <= dims.height + 100.0
  {
    AxisIff(t.x, t.scale, dims.width, px);
    AxisIff(t.y, t.scale, dims.height, py);
  }

  lemma AxisIff(o: real, s: real, extent: real, p: real)
    requires s > 0.0
    ensures (-o / s - 100.0 / s <= p <= (extent - o) / s + 100.0 / s) <==>
            -100.0 <= p * s + o <= extent + 100.0
  {
    assert -o / s - 100.0 / s == (-100.0 - o) / s;
    assert (extent - o) / s + 100.0 / s == (extent + 100.0 - o) / s;
    DivLe(-100.0 - o, s, p);
    LeDiv(p, extent + 100.0 - o, s);
  }

  lemma DivLe(a: real, s: real, p: real)
    requires s > 0.0
    ensures a / s <= p <==> a <= p * s
  {
    assert a / s * s == a;
    if a / s <= p {
      assert a / s * s <= p * s;
    } else {
      assert p * s < a / s * s;
    }
  }

  lemma LeDiv(p: real, a: real, s: real)
    requires s > 0.0
    ensures p <= a / s <==> p * s <= a
  {
    assert a / s * s == a;
    if p <= a / s {
      assert p * s <= a / s * s;
    } else {
      assert a / s * s < p * s;
    }
  }

  predicate Visible(t: Transform, dims: Dims, n: ScaledNode)
    requires t.scale != 0.0
  {
    InViewport(t, dims, n.sx, n.sy)
  }

  /** The grey edges the frame strokes: those with at least one endpoint in the viewport. */
  function BackgroundEdges(links: seq<ScaledLink>, t: Transform, dims: Dims): (r: seq<ScaledLink>)
    requires t.scale != 0.0
    ensures |r| <= |links|
    ensures forall l :: l in r <==> l in links && (Visible(t, dims, l.source) || Visible(t, dims, l.target))
  {
    if |links| == 0 then []
    else
      var rest := BackgroundEdges(links[1..], t, dims);
      assert forall l :: l in links <==> l == links[0] || l in links[1..];
      (if Visible(t, dims, links[0].source) || Visible(t, dims, links[0].target) then [links[0]] else []) + rest
  }

  /** `nodeStates[id]`: the state string, or nothing when the node has none. */
  function StateOf(states: map<NodeId, string>, id: NodeId): Option<string>
  {
    if id in states then Some(states[id]) else None
  }

  /** A transmission edge: its source is exactly infected and its target exactly susceptible
      (a missing state does not count), and at least one endpoint is in the viewport. */
  predicate IsActive(l: ScaledLink, states: map<NodeId, string>, t: Transform, dims: Dims)
    requires t.scale != 0.0
  {
    StateOf(states, l.source.node.id) == Some("infected") &&
    StateOf(states, l.target.node.id) == Some("susceptible") &&
    (Visible(t, dims, l.source) || Visible(t, dims, l.target))
  }

  /** The active links among `links`, in order. */
  function Active(links: seq<ScaledLink>, states: map<NodeId, string>, t: Transform, dims: Dims): seq<ScaledLink>
    requires t.scale != 0.0
  {
    if |links| == 0 then []
    else
      var last := links[|links| - 1];
      Active(links[..|links| - 1], states, t, dims) + (if IsActive(last, states, t, dims) then [last] else [])
  }

  /** The active links are exactly the links that are active, kept in order. */
  lemma {:induction false} ActiveMembers(links: seq<ScaledLink>, states: map<NodeId, string>, t: Transform, dims: Dims)
    requires t.scale != 0.0
    ensures |Active(links, states, t, dims)| <= |links|
    ensures forall l :: l in Active(links, states, t, dims) <==> l in links && IsActive(l, states, t, dims)
  {
    if |links| > 0 {
      var init := links[..|links| - 1];
      ActiveMembers(init, states, t, dims);
      assert links == init + [links[|links| - 1]];
    }
  }

  /** A transmission edge is directional: the same edge reversed is never active as well. */
  lemma ActiveIsDirectional(a: ScaledNode, b: ScaledNode, states: map<NodeId, string>, t: Transform, dims: Dims)
    requires t.scale != 0.0 && IsActive(ScaledLink(a, b), states, t, dims)
    ensures !IsActive(ScaledLink(b, a), states, t, dims)
  {
  }

  /** The frame's `activeLinks` loop. */
  method ActiveLinks(links: seq<ScaledLink>, states: map<NodeId, string>, t: Transform, dims: Dims)
    returns (active: seq<ScaledLink>)
    requires t.scale != 0.0
    ensures active == Active(links, states, t, dims)
  {
    active := [];
    var i := 0;
    while i < |links|
      invariant i <= |links|
      invariant active == Active(links[..i], states, t, dims)
    {
      var link := links[i];
      assert links[..i + 1][..i] == links[..i];
      if StateOf(states, link.source.node.id) == Some("infected") &&
         StateOf(states, link.target.node.id) == Some("susceptible") {
        if Visible(t, dims, link.source) || Visible(t, dims, link.target) {
          active := active + [link];
        }
      }
      i := i + 1;
    }
    assert links[..i] == links;
  }

  /** `nodeStates[node.id] || 'susceptible'`: a missing or empty state reads as susceptible. */
  function DrawState(states: map<NodeId, string>, id: NodeId): (s: string)
    ensures id !in states ==> s == "susceptible"
    ensures id in states && states[id] != "" ==> s == states[id]
    ensures id in states && states[id] == "" ==> s == "susceptible"
  {
    if id in states && states[id] != "" then states[id] else "susceptible"
  }

  const InfectedColour := "#ef4444"
  const RecoveredColour := "#3b82f6"
  const OtherColour := "#10b981"

  /** `getNodeColor`: red for infected, blue for recovered, green for every other state. */
  function NodeColour(state: string): (c: string)
    ensures c == InfectedColour <==> state == "infected"
    ensures c == RecoveredColour <==> state == "recovered"
    ensures c == OtherColour <==> state != "infected" && state != "recovered"
  {
    if state == "infected" then InfectedColour
    else if state == "recovered" then RecoveredColour
    else OtherColour
  }

  /** The node radius: 10 for infected, 7 for everything else. */
  function NodeSize(state: string): (size: nat)
    ensures size == 10 <==> state == "infected"
    ensures size == 7 <==> state != "infected"
  {
    if state == "infected" then 10 else 7
  }

  /** A node without a state is drawn as a susceptible one: green and of radius 7. */
  lemma MissingStateLooksSusceptible(states: map<NodeId, string>, id: NodeId)
    requires id !in states
    ensures NodeColour(DrawState(states, id)) == NodeColour("susceptible") == OtherColour
    ensures NodeSize(DrawState(states, id)) == 7
  {
  }

  function Clamp(v: real, lo: real, hi: real): (r: real)
    requires lo <= hi
    ensures lo <= r <= hi
    ensures lo <= v <= hi ==> r == v
  {
    if v < lo then lo else if v > hi then hi else v
  }

  /** `handleWheel`, with the cursor at (ax, ay) on the canvas: the scale moves by 8 percent
      (down for a positive wheel delta) within [0.5, 10], and the translation keeps the world
      point under the cursor where it was on screen. From a zero scale the source's translation
      is not finite. */
  function Wheel(t: Transform, deltaY: real, ax: real, ay: real): (r: Option<Transform>)
    ensures r.None? <==> t.scale == 0.0
    ensures r.Some? ==> 0.5 <= r.value.scale <= 10.0
    ensures r.Some? ==> r.value.scale == Clamp(t.scale * (if deltaY > 0.0 then 0.92 else 1.08), 0.5, 10.0)
    ensures r.Some? ==> (ax - t.x) / t.scale * r.value.scale + r.value.x == ax &&
                        (ay - t.y) / t.scale * r.value.scale + r.value.y == ay
  {
    var delta := if deltaY > 0.0 then 0.92 else 1.08;
    var newScale := Clamp(t.scale * delta, 0.5, 10.0);
    if t.scale == 0.0 then None
    else
      var newX := ax - (ax - t.x) * (newScale / t.scale);
      var newY := ay - (ay - t.y) * (newScale / t.scale);
      assert (ax - t.x) / t.scale * newScale == (ax - t.x) * (newScale / t.scale);
      assert (ay - t.y) / t.scale * newScale == (ay - t.y) * (newScale / t.scale);
      Some(Transform(newX, newY, newScale))
  }

  /** The drag state: whether the mouse is down, and the grab offset. */
  datatype Drag = Drag(dragging: bool, startX: real, startY: real)

  /** `handleMouseDown` at client position (cx, cy). */
  function MouseDown(t: Transform, cx: real, cy: real): (d: Drag)
    ensures d.dragging && d.startX + t.x == cx && d.startY + t.y == cy
  {
    Drag(true, cx - t.x, cy - t.y)
  }

  /** `handleMouseMove` at client position (cx, cy): pans while dragging, else nothing. */
  function MouseMove(d: Drag, t: Transform, cx: real, cy: real): (r: Transform)
    ensures !d.dragging ==> r == t
    ensures r.scale == t.scale
  {
    if !d.dragging then t else t.(x := cx - d.startX, y := cy - d.startY)
  }

  /** `handleMouseUp`. */
  function MouseUp(d: Drag): (r: Drag)
    ensures !r.dragging
  {
    d.(dragging := false)
  }

  /** During a drag the translation is the one at the press shifted by exactly the mouse
      displacement since the press, whatever moves came between; the scale is left alone. */
  lemma DragFollowsMouse(t0: Transform, px: real, py: real, current: Transform, cx: real, cy: real)
    ensures var r := MouseMove(MouseDown(t0, px, py), current, cx, cy);
            r.x == t0.x + (cx - px) && r.y == t0.y + (cy - py) && r.scale == current.scale
  {
  }

  /** `handleZoomIn`: only the scale changes, to at most 5. */
  function ZoomIn(t: Transform): (r: Transform)
    ensures r.x == t.x && r.y == t.y && r.scale <= 5.0
    ensures t.scale * 1.3 <= 5.0 ==> r.scale == t.scale * 1.3
    ensures t.scale * 1.3 >= 5.0 ==> r.scale == 5.0
  {
    t.(scale := if 5.0 <= t.scale * 1.3 then 5.0 else t.scale * 1.3)
  }

  /** `handleZoomOut`: only the scale changes, to at least 0.1. */
  function ZoomOut(t: Transform): (r: Transform)
    ensures r.x == t.x && r.y == t.y && r.scale >= 0.1
    ensures t.scale / 1.3 >= 0.1 ==> r.scale == t.scale / 1.3
    ensures t.scale / 1.3 <= 0.1 ==> r.scale == 0.1
  {
    t.(scale := if 0.1 >= t.scale / 1.3 then 0.1 else t.scale / 1.3)
  }

  /** Zooming in and back out restores the transform while neither clamp applies. */
  lemma ZoomInThenOut(t: Transform)
    requires 0.1 <= t.scale && t.scale * 1.3 <= 5.0
    ensures ZoomOut(ZoomIn(t)) == t
  {
    assert t.scale * 1.3 / 1.3 == t.scale;
  }

  /** `handleZoomToFit`: back to the initial transform. */
  function ZoomToFit(t: Transform): (r: Transform)
    ensures r == InitialTransform
  {
    Transform(0.0, 0.0, 2.0)
  }

  /** How many of `links` have source `id` and an infected source. */
  function InfectedFrom(links: seq<ScaledLink>, states: map<NodeId, string>, id: NodeId): nat
  {
    if |links| == 0 then 0
    else
      var last := links[|links| - 1];
      InfectedFrom(links[..|links| - 1], states, id) +
      (if last.source.node.id == id && StateOf(states, id) == Some("infected") then 1 else 0)
  }

  /** The `infectionCounts` dictionary after the counting loop over `links`: one entry per
      infected source, holding the number of its links. */
  ghost predicate CountsOf(counts: map<NodeId, nat>, links: seq<ScaledLink>, states: map<NodeId, string>)
  {
    (forall id :: id in counts <==> InfectedFrom(links, states, id) > 0) &&
    (forall id :: id in counts ==> counts[id] == InfectedFrom(links, states, id))
  }

  /** The counting loop of `handleGoToHotspot`, and an upper bound on the keys it creates. */
  method CountInfections(links: seq<ScaledLink>, states: map<NodeId, string>)
    returns (counts: map<NodeId, nat>, bound: nat)
    ensures CountsOf(counts, links, states)
    ensures forall id :: id in counts ==> id < bound
  {
    counts, bound := map[], 0;
    var i := 0;
    while i < |links|
      invariant i <= |links|
      invariant CountsOf(counts, links[..i], states)
      invariant forall id :: id in counts ==> id < bound
    {
      var link := links[i];
      assert links[..i + 1][..i] == links[..i];
      var id := link.source.node.id;
      if StateOf(states, id) == Some("infected") {
        counts := counts[id := (if id in counts then counts[id] else 0) + 1];
        if bound <= id {
          bound := id + 1;
        }
      }
      i := i + 1;
    }
    assert links[..i] == links;
  }

  /** `Object.keys(infectionCounts).reduce(...)`: the keys of integer-like properties come in
      ascending order, and the reduction keeps the earlier key only when its count is strictly
      larger, so the result is a key of largest count, the largest such key on a tie; nothing
      when there are no keys. */
  method PickMax(counts: map<NodeId, nat>, bound: nat) returns (best: Option<NodeId>)
    requires forall id :: id in counts ==> id < bound
    ensures best.None? <==> |counts| == 0
    ensures best.Some? ==>
              best.value in counts &&
              (forall k :: k in counts ==>
                 counts[k] <= counts[best.value] && (counts[k] == counts[best.value] ==> k <= best.value))
  {
    best := None;
    var k := 0;
    while k < bound
      invariant k <= bound
      invariant best.None? <==> forall j :: j in counts ==> j >= k
      invariant best.Some? ==>
                  best.value in counts && best.value < k &&
                  (forall j :: j in counts && j < k ==>
                     counts[j] <= counts[best.value] && (counts[j] == counts[best.value] ==> j <= best.value))
    {
      if k in counts {
        if best.None? || !(counts[best.value] > counts[k]) {
          best := Some(k);
        }
      }
      k := k + 1;
    }
    if best.None? {
      assert forall j :: j !in counts;
      assert counts.Keys == {};
    }
  }

  /** The hotspot transform as written: the translation centres the node at the current scale,
      but the scale is then set to 2. */
  function CentreOnAsWritten(t: Transform, n: ScaledNode, dims: Dims): (r: Transform)
    ensures r.scale == 2.0
    ensures n.sx * t.scale + r.x == dims.width / 2.0 && n.sy * t.scale + r.y == dims.height / 2.0
  {
    Transform(dims.width / 2.0 - n.sx * t.scale, dims.height / 2.0 - n.sy * t.scale, 2.0)
  }

  /** As written the hotspot lands at the canvas centre only when the scale already was 2: from
      scale 1 a hotspot at (100, 100) on an 800 by 600 canvas ends up at (500, 400). */
  lemma HotspotOffCentre()
    ensures var n := ScaledNode(GraphNode(0, 0.0, 0.0), 100.0, 100.0);
            var r := CentreOnAsWritten(Transform(0.0, 0.0, 1.0), n, Dims(800.0, 600.0));
            n.sx * r.scale + r.x == 500.0 && n.sy * r.scale + r.y == 400.0
  {
  }

  /** The hotspot transform, centring the node at the scale it sets. */
  function CentreOn(n: ScaledNode, dims: Dims): (r: Transform)
    ensures r.scale == 2.0
    ensures n.sx * r.scale + r.x == dims.width / 2.0 && n.sy * r.scale + r.y == dims.height / 2.0
  {
    Transform(dims.width / 2.0 - n.sx * 2.0, dims.height / 2.0 - n.sy * 2.0, 2.0)
  }

  /** Node `id` is the hotspot: it is the source of at least one link while infected, no
      node is the infected source of more links, and no larger identity ties with it. */
  ghost predicate Hottest(links: seq<ScaledLink>, states: map<NodeId, string>, id: NodeId)
  {
    InfectedFrom(links, states, id) > 0 &&
    forall k: NodeId :: InfectedFrom(links, states, k) <= InfectedFrom(links, states, id) &&
                (InfectedFrom(links, states, k) == InfectedFrom(links, states, id) ==> k <= id)
  }

  /** There is at most one hotspot, and one exactly when some infected node is a link source. */
  lemma HottestUnique(links: seq<ScaledLink>, states: map<NodeId, string>, a: NodeId, b: NodeId)
    requires Hottest(links, states, a) && Hottest(links, states, b)
    ensures a == b
  {
    assert InfectedFrom(links, states, a) == InfectedFrom(links, states, b);
  }

  /** `handleGoToHotspot`: counts the links of every infected source and picks the hotspot;
      when that node is among the scaled nodes the transform is centred on it at the current
      scale and the scale set to 2; otherwise, and with no infected source, the transform is
      unchanged. */
  method GoToHotspot(nodes: seq<ScaledNode>, links: seq<ScaledLink>, states: map<NodeId, string>,
                     t: Transform, dims: Dims) returns (r: Transform)
    ensures forall id :: Hottest(links, states, id) && FindScaled(nodes, id).Some? ==>
              r == CentreOnAsWritten(t, FindScaled(nodes, id).value, dims)
    ensures forall id :: Hottest(links, states, id) && FindScaled(nodes, id).None? ==> r == t
    ensures (forall id :: !Hottest(links, states, id)) ==> r == t
    ensures (forall l :: l in links ==> StateOf(states, l.source.node.id) != Some("infected")) ==> r == t
  {
    var counts, bound := CountInfections(links, states);
    var best := PickMax(counts, bound);
    r := t;
    if best.Some? {
      var id := best.value;
      forall k: NodeId
        ensures InfectedFrom(links, states, k) <= InfectedFrom(links, states, id) &&
                (InfectedFrom(links, states, k) == InfectedFrom(links, states, id) ==> k <= id)
      {
        if k in counts {
        }
      }
      assert id in counts && InfectedFrom(links, states, id) > 0;
      InfectedFromMeansInfected(links, states, id);
      assert Hottest(links, states, id);
      forall other | Hottest(links, states, other)
        ensures other == id
      {
        HottestUnique(links, states, other, id);
      }
      var hot := FindScaled(nodes, id);
      if hot.Some? {
        r := CentreOnAsWritten(t, hot.value, dims);
      }
    } else {
      forall id: NodeId
        ensures InfectedFrom(links, states, id) == 0
      {
        assert id !in counts;
      }
    }
  }

  lemma {:induction false} InfectedFromMeansInfected(links: seq<ScaledLink>, states: map<NodeId, string>, id: NodeId)
    requires InfectedFrom(links, states, id) > 0
    ensures StateOf(states, id) == Some("infected")
    ensures exists l :: l in links && l.source.node.id == id
  {
    var last := links[|links| - 1];
    if InfectedFrom(links[..|links| - 1], states, id) > 0 {
      InfectedFromMeansInfected(links[..|links| - 1], states, id);
      var l :| l in links[..|links| - 1] && l.source.node.id == id;
      assert l in links;
    } else {
      assert last in links;
    }
  }
}
