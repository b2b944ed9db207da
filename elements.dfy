/** The cytoscape element list that `convert_graph_to_cyto` assembles after
    the label pass (visualize.py:85-104): one record per node and per edge,
    as networkx's `cytoscape_data` produces them, whose `classes` and
    `position` the two loops then fill in place. */
module Elements {
  import opened Wrappers
  import opened Attributes
  import opened Graphs

  /** A graphviz coordinate (the two numbers of a node's `pos` attribute). */
  datatype Coord = Coord(x: real, y: real)

  /** The positions graphviz's `dot` layout gives the nodes, by node name;
      a name without an entry is a node without a `pos` attribute. */
  type Layout = map<string, Coord>

  /** A cytoscape position: integer pixel coordinates. */
  datatype Point = Point(x: int, y: int)

  /** One element of the list: its `data` dict, and the `classes` and
      `position` keys, which the loops add. */
  datatype Element = Element(data: Attrs, classes: Option<Value>, position: Option<Point>)

  /** The ways the two loops of visualize.py:89-102 raise. */
  datatype BuildFailure =
    | MissingEndpoint                                 // `edge["data"]["source"]` or `["target"]` is absent
    | NoSuchEdge(source: Value, target: Value)        // `G[source][target]` is not an edge
    | MissingEdgeClasses(edge: Edge)                   // the edge has no `cyto_classes`
    | MissingNodeId                                   // `node["data"]["id"]` is absent
    | NoPosition(id: Value)                           // `N.get_node(id)` fails or has no `pos`
    | MissingNodeClasses(id: Value)                   // the node's data has no `cyto_classes`

  /** Python's `int(float(...))`: truncation toward zero. */
  function TruncateTowardZero(r: real): (n: int)
    ensures 0.0 <= r ==> 0 <= n && n as real <= r < n as real + 1.0
    ensures r < 0.0 ==> n <= 0 && n as real - 1.0 < r <= n as real
  {
    if 0.0 <= r then r.Floor else -((-r).Floor)
  }

  /** Truncation toward zero commutes with negation, unlike `Floor`. */
  lemma TruncateOdd(r: real)
    ensures TruncateTowardZero(-r) == -TruncateTowardZero(r)
  {
    if r != 0.0 && 0.0 <= r {
      assert -r < 0.0;
    }
  }

  /** `j.get(key) or str(i)`: the attribute when it is truthy, else the node name. */
  function OrName(a: Attrs, key: string, n: string): (v: Value)
    ensures key in a && Truthy(a[key]) ==> v == a[key]
    ensures !(key in a && Truthy(a[key])) ==> v == Text(n)
    ensures Truthy(v) || v == Text(n)
  {
    if key in a && Truthy(a[key]) then a[key] else Text(n)
  }

  /** The record networkx's `cytoscape_data` makes for node `n`: a copy of
      its attributes with `id`, `value` and `name` set. */
  function NodeRecord(n: string, a: Attrs): (e: Element)
    ensures e.data.Keys == a.Keys + {IdKey, ValueKey, NameKey}
    ensures e.data[IdKey] == OrName(a, IdKey, n) && e.data[ValueKey] == Text(n) && e.data[NameKey] == OrName(a, NameKey, n)
    ensures forall k :: k in a && k != IdKey && k != ValueKey && k != NameKey ==> e.data[k] == a[k]
    ensures e.classes.None? && e.position.None?
  {
    Element(a[IdKey := OrName(a, IdKey, n)][ValueKey := Text(n)][NameKey := OrName(a, NameKey, n)], None, None)
  }

  /** The record `cytoscape_data` makes for edge `e`: a copy of its
      attributes with `source` and `target` set. */
  function EdgeRecord(e: Edge, a: Attrs): (r: Element)
    ensures r.data.Keys == a.Keys + {SourceKey, TargetKey}
    ensures r.data[SourceKey] == Text(e.0) && r.data[TargetKey] == Text(e.1)
    ensures forall k :: k in a && k != SourceKey && k != TargetKey ==> r.data[k] == a[k]
    ensures r.classes.None? && r.position.None?
  {
    Element(a[SourceKey := Text(e.0)][TargetKey := Text(e.1)], None, None)
  }

  /** `cytoscape_data`'s node list: one record per node, in the graph's node order. */
  function NodeRecords(g: GraphData): (r: seq<Element>)
    requires Indexed(g)
    ensures |r| == |g.nodes|
    ensures forall i :: 0 <= i < |r| ==>
      && r[i].data.Keys == g.nodeAttrs[g.nodes[i]].Keys + {IdKey, ValueKey, NameKey}
      && r[i].data[ValueKey] == Text(g.nodes[i])
      && r[i].classes.None? && r[i].position.None?
  {
    seq(|g.nodes|, i requires 0 <= i < |g.nodes| => NodeRecord(g.nodes[i], g.nodeAttrs[g.nodes[i]]))
  }

  /** `cytoscape_data`'s edge list: one record per edge, in the graph's edge order. */
  function EdgeRecords(g: GraphData): (r: seq<Element>)
    requires Indexed(g)
    ensures |r| == |g.edges|
    ensures forall j :: 0 <= j < |r| ==>
      && r[j].data.Keys == g.edgeAttrs[g.edges[j]].Keys + {SourceKey, TargetKey}
      && r[j].data[SourceKey] == Text(g.edges[j].0) && r[j].data[TargetKey] == Text(g.edges[j].1)
      && r[j].classes.None? && r[j].position.None?
  {
    seq(|g.edges|, i requires 0 <= i < |g.edges| => EdgeRecord(g.edges[i], g.edgeAttrs[g.edges[i]]))
  }

  /** The two in-place passes over the records: the edge loop of
      visualize.py:89-92 and the node loop of visualize.py:97-102. */
  datatype Pass = EdgeClasses(edgeAttrs: map<Edge, Attrs>) | NodePlacement(layout: Layout)

  /** What one iteration of a pass does to one record. Edges: look up the
      graph's edge `source -> target` and copy its `cyto_classes`. Nodes:
      find the node's position by `id` first, then copy its own
      `cyto_classes`, then set the position truncated toward zero. */
  function Apply(p: Pass, el: Element): (r: Result<Element, BuildFailure>)
    ensures r.Success? ==> r.value.data == el.data
    ensures p.EdgeClasses? && r.Success? ==> r.value.position == el.position
  {
    match p
    case EdgeClasses(edgeAttrs) =>
      if SourceKey !in el.data || TargetKey !in el.data then Failure(MissingEndpoint)
      else
        var s, t := el.data[SourceKey], el.data[TargetKey];
        if !s.Text? || !t.Text? || (s.text, t.text) !in edgeAttrs then Failure(NoSuchEdge(s, t))
        else if ClassesKey !in edgeAttrs[(s.text, t.text)] then Failure(MissingEdgeClasses((s.text, t.text)))
        else Success(el.(classes := Some(edgeAttrs[(s.text, t.text)][ClassesKey])))
    case NodePlacement(layout) =>
      if IdKey !in el.data then Failure(MissingNodeId)
      else
        var id := el.data[IdKey];
        if !id.Text? || id.text !in layout then Failure(NoPosition(id))
        else if ClassesKey !in el.data then Failure(MissingNodeClasses(id))
        else
          var c := layout[id.text];
          Success(el.(classes := Some(el.data[ClassesKey]),
                      position := Some(Point(TruncateTowardZero(c.x), TruncateTowardZero(c.y)))))
  }

  /** The records after a pass, and the failure that ended it early. */
  datatype Applied = Applied(elements: seq<Element>, failure: Option<BuildFailure>)

  /** A pass over `s` in order: every record up to the first failing one is
      rewritten, that one and the rest are left as they were. */
  function ApplyAll(p: Pass, s: seq<Element>): (r: Applied)
    ensures |r.elements| == |s|
    ensures r.failure.None? <==> forall i :: 0 <= i < |s| ==> Apply(p, s[i]).Success?
    ensures r.failure.None? ==> forall i :: 0 <= i < |s| ==> Apply(p, s[i]) == Success(r.elements[i])
    decreases |s|
  {
    if s == [] then Applied([], None)
    else
      var init, last := s[..|s| - 1], s[|s| - 1];
      var prior := ApplyAll(p, init);
      assert forall i :: 0 <= i < |init| ==> init[i] == s[i];
      if prior.failure.Some? then Applied(prior.elements + [last], prior.failure)
      else
        match Apply(p, last)
        case Success(e) => Applied(prior.elements + [e], None)
        case Failure(f) => Applied(prior.elements + [last], Some(f))
  }

  /** When a pass fails, its failure is that of the first record whose
      iteration raises. */
  lemma {:induction false} ApplyAllFirstFailure(p: Pass, s: seq<Element>)
    requires ApplyAll(p, s).failure.Some?
    ensures exists j :: 0 <= j < |s| && Apply(p, s[j]) == Failure(ApplyAll(p, s).failure.value) &&
                        forall k :: 0 <= k < j ==> Apply(p, s[k]).Success?
    decreases |s|
  {
    var init, last := s[..|s| - 1], s[|s| - 1];
    assert forall i :: 0 <= i < |init| ==> init[i] == s[i];
    if ApplyAll(p, init).failure.Some? {
      ApplyAllFirstFailure(p, init);
      var j :| 0 <= j < |init| && Apply(p, init[j]) == Failure(ApplyAll(p, init).failure.value) &&
                 forall k :: 0 <= k < j ==> Apply(p, init[k]).Success?;
      assert Apply(p, s[j]) == Failure(ApplyAll(p, s).failure.value);
    } else {
      assert Apply(p, s[|s| - 1]) == Failure(ApplyAll(p, s).failure.value);
    }
  }

  /** One more record for a pass that has not failed yet. */
  lemma ApplyAllStep(p: Pass, s: seq<Element>, i: nat, done: seq<Element>)
    requires i < |s| && ApplyAll(p, s[..i]) == Applied(done, None)
    ensures ApplyAll(p, s[..i + 1]) ==
              match Apply(p, s[i])
              case Success(e) => Applied(done + [e], None)
              case Failure(f) => Applied(done + [s[i]], Some(f))
  {
    assert s[..i + 1][..i] == s[..i];
  }

  /** Once a pass has failed, the records after the failing one are kept as they are. */
  lemma {:induction false} ApplyAllStops(p: Pass, s: seq<Element>, k: nat)
    requires k <= |s| && ApplyAll(p, s[..k]).failure.Some?
    ensures ApplyAll(p, s) == Applied(ApplyAll(p, s[..k]).elements + s[k..], ApplyAll(p, s[..k]).failure)
    decreases |s| - k
  {
    if k < |s| {
      var init := s[..|s| - 1];
      assert init[..k] == s[..k];
      ApplyAllStops(p, init, k);
      assert ApplyAll(p, s[..k]).elements + init[k..] + [s[|s| - 1]] == ApplyAll(p, s[..k]).elements + s[k..];
    } else {
      assert s[..k] == s;
    }
  }

  /** The edge loop of visualize.py:89-92, in place on the edge records. */
  method SetEdgeClasses(a: array<Element>, edgeAttrs: map<Edge, Attrs>) returns (failure: Option<BuildFailure>)
    modifies a
    ensures Applied(a[..], failure) == ApplyAll(EdgeClasses(edgeAttrs), old(a[..]))
  {
    ghost var s := a[..];
    var i := 0;
    while i < a.Length
      invariant 0 <= i <= a.Length
      invariant ApplyAll(EdgeClasses(edgeAttrs), s[..i]) == Applied(a[..i], None)
      invariant a[i..] == s[i..]
    {
      ApplyAllStep(EdgeClasses(edgeAttrs), s, i, a[..i]);
      assert a[i] == s[i];
      var r := Apply(EdgeClasses(edgeAttrs), a[i]);
      if r.Failure? {
        assert a[..i + 1] == a[..i] + [s[i]];
        ApplyAllStops(EdgeClasses(edgeAttrs), s, i + 1);
        assert a[..] == a[..i + 1] + s[i + 1..];
        return Some(r.error);
      }
      a[i] := r.value;
      assert a[..i + 1] == a[..i] + [a[i]];
      assert a[i + 1..] == s[i + 1..];
      i := i + 1;
    }
    assert s[..i] == s && a[..i] == a[..];
    return None;
  }

  /** The node loop of visualize.py:97-102, in place on the node records. */
  method PlaceNodes(a: array<Element>, layout: Layout) returns (failure: Option<BuildFailure>)
    modifies a
    ensures Applied(a[..], failure) == ApplyAll(NodePlacement(layout), old(a[..]))
  {
    ghost var s := a[..];
    var i := 0;
    while i < a.Length
      invariant 0 <= i <= a.Length
      invariant ApplyAll(NodePlacement(layout), s[..i]) == Applied(a[..i], None)
      invariant a[i..] == s[i..]
    {
      ApplyAllStep(NodePlacement(layout), s, i, a[..i]);
      assert a[i] == s[i];
      var r := Apply(NodePlacement(layout), a[i]);
      if r.Failure? {
        assert a[..i + 1] == a[..i] + [s[i]];
        ApplyAllStops(NodePlacement(layout), s, i + 1);
        assert a[..] == a[..i + 1] + s[i + 1..];
        return Some(r.error);
      }
      a[i] := r.value;
      assert a[..i + 1] == a[..i] + [a[i]];
      assert a[i + 1..] == s[i + 1..];
      i := i + 1;
    }
    assert s[..i] == s && a[..i] == a[..];
    return None;
  }
}
