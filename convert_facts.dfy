/** What the element list of `convert_graph_to_cyto` looks like, and when
    the conversion succeeds. */
module ConvertFacts {
  import opened Wrappers
  import opened Attributes
  import opened TextWrap
  import opened SizeHints
  import opened Labels
  import opened Graphs
  import opened Elements
  import opened Convert

  /** The node name a node element is looked up under in the layout, when it is text. */
  predicate Placeable(n: string, a: Attrs, layout: Layout) {
    OrName(a, IdKey, n).Text? && OrName(a, IdKey, n).text in layout && ClassesKey in a
  }

  /** The position visualize.py:102 gives a placeable node. */
  function PositionOf(n: string, a: Attrs, layout: Layout): Point
    requires Placeable(n, a, layout)
  {
    var c := layout[OrName(a, IdKey, n).text];
    Point(TruncateTowardZero(c.x), TruncateTowardZero(c.y))
  }

  /** One iteration of the edge loop on the record of edge `e`: the lookups
      of `source`, `target` and `G[source][target]` always succeed, so the
      only way it raises is a missing `cyto_classes`. */
  lemma EdgeStep(e: Edge, edgeAttrs: map<Edge, Attrs>)
    requires e in edgeAttrs
    ensures var rec := EdgeRecord(e, edgeAttrs[e]);
            Apply(EdgeClasses(edgeAttrs), rec) ==
              if ClassesKey in edgeAttrs[e] then Success(rec.(classes := Some(edgeAttrs[e][ClassesKey])))
              else Failure(MissingEdgeClasses(e))
  {
    DistinctKeys();
  }

  /** One iteration of the node loop on the record of node `n`. */
  lemma NodeStep(n: string, a: Attrs, layout: Layout)
    ensures var rec := NodeRecord(n, a);
            Apply(NodePlacement(layout), rec) ==
              if Placeable(n, a, layout) then
                Success(rec.(classes := Some(a[ClassesKey]), position := Some(PositionOf(n, a, layout))))
              else if !OrName(a, IdKey, n).Text? || OrName(a, IdKey, n).text !in layout then
                Failure(NoPosition(OrName(a, IdKey, n)))
              else Failure(MissingNodeClasses(OrName(a, IdKey, n)))
  {
    DistinctKeys();
    var rec := NodeRecord(n, a);
    assert ClassesKey in rec.data <==> ClassesKey in a;
  }

  /** Building the elements of an annotated graph succeeds exactly when every
      edge has `cyto_classes` and every node has a position and
      `cyto_classes`. */
  lemma AssembleSucceeds(h: GraphData, layout: Layout)
    requires Indexed(h)
    ensures Assemble(h, layout).Success? <==>
              (forall j :: 0 <= j < |h.edges| ==> ClassesKey in h.edgeAttrs[h.edges[j]]) &&
              (forall i :: 0 <= i < |h.nodes| ==> Placeable(h.nodes[i], h.nodeAttrs[h.nodes[i]], layout))
  {
    var es, ns := EdgeRecords(h), NodeRecords(h);
    forall j | 0 <= j < |h.edges|
      ensures Apply(EdgeClasses(h.edgeAttrs), es[j]).Success? <==> ClassesKey in h.edgeAttrs[h.edges[j]]
    {
      EdgeStep(h.edges[j], h.edgeAttrs);
    }
    forall i | 0 <= i < |h.nodes|
      ensures Apply(NodePlacement(layout), ns[i]).Success? <==> Placeable(h.nodes[i], h.nodeAttrs[h.nodes[i]], layout)
    {
      NodeStep(h.nodes[i], h.nodeAttrs[h.nodes[i]], layout);
    }
  }

  lemma ConcatLeft<T>(a: seq<T>, b: seq<T>, i: nat)
    requires i < |a|
    ensures (a + b)[i] == a[i]
  {
  }

  lemma ConcatRight<T>(a: seq<T>, b: seq<T>, j: nat)
    requires j < |b|
    ensures (a + b)[|a| + j] == b[j]
  {
  }

  /** Element `i` of the list, for a node: the node's record with its
      `cyto_classes` and its truncated position added. */
  lemma AssembleNode(h: GraphData, layout: Layout, i: nat)
    requires Indexed(h) && Assemble(h, layout).Success? && i < |h.nodes|
    ensures var n := h.nodes[i];
            && Placeable(n, h.nodeAttrs[n], layout)
            && Assemble(h, layout).value[i] ==
                 NodeRecord(n, h.nodeAttrs[n]).(classes := Some(h.nodeAttrs[n][ClassesKey]),
                                                position := Some(PositionOf(n, h.nodeAttrs[n], layout)))
  {
    var nodes := ApplyAll(NodePlacement(layout), NodeRecords(h));
    var edges := ApplyAll(EdgeClasses(h.edgeAttrs), EdgeRecords(h));
    assert edges.failure.None? && nodes.failure.None?;
    assert Assemble(h, layout).value == nodes.elements + edges.elements;
    assert NodeRecords(h)[i] == NodeRecord(h.nodes[i], h.nodeAttrs[h.nodes[i]]);
    assert Apply(NodePlacement(layout), NodeRecords(h)[i]) == Success(nodes.elements[i]);
    ConcatLeft(nodes.elements, edges.elements, i);
    NodeStep(h.nodes[i], h.nodeAttrs[h.nodes[i]], layout);
  }

  /** Element `|h.nodes| + j` of the list, for edge `j`: the edge's record
      with the edge's `cyto_classes` added. */
  lemma AssembleEdge(h: GraphData, layout: Layout, j: nat)
    requires Indexed(h) && Assemble(h, layout).Success? && j < |h.edges|
    ensures var e := h.edges[j];
            && ClassesKey in h.edgeAttrs[e]
            && |h.nodes| + j < |Assemble(h, layout).value|
            && Assemble(h, layout).value[|h.nodes| + j] ==
                 EdgeRecord(e, h.edgeAttrs[e]).(classes := Some(h.edgeAttrs[e][ClassesKey]))
  {
    var nodes := ApplyAll(NodePlacement(layout), NodeRecords(h));
    var edges := ApplyAll(EdgeClasses(h.edgeAttrs), EdgeRecords(h));
    assert edges.failure.None? && nodes.failure.None?;
    assert Assemble(h, layout).value == nodes.elements + edges.elements;
    assert EdgeRecords(h)[j] == EdgeRecord(h.edges[j], h.edgeAttrs[h.edges[j]]);
    assert Apply(EdgeClasses(h.edgeAttrs), EdgeRecords(h)[j]) == Success(edges.elements[j]);
    ConcatRight(nodes.elements, edges.elements, j);
    EdgeStep(h.edges[j], h.edgeAttrs);
  }

  /** The element list is the node elements, in node order, followed by the
      edge elements, in edge order. A node element keeps the node's record
      data and gets the node's `cyto_classes` and its truncated position; an
      edge element keeps the edge's record data, gets the edge's
      `cyto_classes` and has no position. */
  lemma AssembleShape(h: GraphData, layout: Layout)
    requires Indexed(h) && Assemble(h, layout).Success?
    ensures var es := Assemble(h, layout).value;
            && |es| == |h.nodes| + |h.edges|
            && (forall i :: 0 <= i < |h.nodes| ==>
                  var n := h.nodes[i];
                  && es[i].data == NodeRecord(n, h.nodeAttrs[n]).data
                  && Placeable(n, h.nodeAttrs[n], layout)
                  && es[i].classes == Some(h.nodeAttrs[n][ClassesKey])
                  && es[i].position == Some(PositionOf(n, h.nodeAttrs[n], layout)))
            && (forall j :: 0 <= j < |h.edges| ==>
                  var e := h.edges[j];
                  && es[|h.nodes| + j].data == EdgeRecord(e, h.edgeAttrs[e]).data
                  && ClassesKey in h.edgeAttrs[e]
                  && es[|h.nodes| + j].classes == Some(h.edgeAttrs[e][ClassesKey])
                  && es[|h.nodes| + j].position.None?)
  {
    forall i | 0 <= i < |h.nodes| {
      AssembleNode(h, layout, i);
    }
    forall j | 0 <= j < |h.edges| {
      AssembleEdge(h, layout, j);
    }
  }

  /** The `value` of node element `s`, for the node the edge element
      `|h.nodes| + k` starts or ends at. */
  lemma EndpointElement(h: GraphData, layout: Layout, k: nat, s: nat)
    requires Indexed(h) && Assemble(h, layout).Success? && k < |h.edges| && s < |h.nodes|
    requires h.nodes[s] == h.edges[k].0 || h.nodes[s] == h.edges[k].1
    ensures var es := Assemble(h, layout).value;
            && SourceKey in es[|h.nodes| + k].data && TargetKey in es[|h.nodes| + k].data
            && ValueKey in es[s].data
            && (h.nodes[s] == h.edges[k].0 ==> es[s].data[ValueKey] == es[|h.nodes| + k].data[SourceKey])
            && (h.nodes[s] == h.edges[k].1 ==> es[s].data[ValueKey] == es[|h.nodes| + k].data[TargetKey])
  {
    AssembleEdge(h, layout, k);
    AssembleNode(h, layout, s);
  }

  /** Element `j` of `es` is an edge whose `source` and `target` are the
      `value` of some element among the first `nodeCount`. */
  predicate EndsResolve(es: seq<Element>, nodeCount: nat, j: nat) {
    && nodeCount <= |es| && j < |es|
    && SourceKey in es[j].data && TargetKey in es[j].data
    && (exists i :: 0 <= i < nodeCount && ValueKey in es[i].data && es[i].data[ValueKey] == es[j].data[SourceKey])
    && (exists i :: 0 <= i < nodeCount && ValueKey in es[i].data && es[i].data[ValueKey] == es[j].data[TargetKey])
  }

  /** The edge element `|h.nodes| + k` resolves, when both ends of edge `k`
      are nodes. */
  lemma EdgeResolves(h: GraphData, layout: Layout, k: nat)
    requires Indexed(h) && Assemble(h, layout).Success? && k < |h.edges|
    requires h.edges[k].0 in h.nodes && h.edges[k].1 in h.nodes
    ensures EndsResolve(Assemble(h, layout).value, |h.nodes|, |h.nodes| + k)
  {
    var es := Assemble(h, layout).value;
    var e := h.edges[k];
    var s :| 0 <= s < |h.nodes| && h.nodes[s] == e.0;
    var t :| 0 <= t < |h.nodes| && h.nodes[t] == e.1;
    EndpointElement(h, layout, k, s);
    EndpointElement(h, layout, k, t);
  }

  /** Every edge element's `source` and `target` are the `value` of some
      node element: cytoscape can resolve both ends. */
  lemma EdgeEndpointsAreNodes(h: GraphData, layout: Layout)
    requires Indexed(h) && Assemble(h, layout).Success?
    requires forall k :: 0 <= k < |h.edges| ==> h.edges[k].0 in h.nodes && h.edges[k].1 in h.nodes
    ensures forall j :: |h.nodes| <= j < |h.nodes| + |h.edges| ==> EndsResolve(Assemble(h, layout).value, |h.nodes|, j)
  {
    forall j | |h.nodes| <= j < |h.nodes| + |h.edges|
      ensures EndsResolve(Assemble(h, layout).value, |h.nodes|, j)
    {
      EdgeResolves(h, layout, j - |h.nodes|);
    }
  }

  /** Rewriting the label and adding the two hints keeps a node's `id`
      and `cyto_classes`. */
  lemma HintsKeepLookups(n: string, a: Attrs, r: Attrs, hinted: bool, layout: Layout)
    requires r.Keys == if hinted then a.Keys + {WidthKey, HeightKey} else a.Keys
    requires forall k :: k in a && k != LabelKey && k != WidthKey && k != HeightKey ==> r[k] == a[k]
    ensures Placeable(n, r, layout) <==> Placeable(n, a, layout)
    ensures OrName(r, IdKey, n) == OrName(a, IdKey, n)
  {
    assert IdKey != LabelKey && IdKey != WidthKey && IdKey != HeightKey;
    assert ClassesKey != WidthKey && ClassesKey != HeightKey;
  }

  /** The label pass keeps the keys the element loops look at: a node's
      `id` and `cyto_classes` are the same before and after it. */
  lemma AnnotateKeepsLookups(n: string, a: Attrs, layout: Layout)
    ensures Placeable(n, AnnotateNode(a).attrs, layout) <==> Placeable(n, a, layout)
    ensures OrName(AnnotateNode(a).attrs, IdKey, n) == OrName(a, IdKey, n)
  {
    var r := AnnotateNode(a);
    HintsKeepLookups(n, a, r.attrs, r.failure.None?, layout);
  }

  /** `convert_graph_to_cyto` returns a list exactly when every node label
      wraps to at least one line, every edge has `cyto_classes`, and every
      node has a position and `cyto_classes`; the graph is then annotated
      node by node from its original attributes. */
  lemma ConvertSucceeds(g: GraphData, layout: Layout)
    requires Indexed(g) && Distinct(g.nodes)
    ensures ConvertSpec(g, layout).result.Success? <==>
              (forall i :: 0 <= i < |g.nodes| ==> AnnotateNode(g.nodeAttrs[g.nodes[i]]).failure.None?) &&
              (forall j :: 0 <= j < |g.edges| ==> ClassesKey in g.edgeAttrs[g.edges[j]]) &&
              (forall i :: 0 <= i < |g.nodes| ==> Placeable(g.nodes[i], g.nodeAttrs[g.nodes[i]], layout))
    ensures ConvertSpec(g, layout).result.Success? ==>
              forall i :: 0 <= i < |g.nodes| ==>
                ConvertSpec(g, layout).graph.nodeAttrs[g.nodes[i]] == AnnotateNode(g.nodeAttrs[g.nodes[i]]).attrs
  {
    AnnotateAllComplete(g.nodes, g.nodeAttrs, AnnotateNode);
    var pass := AnnotateAll(g.nodes, g.nodeAttrs, AnnotateNode);
    var h := Relabelled(g);
    if pass.failure.None? {
      forall i | 0 <= i < |g.nodes|
        ensures Placeable(g.nodes[i], h.nodeAttrs[g.nodes[i]], layout) <==> Placeable(g.nodes[i], g.nodeAttrs[g.nodes[i]], layout)
      {
        AnnotateKeepsLookups(g.nodes[i], g.nodeAttrs[g.nodes[i]], layout);
      }
      AssembleSucceeds(h, layout);
      assert ConvertSpec(g, layout).result.Success? <==> Assemble(h, layout).Success?;
    }
  }

  /** End to end: in a successful conversion, node element `i` carries the
      node's label wrapped to lines of at most 20 characters joined with
      newlines, and the two size hints for those lines. */
  lemma ConvertedLabels(g: GraphData, layout: Layout, i: nat)
    requires Indexed(g) && Distinct(g.nodes) && ConvertSpec(g, layout).result.Success? && i < |g.nodes|
    ensures var a := g.nodeAttrs[g.nodes[i]];
            var data := ConvertSpec(g, layout).result.value[i].data;
            && LabelKey in a && a[LabelKey].Text?
            && var lines := Wrap(a[LabelKey].text);
            && lines != []
            && LabelKey in data && WidthKey in data && HeightKey in data
            && data[LabelKey] == Text(JoinLines(lines))
            && data[WidthKey] == Text(WidthHint(LongestLine(lines)))
            && data[HeightKey] == Text(HeightHint(|lines|))
            && SplitLines(data[LabelKey].text) == lines
            && (forall k :: 0 <= k < |lines| ==> 1 <= |lines[k]| <= Width)
  {
    ConvertSucceeds(g, layout);
    var n := g.nodes[i];
    var a := g.nodeAttrs[n];
    var h := Relabelled(g);
    assert ConvertSpec(g, layout).result.value == Assemble(h, layout).value;
    AnnotatedLabel(a);
    AssembleNode(h, layout, i);
    var r := h.nodeAttrs[n];
    assert r == AnnotateNode(a).attrs;
    assert LabelKey != IdKey && LabelKey != ValueKey && LabelKey != NameKey;
    assert WidthKey != IdKey && WidthKey != ValueKey && WidthKey != NameKey;
    assert HeightKey != IdKey && HeightKey != ValueKey && HeightKey != NameKey;
  }
}
