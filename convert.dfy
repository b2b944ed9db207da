/** `convert_graph_to_cyto` as a whole (visualize.py:50-104): the label
    pass over the graph, then the element list built from the annotated
    graph and the graphviz layout. */
module Convert {
  import opened Wrappers
  import opened Attributes
  import opened TextWrap
  import opened Labels
  import opened Graphs
  import opened Elements

  /** Why a conversion raised: in the label pass, or in one of the two loops
      over the element records. */
  datatype ConvertFailure = LabelFailed(node: NodeFailure) | BuildFailed(build: BuildFailure)

  /** The graph as the conversion leaves it, and the element list it
      returns (or the exception it raises). The graph is annotated in place
      even when a later step raises. */
  datatype Converted = Converted(graph: GraphData, result: Result<seq<Element>, ConvertFailure>)

  /** The graph after the label pass of visualize.py:73-81. */
  function Relabelled(g: GraphData): (h: GraphData)
    requires Indexed(g)
    ensures Indexed(h)
    ensures h.nodes == g.nodes && h.edges == g.edges && h.edgeAttrs == g.edgeAttrs
    ensures h.nodeAttrs.Keys == g.nodeAttrs.Keys
  {
    g.(nodeAttrs := AnnotateAll(g.nodes, g.nodeAttrs, AnnotateNode).nodeAttrs)
  }

  /** Lines 85-104 on the annotated graph `h`: the edge records get their
      classes, then the node records their classes and positions, and the
      result is the nodes followed by the edges. */
  function Assemble(h: GraphData, layout: Layout): (r: Result<seq<Element>, BuildFailure>)
    requires Indexed(h)
    ensures r.Success? ==> |r.value| == |h.nodes| + |h.edges|
  {
    var edges := ApplyAll(EdgeClasses(h.edgeAttrs), EdgeRecords(h));
    if edges.failure.Some? then Failure(edges.failure.value)
    else
      var nodes := ApplyAll(NodePlacement(layout), NodeRecords(h));
      if nodes.failure.Some? then Failure(nodes.failure.value)
      else Success(nodes.elements + edges.elements)
  }

  /** What `convert_graph_to_cyto(G)` does, with `layout` the positions
      graphviz computes: the label pass, then the element list. */
  function ConvertSpec(g: GraphData, layout: Layout): (c: Converted)
    requires Indexed(g)
    ensures c.graph.nodes == g.nodes && c.graph.edges == g.edges && c.graph.edgeAttrs == g.edgeAttrs
    ensures c.graph.nodeAttrs.Keys == g.nodeAttrs.Keys
    ensures c.result.Success? ==> |c.result.value| == |g.nodes| + |g.edges|
  {
    var pass := AnnotateAll(g.nodes, g.nodeAttrs, AnnotateNode);
    var h := Relabelled(g);
    if pass.failure.Some? then Converted(h, Failure(LabelFailed(pass.failure.value)))
    else
      match Assemble(h, layout)
      case Failure(f) => Converted(h, Failure(BuildFailed(f)))
      case Success(elements) => Converted(h, Success(elements))
  }

  /** The conversion leaves a well-formed graph well formed. */
  lemma ConvertWellFormed(g: GraphData, layout: Layout)
    requires WellFormed(g)
    ensures Indexed(g) && WellFormed(ConvertSpec(g, layout).graph)
  {
    WellFormedIndexed(g);
    RelabelWellFormed(g, ConvertSpec(g, layout).graph.nodeAttrs);
  }

  /** Lines 85-104 on the records of an annotated graph, with the two
      loops in place on arrays. */
  method BuildElements(h: GraphData, layout: Layout) returns (result: Result<seq<Element>, BuildFailure>)
    requires Indexed(h)
    ensures result == Assemble(h, layout)
  {
    var nodeRecords, edgeRecords := NodeRecords(h), EdgeRecords(h);
    var cytoNodes := new Element[|nodeRecords|](i requires 0 <= i < |nodeRecords| => nodeRecords[i]);
    var cytoEdges := new Element[|edgeRecords|](i requires 0 <= i < |edgeRecords| => edgeRecords[i]);
    assert cytoNodes[..] == nodeRecords && cytoEdges[..] == edgeRecords;
    var edgeFailure := SetEdgeClasses(cytoEdges, h.edgeAttrs);
    if edgeFailure.Some? {
      return Failure(edgeFailure.value);
    }
    var nodeFailure := PlaceNodes(cytoNodes, layout);
    if nodeFailure.Some? {
      return Failure(nodeFailure.value);
    }
    return Success(cytoNodes[..] + cytoEdges[..]);
  }

  /** visualize.py:50-104 on a graph object: annotate its labels in place,
      then build the element list from the annotated graph. */
  method ConvertGraphToCyto(g: Graph, layout: Layout) returns (result: Result<seq<Element>, ConvertFailure>)
    requires g.Valid()
    modifies g
    ensures g.Valid() && Indexed(old(g.Data()))
    ensures Converted(g.Data(), result) == ConvertSpec(old(g.Data()), layout)
  {
    WellFormedIndexed(g.Data());
    var failure := g.AnnotateLabels();
    if failure.Some? {
      return Failure(LabelFailed(failure.value));
    }
    WellFormedIndexed(g.Data());
    var built := BuildElements(g.Data(), layout);
    if built.Failure? {
      return Failure(BuildFailed(built.error));
    }
    return Success(built.value);
  }
}
