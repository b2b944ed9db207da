/** The directed graph that `convert_graph_to_cyto` receives and annotates in
    place (visualize.py:50-81): node names in iteration order with their
    attribute dicts, and edges in iteration order with theirs. */
module Graphs {
  import opened Wrappers
  import opened Attributes
  import opened TextWrap
  import opened SizeHints
  import opened Labels

  type Edge = (string, string)

  /** A snapshot of a graph's state. */
  datatype GraphData = GraphData(
    nodes: seq<string>,
    nodeAttrs: map<string, Attrs>,
    edges: seq<Edge>,
    edgeAttrs: map<Edge, Attrs>)

  predicate Distinct<T(==)>(s: seq<T>) {
    forall i, j :: 0 <= i < j < |s| ==> s[i] != s[j]
  }

  /** What a networkx `DiGraph` guarantees: node names and edges are unique,
      each has an attribute dict, and every edge joins two nodes. */
  ghost predicate WellFormed(g: GraphData) {
    && Distinct(g.nodes)
    && (forall n :: n in g.nodeAttrs <==> n in g.nodes)
    && Distinct(g.edges)
    && (forall e :: e in g.edgeAttrs <==> e in g.edges)
    && (forall i :: 0 <= i < |g.edges| ==> g.edges[i].0 in g.nodeAttrs && g.edges[i].1 in g.nodeAttrs)
  }

  /** Every node and every edge of the sequences has an attribute dict. */
  predicate Indexed(g: GraphData) {
    && (forall i :: 0 <= i < |g.nodes| ==> g.nodes[i] in g.nodeAttrs)
    && (forall j :: 0 <= j < |g.edges| ==> g.edges[j] in g.edgeAttrs)
  }

  lemma WellFormedIndexed(g: GraphData)
    requires WellFormed(g)
    ensures Indexed(g)
  {
    assert forall i :: 0 <= i < |g.nodes| ==> g.nodes[i] in g.nodes;
    assert forall j :: 0 <= j < |g.edges| ==> g.edges[j] in g.edges;
  }

  /** Which node the label pass stopped at, and why. */
  datatype NodeFailure = NodeFailure(node: string, reason: LabelFailure)

  /** The node attributes after the label pass, and the failure that ended it early. */
  datatype Annotated = Annotated(nodeAttrs: map<string, Attrs>, failure: Option<NodeFailure>)

  /** The label pass of visualize.py:73-81 over the nodes `ids`, in order,
      with `step` the annotation of one node (`Labels.AnnotateNode`); the
      first node whose annotation raises ends the pass. */
  function AnnotateAll(ids: seq<string>, attrs: map<string, Attrs>, step: Attrs -> Annotation): (r: Annotated)
    requires forall i :: 0 <= i < |ids| ==> ids[i] in attrs
    ensures r.nodeAttrs.Keys == attrs.Keys
    decreases |ids|
  {
    if ids == [] then Annotated(attrs, None)
    else
      var prior := AnnotateAll(ids[..|ids| - 1], attrs, step);
      if prior.failure.Some? then prior
      else
        var id := ids[|ids| - 1];
        var one := step(prior.nodeAttrs[id]);
        Annotated(prior.nodeAttrs[id := one.attrs],
                  if one.failure.Some? then Some(NodeFailure(id, one.failure.value)) else None)
  }

  /** The index of the first node of `ids` whose annotation raises, or `|ids|`. */
  function FirstFailing(ids: seq<string>, attrs: map<string, Attrs>, step: Attrs -> Annotation): (j: nat)
    requires forall i :: 0 <= i < |ids| ==> ids[i] in attrs
    ensures j <= |ids|
    ensures forall k :: 0 <= k < j ==> step(attrs[ids[k]]).failure.None?
    ensures j < |ids| ==> step(attrs[ids[j]]).failure.Some?
    decreases |ids|
  {
    if ids == [] then 0
    else
      var init := ids[..|ids| - 1];
      var j := FirstFailing(init, attrs, step);
      assert forall k :: 0 <= k < |init| ==> init[k] == ids[k];
      if j < |init| then j
      else if step(attrs[ids[|ids| - 1]]).failure.Some? then |init|
      else |ids|
  }

  /** The pass over `ids` is the pass over all but the last node, followed,
      when that did not fail, by the annotation of the last node, which no
      earlier node has touched. */
  lemma AnnotateAllLast(ids: seq<string>, attrs: map<string, Attrs>, step: Attrs -> Annotation)
    requires Distinct(ids) && ids != []
    requires forall i :: 0 <= i < |ids| ==> ids[i] in attrs
    ensures var init, last := ids[..|ids| - 1], ids[|ids| - 1];
            && Distinct(init) && (forall k :: 0 <= k < |init| ==> init[k] == ids[k] && init[k] != last)
            && var p := AnnotateAll(init, attrs, step);
            && p.nodeAttrs[last] == attrs[last]
            && AnnotateAll(ids, attrs, step) ==
                 (if p.failure.Some? then p
                  else
                    var one := step(attrs[last]);
                    Annotated(p.nodeAttrs[last := one.attrs],
                              if one.failure.Some? then Some(NodeFailure(last, one.failure.value)) else None))
            && FirstFailing(ids, attrs, step) ==
                 (if FirstFailing(init, attrs, step) < |init| then FirstFailing(init, attrs, step)
                  else if step(attrs[last]).failure.Some? then |init|
                  else |ids|)
  {
    var init, last := ids[..|ids| - 1], ids[|ids| - 1];
    assert forall k :: 0 <= k < |init| ==> init[k] == ids[k] && init[k] != last;
    AnnotateAllOutside(init, attrs, step, last);
  }

  /** The pass leaves a node outside `ids` as it was. */
  lemma {:induction false} AnnotateAllOutside(ids: seq<string>, attrs: map<string, Attrs>, step: Attrs -> Annotation, n: string)
    requires forall i :: 0 <= i < |ids| ==> ids[i] in attrs
    requires n in attrs && forall i :: 0 <= i < |ids| ==> ids[i] != n
    ensures AnnotateAll(ids, attrs, step).nodeAttrs[n] == attrs[n]
    decreases |ids|
  {
    if ids != [] {
      var init := ids[..|ids| - 1];
      assert forall k :: 0 <= k < |init| ==> init[k] == ids[k];
      AnnotateAllOutside(init, attrs, step, n);
    }
  }

  /** The label pass fails exactly when some node's annotation raises, with
      the failure of the first such node. */
  lemma {:induction false} AnnotateAllFailure(ids: seq<string>, attrs: map<string, Attrs>, step: Attrs -> Annotation)
    requires Distinct(ids)
    requires forall i :: 0 <= i < |ids| ==> ids[i] in attrs
    ensures AnnotateAll(ids, attrs, step).failure.None? <==> FirstFailing(ids, attrs, step) == |ids|
    ensures var j := FirstFailing(ids, attrs, step);
            j < |ids| ==> AnnotateAll(ids, attrs, step).failure == Some(NodeFailure(ids[j], step(attrs[ids[j]]).failure.value))
    decreases |ids|
  {
    if ids != [] {
      AnnotateAllLast(ids, attrs, step);
      AnnotateAllFailure(ids[..|ids| - 1], attrs, step);
    }
  }

  /** The label pass annotates node `ids[k]` from its original attributes
      when it comes no later than the first node that raises, and leaves it
      as it was otherwise. */
  lemma {:induction false} AnnotateAllAt(ids: seq<string>, attrs: map<string, Attrs>, step: Attrs -> Annotation, k: nat)
    requires Distinct(ids) && k < |ids|
    requires forall i :: 0 <= i < |ids| ==> ids[i] in attrs
    ensures AnnotateAll(ids, attrs, step).nodeAttrs[ids[k]] ==
              if k <= FirstFailing(ids, attrs, step) then step(attrs[ids[k]]).attrs else attrs[ids[k]]
    decreases |ids|
  {
    var init, last := ids[..|ids| - 1], ids[|ids| - 1];
    AnnotateAllLast(ids, attrs, step);
    AnnotateAllFailure(init, attrs, step);
    if k < |init| {
      AnnotateAllAt(init, attrs, step, k);
    }
  }

  /** The label pass annotates, each from its original attributes, every node
      up to and including the first one that raises; that node's failure is
      the pass's failure; the nodes after it and every node not in `ids` are
      untouched. With no failing node, every node is annotated. */
  lemma AnnotateAllEffect(ids: seq<string>, attrs: map<string, Attrs>, step: Attrs -> Annotation)
    requires Distinct(ids)
    requires forall i :: 0 <= i < |ids| ==> ids[i] in attrs
    ensures AnnotateAll(ids, attrs, step).failure.None? <==> FirstFailing(ids, attrs, step) == |ids|
    ensures var j := FirstFailing(ids, attrs, step);
            j < |ids| ==> AnnotateAll(ids, attrs, step).failure == Some(NodeFailure(ids[j], step(attrs[ids[j]]).failure.value))
    ensures forall k :: 0 <= k < |ids| && k <= FirstFailing(ids, attrs, step) ==>
              AnnotateAll(ids, attrs, step).nodeAttrs[ids[k]] == step(attrs[ids[k]]).attrs
    ensures forall k :: FirstFailing(ids, attrs, step) < k < |ids| ==>
              AnnotateAll(ids, attrs, step).nodeAttrs[ids[k]] == attrs[ids[k]]
    ensures forall n :: n in attrs && n !in ids ==> AnnotateAll(ids, attrs, step).nodeAttrs[n] == attrs[n]
  {
    AnnotateAllFailure(ids, attrs, step);
    forall k | 0 <= k < |ids|
      ensures AnnotateAll(ids, attrs, step).nodeAttrs[ids[k]] ==
                if k <= FirstFailing(ids, attrs, step) then step(attrs[ids[k]]).attrs else attrs[ids[k]]
    {
      AnnotateAllAt(ids, attrs, step, k);
    }
    forall n | n in attrs && n !in ids
      ensures AnnotateAll(ids, attrs, step).nodeAttrs[n] == attrs[n]
    {
      AnnotateAllOutside(ids, attrs, step, n);
    }
  }

  /** The label pass completes exactly when no node's annotation raises, and
      then every node carries its own annotation. */
  lemma AnnotateAllComplete(ids: seq<string>, attrs: map<string, Attrs>, step: Attrs -> Annotation)
    requires Distinct(ids)
    requires forall i :: 0 <= i < |ids| ==> ids[i] in attrs
    ensures AnnotateAll(ids, attrs, step).failure.None? <==> forall i :: 0 <= i < |ids| ==> step(attrs[ids[i]]).failure.None?
    ensures AnnotateAll(ids, attrs, step).failure.None? ==>
              forall i :: 0 <= i < |ids| ==> AnnotateAll(ids, attrs, step).nodeAttrs[ids[i]] == step(attrs[ids[i]]).attrs
  {
    AnnotateAllEffect(ids, attrs, step);
    var j := FirstFailing(ids, attrs, step);
    if j < |ids| {
      assert step(attrs[ids[j]]).failure.Some?;
    }
  }

  /** One more node for the label pass: the pass over `ids[..i + 1]` is the
      pass over `ids[..i]` followed by the annotation of `ids[i]`. */
  lemma AnnotateAllStep(ids: seq<string>, attrs: map<string, Attrs>, step: Attrs -> Annotation, i: nat, m: map<string, Attrs>)
    requires i < |ids| && forall k :: 0 <= k < |ids| ==> ids[k] in attrs
    requires AnnotateAll(ids[..i], attrs, step) == Annotated(m, None)
    ensures ids[i] in m
    ensures var one := step(m[ids[i]]);
            AnnotateAll(ids[..i + 1], attrs, step) ==
              Annotated(m[ids[i] := one.attrs], if one.failure.Some? then Some(NodeFailure(ids[i], one.failure.value)) else None)
  {
    assert ids[..i + 1][..i] == ids[..i];
  }

  /** One more node for the label pass, whose annotation is `one`: either
      the pass goes on, or it stops here with this node's failure. */
  lemma AnnotateAllNext(ids: seq<string>, attrs: map<string, Attrs>, step: Attrs -> Annotation, i: nat,
                        m: map<string, Attrs>, one: Annotation)
    requires i < |ids| && forall k :: 0 <= k < |ids| ==> ids[k] in attrs
    requires AnnotateAll(ids[..i], attrs, step) == Annotated(m, None)
    requires ids[i] in m && one == step(m[ids[i]])
    ensures one.failure.None? ==> AnnotateAll(ids[..i + 1], attrs, step) == Annotated(m[ids[i] := one.attrs], None)
    ensures one.failure.Some? ==>
              AnnotateAll(ids, attrs, step) == Annotated(m[ids[i] := one.attrs], Some(NodeFailure(ids[i], one.failure.value)))
  {
    AnnotateAllStep(ids, attrs, step, i, m);
    if one.failure.Some? {
      AnnotateAllStops(ids, attrs, step, i + 1);
    }
  }

  /** Once the label pass has failed, the nodes after the failing one change nothing. */
  lemma {:induction false} AnnotateAllStops(ids: seq<string>, attrs: map<string, Attrs>, step: Attrs -> Annotation, k: nat)
    requires k <= |ids| && forall i :: 0 <= i < |ids| ==> ids[i] in attrs
    requires AnnotateAll(ids[..k], attrs, step).failure.Some?
    ensures AnnotateAll(ids, attrs, step) == AnnotateAll(ids[..k], attrs, step)
    decreases |ids| - k
  {
    if k < |ids| {
      var init := ids[..|ids| - 1];
      assert init[..k] == ids[..k];
      AnnotateAllStops(init, attrs, step, k);
    } else {
      assert ids[..k] == ids;
    }
  }

  /** Replacing the node attribute dicts by ones for the same nodes keeps a graph well formed. */
  lemma RelabelWellFormed(g: GraphData, m: map<string, Attrs>)
    requires WellFormed(g) && m.Keys == g.nodeAttrs.Keys
    ensures WellFormed(g.(nodeAttrs := m))
  {
    forall n ensures n in m <==> n in g.nodes {
      assert n in m <==> n in g.nodeAttrs;
    }
  }

  /** The label loop of visualize.py:73-81 over the nodes `ids`, in order,
      rewriting their attribute dicts in `attrs`, with `step` the loop body
      (`Labels.AnnotateNode`); the first node whose annotation raises ends
      it. */
  method AnnotatePass(ids: seq<string>, attrs: map<string, Attrs>, step: Attrs -> Annotation) returns (r: Annotated)
    requires forall k :: 0 <= k < |ids| ==> ids[k] in attrs
    ensures r == AnnotateAll(ids, attrs, step)
  {
    var current := attrs;
    var i := 0;
    while i < |ids|
      invariant 0 <= i <= |ids| && current.Keys == attrs.Keys
      invariant AnnotateAll(ids[..i], attrs, step) == Annotated(current, None)
    {
      var node := ids[i];
      var one := step(current[node]);
      AnnotateAllNext(ids, attrs, step, i, current, one);
      current := current[node := one.attrs];
      if one.failure.Some? {
        return Annotated(current, Some(NodeFailure(node, one.failure.value)));
      }
      i := i + 1;
    }
    assert ids[..i] == ids;
    return Annotated(current, None);
  }

  /** A graph whose node attributes the label pass rewrites in place. */
  class Graph {
    var nodes: seq<string>
    var nodeAttrs: map<string, Attrs>
    var edges: seq<Edge>
    var edgeAttrs: map<Edge, Attrs>

    function Data(): GraphData
      reads this
    {
      GraphData(nodes, nodeAttrs, edges, edgeAttrs)
    }

    ghost predicate Valid()
      reads this
    {
      WellFormed(Data())
    }

    constructor (d: GraphData)
      requires WellFormed(d)
      ensures Valid() && Data() == d
    {
      nodes, nodeAttrs, edges, edgeAttrs := d.nodes, d.nodeAttrs, d.edges, d.edgeAttrs;
    }

    /** visualize.py:73-81: for every node in order, wrap its label,
        store the joined lines back, then add the width and height hints. */
    method AnnotateLabels() returns (failure: Option<NodeFailure>)
      requires Valid()
      modifies this
      ensures Valid()
      ensures nodes == old(nodes) && edges == old(edges) && edgeAttrs == old(edgeAttrs)
      ensures Annotated(nodeAttrs, failure) == AnnotateAll(old(nodes), old(nodeAttrs), AnnotateNode)
    {
      assert forall k :: 0 <= k < |nodes| ==> nodes[k] in nodeAttrs;
      var r := AnnotatePass(nodes, nodeAttrs, AnnotateNode);
      RelabelWellFormed(Data(), r.nodeAttrs);
      nodeAttrs := r.nodeAttrs;
      return r.failure;
    }
  }
}
