/** The start-up loop that converts every preprocessed graph
    (visualize.py:121-123): `total_cyto_data[name]` is the element list of
    graph `name`, in the order the graphs are stored; the first conversion
    that raises ends the script. */
module Recompute {
  import opened Wrappers
  import opened Graphs
  import opened Elements
  import opened Convert

  /** The graphs after the loop, the element lists stored so far, and the
      graph whose conversion raised, with its failure. */
  datatype Recomputed = Recomputed(
    graphs: map<string, GraphData>,
    cytoData: map<string, seq<Element>>,
    failure: Option<(string, ConvertFailure)>)

  /** Every name has a graph that `convert` accepts and a layout. */
  ghost predicate Ready(names: seq<string>, graphs: map<string, GraphData>, layouts: map<string, Layout>,
                        convert: (GraphData, Layout) --> Converted)
  {
    forall i :: 0 <= i < |names| ==>
      names[i] in graphs && names[i] in layouts && convert.requires(graphs[names[i]], layouts[names[i]])
  }

  /** The names in `names`, as a set. */
  function Names(names: seq<string>): (r: set<string>)
    ensures forall i :: 0 <= i < |names| ==> names[i] in r
    decreases |names|
  {
    if names == [] then {} else Names(names[..|names| - 1]) + {names[|names| - 1]}
  }

  /** The loop of visualize.py:122-123 over `names`, in order, with
      `convert` the conversion of one graph (`Convert.ConvertSpec`) and
      `layouts[name]` the positions graphviz computes for graph `name`. */
  ghost function RecomputeSpec(names: seq<string>, graphs: map<string, GraphData>, layouts: map<string, Layout>,
                               convert: (GraphData, Layout) --> Converted): (r: Recomputed)
    requires Distinct(names) && Ready(names, graphs, layouts, convert)
    ensures r.graphs.Keys == graphs.Keys
    ensures r.failure.None? ==> r.cytoData.Keys == Names(names)
    ensures forall n :: n in graphs && n !in names ==> r.graphs[n] == graphs[n]
    decreases |names|
  {
    if names == [] then Recomputed(graphs, map[], None)
    else
      var init, name := names[..|names| - 1], names[|names| - 1];
      assert forall i :: 0 <= i < |init| ==> init[i] == names[i];
      var prior := RecomputeSpec(init, graphs, layouts, convert);
      if prior.failure.Some? then prior
      else
        var c := convert(graphs[name], layouts[name]);
        var after := prior.graphs[name := c.graph];
        if c.result.Failure? then Recomputed(after, prior.cytoData, Some((name, c.result.error)))
        else Recomputed(after, prior.cytoData[name := c.result.value], None)
  }

  /** A loop that did not fail did not fail on any prefix either. */
  lemma {:induction false} RecomputePrefix(names: seq<string>, graphs: map<string, GraphData>, layouts: map<string, Layout>,
                                           convert: (GraphData, Layout) --> Converted)
    requires Distinct(names) && Ready(names, graphs, layouts, convert) && names != []
    requires RecomputeSpec(names, graphs, layouts, convert).failure.None?
    ensures Distinct(names[..|names| - 1]) && Ready(names[..|names| - 1], graphs, layouts, convert)
    ensures var prior := RecomputeSpec(names[..|names| - 1], graphs, layouts, convert);
            var name := names[|names| - 1];
            var c := convert(graphs[name], layouts[name]);
            && prior.failure.None? && c.result.Success?
            && RecomputeSpec(names, graphs, layouts, convert) ==
                 Recomputed(prior.graphs[name := c.graph], prior.cytoData[name := c.result.value], None)
  {
    PrefixReady(names, graphs, layouts, convert, |names| - 1);
  }

  /** When every conversion succeeds, the element list of `names[i]` is the
      one the conversion returns for that graph, and the loop leaves the
      graph as its conversion left it. */
  lemma {:induction false} RecomputeAt(names: seq<string>, graphs: map<string, GraphData>, layouts: map<string, Layout>,
                                       convert: (GraphData, Layout) --> Converted, i: nat)
    requires Distinct(names) && Ready(names, graphs, layouts, convert) && i < |names|
    requires RecomputeSpec(names, graphs, layouts, convert).failure.None?
    ensures var c := convert(graphs[names[i]], layouts[names[i]]);
            var r := RecomputeSpec(names, graphs, layouts, convert);
            && names[i] in r.cytoData
            && c.result == Success(r.cytoData[names[i]])
            && r.graphs[names[i]] == c.graph
    decreases |names|
  {
    RecomputePrefix(names, graphs, layouts, convert);
    if i < |names| - 1 {
      var init := names[..|names| - 1];
      assert init[i] == names[i] && names[i] != names[|names| - 1];
      RecomputeAt(init, graphs, layouts, convert, i);
    }
  }

  /** When every conversion succeeds, every graph's element list is the one
      the conversion returns for it, and every graph is as its conversion
      left it. */
  lemma RecomputeAll(names: seq<string>, graphs: map<string, GraphData>, layouts: map<string, Layout>,
                     convert: (GraphData, Layout) --> Converted)
    requires Distinct(names) && Ready(names, graphs, layouts, convert)
    requires RecomputeSpec(names, graphs, layouts, convert).failure.None?
    ensures forall i :: 0 <= i < |names| ==>
              var c := convert(graphs[names[i]], layouts[names[i]]);
              var r := RecomputeSpec(names, graphs, layouts, convert);
              && names[i] in r.cytoData
              && c.result == Success(r.cytoData[names[i]])
              && r.graphs[names[i]] == c.graph
  {
    forall i | 0 <= i < |names| {
      RecomputeAt(names, graphs, layouts, convert, i);
    }
  }

  /** If some conversion raises, it is the first in `names` that does; the
      graphs before it converted without raising and no later graph is
      touched. */
  lemma {:induction false} RecomputeFirstFailure(names: seq<string>, graphs: map<string, GraphData>, layouts: map<string, Layout>,
                                                 convert: (GraphData, Layout) --> Converted)
    requires Distinct(names) && Ready(names, graphs, layouts, convert)
    requires RecomputeSpec(names, graphs, layouts, convert).failure.Some?
    ensures exists j :: 0 <= j < |names| && FailsFirstAt(names, graphs, layouts, convert, j)
    decreases |names|
  {
    var init, name := names[..|names| - 1], names[|names| - 1];
    PrefixReady(names, graphs, layouts, convert, |names| - 1);
    if RecomputeSpec(init, graphs, layouts, convert).failure.Some? {
      RecomputeFirstFailure(init, graphs, layouts, convert);
      var j :| 0 <= j < |init| && FailsFirstAt(init, graphs, layouts, convert, j);
      FailsFirstExtends(names, graphs, layouts, convert, j);
    } else {
      FailsLast(names, graphs, layouts, convert);
    }
  }

  /** The conversion of `names[j]` is the one that raised: the loop reports
      its failure, every earlier conversion succeeded, and every later
      graph is as it was. */
  ghost predicate FailsFirstAt(names: seq<string>, graphs: map<string, GraphData>, layouts: map<string, Layout>,
                               convert: (GraphData, Layout) --> Converted, j: nat)
    requires Distinct(names) && Ready(names, graphs, layouts, convert) && j < |names|
  {
    var r := RecomputeSpec(names, graphs, layouts, convert);
    var c := convert(graphs[names[j]], layouts[names[j]]);
    && c.result.Failure?
    && r.failure == Some((names[j], c.result.error))
    && (forall k :: 0 <= k < j ==> convert(graphs[names[k]], layouts[names[k]]).result.Success?)
    && (forall k :: j < k < |names| ==> r.graphs[names[k]] == graphs[names[k]])
  }

  /** A failure in all but the last name is the failure of the loop. */
  lemma FailsFirstExtends(names: seq<string>, graphs: map<string, GraphData>, layouts: map<string, Layout>,
                          convert: (GraphData, Layout) --> Converted, j: nat)
    requires Distinct(names) && Ready(names, graphs, layouts, convert) && j + 1 < |names|
    requires Distinct(names[..|names| - 1]) && Ready(names[..|names| - 1], graphs, layouts, convert)
    requires FailsFirstAt(names[..|names| - 1], graphs, layouts, convert, j)
    ensures FailsFirstAt(names, graphs, layouts, convert, j)
  {
    var init, name := names[..|names| - 1], names[|names| - 1];
    assert RecomputeSpec(names, graphs, layouts, convert) == RecomputeSpec(init, graphs, layouts, convert);
    assert forall k :: 0 <= k < |init| ==> init[k] == names[k] && init[k] != name;
  }

  /** A failure at the last name, after none before it, is the failure of
      the loop. */
  lemma FailsLast(names: seq<string>, graphs: map<string, GraphData>, layouts: map<string, Layout>,
                  convert: (GraphData, Layout) --> Converted)
    requires Distinct(names) && Ready(names, graphs, layouts, convert) && names != []
    requires Distinct(names[..|names| - 1]) && Ready(names[..|names| - 1], graphs, layouts, convert)
    requires RecomputeSpec(names[..|names| - 1], graphs, layouts, convert).failure.None?
    requires RecomputeSpec(names, graphs, layouts, convert).failure.Some?
    ensures FailsFirstAt(names, graphs, layouts, convert, |names| - 1)
  {
    var init, name := names[..|names| - 1], names[|names| - 1];
    var c := convert(graphs[name], layouts[name]);
    assert c.result.Failure? && RecomputeSpec(names, graphs, layouts, convert).failure == Some((name, c.result.error));
    forall k | 0 <= k < |init|
      ensures convert(graphs[names[k]], layouts[names[k]]).result.Success?
    {
      assert init[k] == names[k];
      RecomputeAt(init, graphs, layouts, convert, k);
    }
  }

  /** A prefix of the names is as ready as the names. */
  lemma PrefixReady(names: seq<string>, graphs: map<string, GraphData>, layouts: map<string, Layout>,
                    convert: (GraphData, Layout) --> Converted, k: nat)
    requires Distinct(names) && Ready(names, graphs, layouts, convert) && k <= |names|
    ensures Distinct(names[..k]) && Ready(names[..k], graphs, layouts, convert)
  {
    assert forall i :: 0 <= i < k ==> names[..k][i] == names[i];
  }

  /** One more graph for a loop that has not failed yet. */
  lemma RecomputeStep(names: seq<string>, graphs: map<string, GraphData>, layouts: map<string, Layout>,
                      convert: (GraphData, Layout) --> Converted, i: nat, done: Recomputed)
    requires Distinct(names) && Ready(names, graphs, layouts, convert) && i < |names|
    requires Distinct(names[..i]) && Ready(names[..i], graphs, layouts, convert)
    requires RecomputeSpec(names[..i], graphs, layouts, convert) == done && done.failure.None?
    ensures Distinct(names[..i + 1]) && Ready(names[..i + 1], graphs, layouts, convert)
    ensures var c := convert(graphs[names[i]], layouts[names[i]]);
            RecomputeSpec(names[..i + 1], graphs, layouts, convert) ==
              if c.result.Failure? then Recomputed(done.graphs[names[i] := c.graph], done.cytoData, Some((names[i], c.result.error)))
              else Recomputed(done.graphs[names[i] := c.graph], done.cytoData[names[i] := c.result.value], None)
  {
    var s := names[..i + 1];
    PrefixReady(names, graphs, layouts, convert, i + 1);
    assert s[..|s| - 1] == names[..i] && s[|s| - 1] == names[i];
  }

  /** Once a conversion has raised, the rest of the names change nothing. */
  lemma {:induction false} RecomputeStops(names: seq<string>, graphs: map<string, GraphData>, layouts: map<string, Layout>,
                                          convert: (GraphData, Layout) --> Converted, k: nat)
    requires Distinct(names) && Ready(names, graphs, layouts, convert) && k <= |names|
    requires Distinct(names[..k]) && Ready(names[..k], graphs, layouts, convert)
    requires RecomputeSpec(names[..k], graphs, layouts, convert).failure.Some?
    ensures RecomputeSpec(names, graphs, layouts, convert) == RecomputeSpec(names[..k], graphs, layouts, convert)
    decreases |names| - k
  {
    if k < |names| {
      var init := names[..|names| - 1];
      assert init[..k] == names[..k];
      assert forall i :: 0 <= i < |init| ==> init[i] == names[i];
      RecomputeStops(init, graphs, layouts, convert, k);
    } else {
      assert names[..k] == names;
    }
  }

  /** visualize.py:121-123: convert the graphs in order, storing each
      element list under the graph's name; each conversion annotates its
      graph, and the loop hands the graphs back in `after`. */
  method RecomputeCytoData(names: seq<string>, graphs: map<string, GraphData>, layouts: map<string, Layout>)
    returns (after: map<string, GraphData>, cytoData: map<string, seq<Element>>, failure: Option<(string, ConvertFailure)>)
    requires Distinct(names)
    requires forall i :: 0 <= i < |names| ==> names[i] in graphs && names[i] in layouts && WellFormed(graphs[names[i]])
    ensures Ready(names, graphs, layouts, ConvertSpec)
    ensures Recomputed(after, cytoData, failure) == RecomputeSpec(names, graphs, layouts, ConvertSpec)
  {
    forall i | 0 <= i < |names|
      ensures Indexed(graphs[names[i]])
    {
      WellFormedIndexed(graphs[names[i]]);
    }
    after, cytoData, failure := graphs, map[], None;
    var i := 0;
    while i < |names|
      invariant 0 <= i <= |names|
      invariant Distinct(names[..i]) && Ready(names[..i], graphs, layouts, ConvertSpec)
      invariant RecomputeSpec(names[..i], graphs, layouts, ConvertSpec) == Recomputed(after, cytoData, None)
    {
      var name := names[i];
      RecomputeStep(names, graphs, layouts, ConvertSpec, i, Recomputed(after, cytoData, None));
      var g := new Graph(graphs[name]);
      var result := ConvertGraphToCyto(g, layouts[name]);
      after := after[name := g.Data()];
      if result.Failure? {
        failure := Some((name, result.error));
        RecomputeStops(names, graphs, layouts, ConvertSpec, i + 1);
        return;
      }
      cytoData := cytoData[name := result.value];
      i := i + 1;
    }
    assert names[..i] == names;
  }
}
