/** The node-search callback `test` (visualize.py:206-214): the options of
    the node-search dropdown for the graph picked in the graph selector. */
module NodeSearch {
  import opened Wrappers
  import opened Graphs

  /** The key under which the preprocessed data keeps the solution table. */
  const PersonalValueSlns := "personal_value_slns"

  /** One `{"label": ..., "value": ...}` entry of the dropdown; `caption` is
      its "label". */
  datatype DropdownOption = DropdownOption(caption: string, value: string)

  /** The preprocessed data the callback reads: the graphs by name, and the
      table stored under `personal_value_slns` (absent when `None`), which
      maps a name to a list of node names. */
  datatype Store = Store(graphs: map<string, GraphData>, solutions: Option<map<string, seq<string>>>)

  /** Why the callback raises instead of answering. */
  datatype SearchFault =
    | NotAGraph        // the name is the solution table's own key: a dict has no `nodes()`
    | MissingSolutions // the name is no graph and there is no solution table to look in

  /** The callback's outcome: a list of options, no update at all (it
      returns `None` for an unknown name), or an exception. */
  datatype Reply = Options(options: seq<DropdownOption>) | NoOptions | Fault(fault: SearchFault)

  /** Python's ordering of `str` values: code point by code point, and a
      proper prefix before the longer string. */
  predicate AtMost(a: string, b: string)
    decreases |a|
  {
    if a == [] then true
    else if b == [] then false
    else if a[0] != b[0] then a[0] < b[0]
    else AtMost(a[1..], b[1..])
  }

  /** `AtMost` is the lexicographic order: `a` is a prefix of `b`, or at the
      first position where they differ `a` has the smaller character. */
  lemma {:induction false} AtMostLexicographic(a: string, b: string)
    ensures AtMost(a, b) <==> (a <= b || exists k :: 0 <= k < |a| && k < |b| && a[..k] == b[..k] && a[k] < b[k])
    decreases |a|
  {
    if a != [] && b != [] {
      if a[0] != b[0] {
        assert a[..0] == b[..0];
      } else {
        AtMostLexicographic(a[1..], b[1..]);
        if a <= b {
          assert a[1..] <= b[1..];
        }
        ShiftDifference(a, b);
      }
    }
  }

  /** Past a common first character, the first difference moves one place. */
  lemma ShiftDifference(a: string, b: string)
    requires a != [] && b != [] && a[0] == b[0]
    ensures (exists k :: 0 <= k < |a| && k < |b| && a[..k] == b[..k] && a[k] < b[k]) <==>
            (exists k :: 0 <= k < |a| - 1 && k < |b| - 1 && a[1..][..k] == b[1..][..k] && a[1..][k] < b[1..][k])
  {
    if exists k :: 0 <= k < |a| - 1 && k < |b| - 1 && a[1..][..k] == b[1..][..k] && a[1..][k] < b[1..][k] {
      var k :| 0 <= k < |a| - 1 && k < |b| - 1 && a[1..][..k] == b[1..][..k] && a[1..][k] < b[1..][k];
      assert a[..k + 1] == [a[0]] + a[1..][..k] && b[..k + 1] == [b[0]] + b[1..][..k];
      assert a[k + 1] < b[k + 1];
    }
    if exists k :: 0 <= k < |a| && k < |b| && a[..k] == b[..k] && a[k] < b[k] {
      var k :| 0 <= k < |a| && k < |b| && a[..k] == b[..k] && a[k] < b[k];
      assert k > 0;
      assert a[1..][..k - 1] == a[..k][1..] && b[1..][..k - 1] == b[..k][1..];
      assert a[1..][k - 1] < b[1..][k - 1];
    }
  }

  lemma {:induction false} AtMostReflexive(a: string)
    ensures AtMost(a, a)
    decreases |a|
  {
    if a != [] {
      AtMostReflexive(a[1..]);
    }
  }

  lemma {:induction false} AtMostTotal(a: string, b: string)
    ensures AtMost(a, b) || AtMost(b, a)
    decreases |a|
  {
    if a != [] && b != [] && a[0] == b[0] {
      AtMostTotal(a[1..], b[1..]);
    }
  }

  lemma {:induction false} AtMostAntisymmetric(a: string, b: string)
    requires AtMost(a, b) && AtMost(b, a)
    ensures a == b
    decreases |a|
  {
    if a != [] {
      AtMostAntisymmetric(a[1..], b[1..]);
      assert a == [a[0]] + a[1..] && b == [b[0]] + b[1..];
    }
  }

  lemma {:induction false} AtMostTransitive(a: string, b: string, c: string)
    requires AtMost(a, b) && AtMost(b, c)
    ensures AtMost(a, c)
    decreases |a|
  {
    if a != [] && a[0] == b[0] && b[0] == c[0] {
      AtMostTransitive(a[1..], b[1..], c[1..]);
    }
  }

  predicate Sorted(s: seq<string>) {
    forall i, j :: 0 <= i < j < |s| ==> AtMost(s[i], s[j])
  }

  /** `x` placed before the first element of the sorted `s` it does not exceed. */
  function Insert(x: string, s: seq<string>): (r: seq<string>)
    requires Sorted(s)
    ensures Sorted(r)
    ensures multiset(r) == multiset(s) + multiset{x}
  {
    if s == [] then [x]
    else if AtMost(x, s[0]) then
      InsertFront(x, s);
      [x] + s
    else
      AtMostTotal(x, s[0]);
      var rest := Insert(x, s[1..]);
      InsertBehind(s[0], s[1..], x, rest);
      assert s == [s[0]] + s[1..];
      [s[0]] + rest
  }

  lemma InsertFront(x: string, s: seq<string>)
    requires Sorted(s) && s != [] && AtMost(x, s[0])
    ensures Sorted([x] + s)
  {
    forall j | 0 < j < |s| + 1
      ensures AtMost(x, ([x] + s)[j])
    {
      if j > 1 {
        AtMostTransitive(x, s[0], s[j - 1]);
      }
    }
  }

  /** Putting the head `y` back in front of `rest`, the tail with `x`
      inserted, keeps the list sorted when `y` precedes `x` and the tail. */
  lemma InsertBehind(y: string, tail: seq<string>, x: string, rest: seq<string>)
    requires Sorted([y] + tail) && AtMost(y, x)
    requires Sorted(rest) && multiset(rest) == multiset(tail) + multiset{x}
    ensures Sorted([y] + rest)
  {
    forall j | 0 <= j < |rest|
      ensures AtMost(y, rest[j])
    {
      HeadPrecedes(y, tail, x, rest, j);
    }
    ConsSorted(y, rest);
  }

  lemma HeadPrecedes(y: string, tail: seq<string>, x: string, rest: seq<string>, j: nat)
    requires Sorted([y] + tail) && AtMost(y, x)
    requires multiset(rest) == multiset(tail) + multiset{x} && j < |rest|
    ensures AtMost(y, rest[j])
  {
    assert rest[j] in multiset(rest);
    if rest[j] != x {
      assert rest[j] in multiset(tail);
      var k :| 0 <= k < |tail| && tail[k] == rest[j];
      var s := [y] + tail;
      assert s[0] == y && s[k + 1] == tail[k];
      assert AtMost(s[0], s[k + 1]);
    }
  }

  /** A head that precedes every element of a sorted tail gives a sorted list. */
  lemma ConsSorted(y: string, rest: seq<string>)
    requires Sorted(rest) && forall j :: 0 <= j < |rest| ==> AtMost(y, rest[j])
    ensures Sorted([y] + rest)
  {
    var s := [y] + rest;
    forall i, j | 0 <= i < j < |s|
      ensures AtMost(s[i], s[j])
    {
      assert s[j] == rest[j - 1];
      if i > 0 {
        assert s[i] == rest[i - 1];
      }
    }
  }

  /** Python's `sorted` on a list of strings. */
  function Sort(s: seq<string>): (r: seq<string>)
    ensures Sorted(r)
    ensures multiset(r) == multiset(s)
  {
    if s == [] then []
    else
      assert s == [s[0]] + s[1..];
      Insert(s[0], Sort(s[1..]))
  }

  /** There is only one sorted arrangement of a multiset of strings, so any
      sorting procedure gives what `Sort` gives. */
  lemma {:induction false} SortedUnique(a: seq<string>, b: seq<string>)
    requires Sorted(a) && Sorted(b) && multiset(a) == multiset(b)
    ensures a == b
    decreases |a|
  {
    if a != [] {
      SameHead(a, b);
      SameTail(a, b);
      SortedTail(a);
      SortedTail(b);
      SortedUnique(a[1..], b[1..]);
      assert a == [a[0]] + a[1..] && b == [b[0]] + b[1..];
    }
  }

  /** The first element of a sorted list precedes every element of it. */
  lemma FirstPrecedes(s: seq<string>, x: string)
    requires Sorted(s) && x in multiset(s)
    ensures AtMost(s[0], x)
  {
    var i :| 0 <= i < |s| && s[i] == x;
    if i == 0 {
      AtMostReflexive(x);
    }
  }

  lemma SameHead(a: seq<string>, b: seq<string>)
    requires Sorted(a) && Sorted(b) && multiset(a) == multiset(b) && a != []
    ensures b != [] && a[0] == b[0]
  {
    assert a[0] in multiset(a);
    assert b != [];
    assert b[0] in multiset(b);
    FirstPrecedes(b, a[0]);
    FirstPrecedes(a, b[0]);
    AtMostAntisymmetric(a[0], b[0]);
  }

  lemma SameTail(a: seq<string>, b: seq<string>)
    requires a != [] && b != [] && a[0] == b[0] && multiset(a) == multiset(b)
    ensures multiset(a[1..]) == multiset(b[1..])
  {
    assert a == [a[0]] + a[1..] && b == [b[0]] + b[1..];
    assert multiset(a) == multiset{a[0]} + multiset(a[1..]);
    assert multiset(b) == multiset{b[0]} + multiset(b[1..]);
    assert multiset(a[1..]) == multiset(a) - multiset{a[0]};
    assert multiset(b[1..]) == multiset(b) - multiset{b[0]};
  }

  lemma SortedTail(s: seq<string>)
    requires Sorted(s) && s != []
    ensures Sorted(s[1..])
  {
    forall i, j | 0 <= i < j < |s| - 1
      ensures AtMost(s[1..][i], s[1..][j])
    {
      assert s[1..][i] == s[i + 1] && s[1..][j] == s[j + 1];
    }
  }

  /** The list comprehension of visualize.py:214. */
  function ToOptions(nodes: seq<string>): (r: seq<DropdownOption>)
    ensures |r| == |nodes|
    ensures forall i :: 0 <= i < |r| ==> r[i] == DropdownOption(nodes[i], nodes[i])
  {
    if nodes == [] then [] else [DropdownOption(nodes[0], nodes[0])] + ToOptions(nodes[1..])
  }

  /** The names the options show, in dropdown order. */
  function Labels(options: seq<DropdownOption>): (r: seq<string>)
    ensures |r| == |options|
    ensures forall i :: 0 <= i < |r| ==> r[i] == options[i].caption
  {
    if options == [] then [] else [options[0].caption] + Labels(options[1..])
  }

  /** The callback on the graph name `name`. The store never holds a graph
      under the solution table's own key, since a Python dict has one value
      per key. */
  function Search(store: Store, name: string): (r: Reply)
    requires PersonalValueSlns !in store.graphs
    ensures r.Options? <==>
      name in store.graphs ||
      (store.solutions.Some? && name != PersonalValueSlns && name in store.solutions.value)
    ensures r == NoOptions <==>
      name !in store.graphs && store.solutions.Some? && name != PersonalValueSlns && name !in store.solutions.value
    ensures r == Fault(NotAGraph) <==> name == PersonalValueSlns && store.solutions.Some?
    ensures r == Fault(MissingSolutions) <==> name !in store.graphs && store.solutions.None?
  {
    if name in store.graphs then Options(ToOptions(Sort(store.graphs[name].nodes)))
    else if name == PersonalValueSlns && store.solutions.Some? then Fault(NotAGraph)
    else if store.solutions.None? then Fault(MissingSolutions)
    else if name in store.solutions.value then Options(ToOptions(Sort(store.solutions.value[name])))
    else NoOptions
  }

  /** The node names the callback offers for `name`, when it offers any. */
  function Offered(store: Store, name: string): (nodes: seq<string>)
    requires PersonalValueSlns !in store.graphs
    requires Search(store, name).Options?
  {
    if name in store.graphs then store.graphs[name].nodes else store.solutions.value[name]
  }

  /** The options list exactly the offered node names, each once per
      occurrence, in Python's string order, each with its label as its
      value; and this list is the only one that is sorted and a
      rearrangement of those names. */
  lemma SearchOptions(store: Store, name: string)
    requires PersonalValueSlns !in store.graphs
    requires Search(store, name).Options?
    ensures var o := Search(store, name).options;
            && Sorted(Labels(o))
            && multiset(Labels(o)) == multiset(Offered(store, name))
            && (forall i :: 0 <= i < |o| ==> o[i].caption == o[i].value)
  {
    var o := Search(store, name).options;
    var sorted := Sort(Offered(store, name));
    assert Labels(o) == sorted;
  }

  /** Any sorted rearrangement of the offered names is the label list the
      callback returns. */
  lemma SearchOptionsUnique(store: Store, name: string, names: seq<string>)
    requires PersonalValueSlns !in store.graphs
    requires Search(store, name).Options?
    requires Sorted(names) && multiset(names) == multiset(Offered(store, name))
    ensures Labels(Search(store, name).options) == names
  {
    SearchOptions(store, name);
    SortedUnique(Labels(Search(store, name).options), names);
  }

  /** For a well-formed graph the options name each node exactly once. */
  lemma GraphOptionsDistinct(store: Store, name: string)
    requires PersonalValueSlns !in store.graphs
    requires name in store.graphs && Distinct(store.graphs[name].nodes)
    ensures Distinct(Labels(Search(store, name).options))
  {
    SearchOptions(store, name);
    var l := Labels(Search(store, name).options);
    var nodes := store.graphs[name].nodes;
    forall x | x in multiset(l)
      ensures multiset(l)[x] <= 1
    {
      DistinctCount(nodes, x);
    }
    CountDistinct(l);
  }

  lemma {:induction false} DistinctCount(s: seq<string>, x: string)
    requires Distinct(s)
    ensures multiset(s)[x] <= 1
    decreases |s|
  {
    if s != [] {
      assert s == [s[0]] + s[1..];
      DistinctTail(s);
      DistinctCount(s[1..], x);
      if s[0] == x {
        assert x !in s[1..] by {
          forall k | 0 <= k < |s[1..]|
            ensures s[1..][k] != x
          {
            assert s[1..][k] == s[k + 1];
          }
        }
      }
    }
  }

  lemma DistinctTail(s: seq<string>)
    requires Distinct(s) && s != []
    ensures Distinct(s[1..])
  {
    forall i, j | 0 <= i < j < |s| - 1
      ensures s[1..][i] != s[1..][j]
    {
      assert s[1..][i] == s[i + 1] && s[1..][j] == s[j + 1];
    }
  }

  lemma CountDistinct(s: seq<string>)
    requires forall x :: x in multiset(s) ==> multiset(s)[x] <= 1
    ensures Distinct(s)
  {
    forall i, j | 0 <= i < j < |s|
      ensures s[i] != s[j]
    {
      if s[i] == s[j] {
        CountedTwice(s, i, j);
      }
    }
  }

  lemma CountedTwice(s: seq<string>, i: nat, j: nat)
    requires i < j < |s| && s[i] == s[j]
    ensures multiset(s)[s[i]] >= 2
  {
    assert s == s[..j] + [s[j]] + s[j + 1..];
    assert s[..j][i] == s[i];
    assert s[i] in multiset(s[..j]);
  }
}
