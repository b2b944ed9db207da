# ClimateMind ontology visualization: graph conversion and node search, in Dafny

This project models the part of `visualize.py` that holds logic rather than
UI wiring. It proves properties of that model.

- **`convert_graph_to_cyto`** turns one ontology graph, a networkx `DiGraph`, into a cytoscape element list in three steps:
  - The label pass rewrites every node's `label` in place. The new label is the old one wrapped by `textwrap.wrap(label, 20)` and joined with newlines. The pass also adds two display-size hints, `__cyto_width` and `__cyto_height`.
  - The edge records then get their style `classes`.
  - The node records get their `classes` and their graphviz position, truncated to integers. The list is the node records followed by the edge records.
- **The start-up loop** converts every preprocessed graph in order and stores each element list under the graph's name.
- **The node-search callback `test`** offers the selected graph's node names, sorted, as dropdown options.

Modules, in dependency order:

- `Wrappers`: `Option` and `Result`.
- `Attributes`: attribute dicts, and the attribute names the conversion uses.
- `Decimal`: decimal rendering of naturals, as `str(int)` and `.2f` produce it.
- `SizeHints`: the two hint strings.
- `TextWrap`: `textwrap.wrap(text, 20)`, with tab expansion, whitespace munging, chunking, greedy filling, the cutting of long words and the dropping of whitespace. `TextWrapFacts` covers blank text, single words and the uniqueness of the chunking.
- `WrapLayout`: where the wrapped lines lie in the munged text: whitespace between them, and no break inside a chunk that fits on a line.
- `Labels`: the annotation of one node, including its three ways to raise.
- `Graphs`: graph snapshots, the label pass as a function, `AnnotatePass` as its loop, and a `Graph` class whose `AnnotateLabels` rewrites the node attributes in place.
- `Elements`: the node and edge records `cytoscape_data` makes, and the two in-place loops over arrays of records.
- `Convert`: the whole conversion, as a specification function and as a method on a `Graph` object.
- `ConvertFacts`: the shape of the element list, and when the conversion succeeds.
- `Recompute`: the start-up loop.
- `NodeSearch`: the `test` callback, Python's string order and `sorted`.
- `WorkedCases`: concrete labels worked through the model.

External inputs that become parameters:

- **The graphviz layout** of each graph (`draw_graph`, layout engine `dot`) is a parameter `Layout`, a map from node name to coordinates. A name with no entry stands for a node without a `pos` attribute.
- **The preprocessed data** loaded from the pickle is a parameter: the graphs by name and the `personal_value_slns` table.

Behaviour of the code that a reader might expect to be otherwise, and that the model follows:

- **Width hint for a ten-character label.** "Root Value" computes `10 / 1.5 + 3.5 = 10.1666…`, which gives `"10.17em"`, not `"10.33em"` (`WorkedCases.TenCharacterHints`).
- **Words longer than 20 characters.** `textwrap.wrap` keeps `break_long_words` on, so such a word is cut into pieces of 20 characters rather than kept as one over-long line (`TextWrapFacts.WordWrap`, `WorkedCases.LongWordIsCut`).
- **Unknown graph name in the search.** The callback prints a message and returns `None` rather than raising, so the dropdown is not updated (`NodeSearch.Search`, reply `NoOptions`).
- **A failing conversion.** The exception leaves the start-up loop: the other graphs do not go on unaffected, no later graph is converted and nothing is written to the cache (`Recompute.RecomputeFirstFailure`).

## Model

| member | source | states |
|---|---|---|
| Decimal.NatToStringRoundTrip | visualize.py:81 | reading back the decimal digits of `str(n)` gives `n` |
| Decimal.NatToString | visualize.py:81 | `str(n)` is made of digits only and has no leading zero unless it is "0" |
| Decimal.Fixed2 | visualize.py:80 | a value in hundredths, written with `.2f`: an integer part with no leading zero, a point, and two digits, which read back to the value |
| SizeHints.WidthHundredths | visualize.py:80 | the width in hundredths is within 1/300 of `L / 1.5 + 3.5` |
| SizeHints.NoRoundingTie | visualize.py:80 | it is the only whole number of hundredths within half a hundredth of `L / 1.5 + 3.5`, so round-half-even formatting gives these digits |
| SizeHints.WidthHint | visualize.py:78-80 | the width hint is a two-decimal number with no leading zero followed by "em", and its digits read back to the rounded `L / 1.5 + 3.5` |
| SizeHints.HeightHint | visualize.py:81 | the height hint is a decimal number with no leading zero followed by "em" that reads back to the line count plus three |
| TextWrap.ExpandTabs | visualize.py:75 | `expandtabs(8)` leaves no tab, adds only spaces and keeps every non-whitespace character in order; a lone tab becomes 1 to 8 spaces ending on a multiple of 8 columns, and any other lone character is copied |
| TextWrapFacts.ExpandTabsAppend | visualize.py:75 | `expandtabs` works piece by piece: the expansion of `a + b` is that of `a`, then that of `b` from the column reached, counted since the last newline or carriage return. With the one-character cases this fixes the whole output: every non-tab character is copied in order, and each tab becomes 1 to 8 spaces ending on a multiple of 8 columns |
| TextWrap.ReplaceWhitespace | visualize.py:75 | each ASCII whitespace character becomes one space, and every other character stays at its position |
| TextWrap.Munge | visualize.py:75 | after munging, the only ASCII whitespace is the space, and the non-whitespace characters are unchanged |
| TextWrap.RunLength | visualize.py:75 | a leading run is all spaces or all non-spaces, and it is maximal |
| TextWrap.Chunks | visualize.py:75 | the chunks are non-empty runs that are each all spaces or all non-spaces, neighbouring chunks are of different kinds (so each run is maximal), and concatenated they give back the text |
| TextWrap.Fit | visualize.py:75 | a line takes the longest prefix of whole chunks that fits in 20 columns |
| TextWrap.SplitFit | visualize.py:75 | a line's whole chunks and the remaining chunks together make up the input, and the next chunk would overflow the line |
| TextWrap.TakeWhole | visualize.py:75 | the line's whole chunks followed by the remaining chunks are exactly the input, less a leading whitespace chunk on every line but the first; the line fits in 20 columns and the next chunk would overflow it |
| TextWrap.CutLong | visualize.py:75 | when the next chunk fits on a line nothing changes; when it fits on no line it is split in two, its first piece filling the line to exactly 20 columns and its second piece leading the rest; no visible character is lost |
| TextWrap.DropTrailingBlank | visualize.py:75 | the line loses exactly its last chunk when that is whitespace and is otherwise unchanged |
| TextWrap.NextLine | visualize.py:75 | each line step emits at most 20 columns, keeps every visible character and strictly shrinks what is left to wrap |
| TextWrap.WrapChunks | visualize.py:75 | every emitted line has 1 to 20 characters and no newline, and the lines keep every visible character of the chunks, in order |
| TextWrap.Wrap | visualize.py:75 | `textwrap.wrap(text, 20)` gives lines of 1 to 20 characters without newlines that keep every non-whitespace character of the text, in order |
| TextWrapFacts.LoneBlankChunk | visualize.py:75 | a whitespace chunk on its own gives no line, however long it is |
| TextWrapFacts.BlankText | visualize.py:75 | text made only of ASCII whitespace wraps to no line, and text that wraps to no line has no visible character |
| TextWrapFacts.Pieces | visualize.py:75 | the pieces of a word concatenate back to it, and every piece but the last has exactly 20 characters |
| TextWrapFacts.LoneWordChunk | visualize.py:75 | a single word chunk is emitted as its 20-character pieces |
| TextWrapFacts.WordWrap | visualize.py:75 | a label with no whitespace wraps to itself when it fits and is otherwise cut into 20-character pieces |
| TextWrapFacts.ExpandTabsKeepsPlain | visualize.py:75 | `expandtabs` leaves text without tab, newline or carriage return unchanged |
| TextWrapFacts.MungePlain | visualize.py:75 | munging leaves text whose only ASCII whitespace is the space unchanged |
| TextWrapFacts.ChunksOfConcat | visualize.py:75 | any split into non-empty uniform runs of alternating kinds is the chunking of its concatenation, so the chunking is unique |
| WrapLayout.NextLineShape | visualize.py:75 | one line step drops only whitespace before and after the line, starts and ends the line where the chunks may be broken, and leaves either whole chunks or the tail of a cut long chunk |
| WrapLayout.ChunksLayout | visualize.py:75 | the lines made from a chunk list, with whitespace gaps between them, concatenate to the chunks, and every line starts and ends where the chunks may be broken |
| WrapLayout.WrapLaidOut | visualize.py:75 | the munged label is the wrapped lines with whitespace between them, and no line starts or ends inside a chunk of at most 20 characters |
| Labels.JoinLines | visualize.py:77 | `"\n".join(lines)` is empty for no lines, is as long as the lines plus one newline between each two, and starts with the first line, followed by a newline when there are more |
| Labels.SplitLines | visualize.py:77 | splitting at newlines gives at least one part, no part holds a newline, and the parts joined back with newlines give the text |
| Labels.SplitJoin | visualize.py:77 | splitting the stored label at its newlines gives back the wrapped lines |
| Labels.FirstNewline | visualize.py:77 | the position of the first newline |
| Labels.LongestLine | visualize.py:80 | `len(max(lines, key=len))` is the length of some line and no line is longer |
| Labels.AnnotateNode | visualize.py:73-81 | the annotation of one node succeeds exactly when it has a text label that wraps to at least one line; only on success does it add the two hint keys; every other attribute is kept |
| Labels.AnnotateNodeFailure | visualize.py:74-80 | when the annotation raises, the reason is decided by the label alone: no label, a label that is not text, or a text label with no visible character; only in the last case has the node changed, its label set to the empty text |
| Labels.AnnotatedLabel | visualize.py:74-81 | after annotation, the label splits back into the wrapped lines of the old label, each of 1 to 20 characters, and keeps its non-whitespace characters; the hints are computed from those lines |
| Labels.BlankLabel | visualize.py:75-80 | a label with a visible character never makes `max()` raise, and a label made only of ASCII whitespace always does |
| Graphs.WellFormedIndexed | visualize.py:73 | every node and edge of a networkx graph has an attribute dict |
| Graphs.AnnotateAll | visualize.py:73-81 | the label pass keeps the set of nodes with attribute dicts |
| Graphs.AnnotateAllEffect | visualize.py:73-81 | the pass annotates each node up to and including the first one that raises, from its original attributes; it reports that node's failure; it leaves later nodes and nodes outside the list untouched |
| Graphs.AnnotateAllComplete | visualize.py:73-81 | the pass completes exactly when no node's annotation raises, and every node then carries its own annotation |
| Graphs.AnnotateAllStops | visualize.py:73-81 | once the pass has raised, the remaining nodes change nothing |
| Graphs.AnnotatePass | visualize.py:73-81 | the loop over the nodes computes the label pass, stopping at the first failing node |
| Graphs.RelabelWellFormed | visualize.py:77-81 | rewriting node attribute dicts keeps a graph well formed |
| Graphs.Graph.AnnotateLabels | visualize.py:73-81 | annotating a graph object in place leaves a well-formed graph with the same nodes and edges, and node attributes given by the label pass |
| Elements.TruncateTowardZero | visualize.py:102 | `int(float(x))` rounds toward zero: it is at most one unit from `x` and on the same side of zero |
| Elements.TruncateOdd | visualize.py:102 | truncation toward zero commutes with negation |
| Elements.OrName | visualize.py:85 | a truthy attribute is kept, and a missing or falsy one is replaced by the node name |
| Elements.NodeRecord | visualize.py:85 | a node record is the node's attributes with `id`, `value` and `name` set, with no classes or position yet |
| Elements.EdgeRecord | visualize.py:85 | an edge record is the edge's attributes with `source` and `target` set to its end nodes |
| Elements.NodeRecords | visualize.py:85-86 | one record per node, in node order, whose `value` is the node's name, whose keys are its attributes' plus `id`, `value` and `name`, and with no classes or position yet |
| Elements.EdgeRecords | visualize.py:85-87 | one record per edge, in edge order, whose `source` and `target` are its end nodes, whose keys are its attributes' plus those two, and with no classes or position yet |
| Elements.Apply | visualize.py:89-102 | one loop iteration never changes a record's data, and the edge loop never sets a position |
| Elements.ApplyAll | visualize.py:89-102 | a loop completes exactly when no iteration raises, and each record is then its own iteration's result |
| Elements.ApplyAllFirstFailure | visualize.py:89-102 | a loop's failure is that of the first record whose iteration raises |
| Elements.ApplyAllStops | visualize.py:89-102 | once a loop has raised, the later records are kept as they were |
| Elements.SetEdgeClasses | visualize.py:89-92 | the in-place edge loop over an array leaves exactly the records of the edge pass, and its failure |
| Elements.PlaceNodes | visualize.py:97-102 | the in-place node loop over an array leaves exactly the records of the node pass, and its failure |
| Convert.Relabelled | visualize.py:73-81 | the label pass changes only node attributes, and keeps which nodes have them |
| Convert.Assemble | visualize.py:85-104 | a built list has one element per node and per edge |
| Convert.ConvertSpec | visualize.py:50-104 | a conversion changes only node attributes; a successful one returns one element per node and per edge |
| Convert.ConvertWellFormed | visualize.py:50-104 | the conversion leaves a well-formed graph well formed |
| Convert.BuildElements | visualize.py:85-104 | the two array loops followed by the concatenation build the element list |
| Convert.ConvertGraphToCyto | visualize.py:50-104 | converting a graph object annotates it in place and returns the elements, or the failure, which the specification gives |
| ConvertFacts.EdgeStep | visualize.py:89-92 | on a real edge's record the lookups of source, target and `G[s][t]` succeed, and only a missing `cyto_classes` raises |
| ConvertFacts.NodeStep | visualize.py:97-102 | on a node's record the iteration succeeds exactly when the node has a position and `cyto_classes`, and its failure is otherwise named |
| ConvertFacts.AssembleSucceeds | visualize.py:85-104 | building succeeds exactly when every edge has `cyto_classes` and every node has a position and `cyto_classes` |
| ConvertFacts.AssembleNode | visualize.py:97-104 | element `i` is node `i`'s record with its `cyto_classes` and truncated position |
| ConvertFacts.AssembleEdge | visualize.py:89-92 | element `|nodes| + j` is edge `j`'s record with the edge's `cyto_classes` |
| ConvertFacts.AssembleShape | visualize.py:85-104 | the list is the node elements in node order, then the edge elements in edge order, each with its classes; only nodes have positions |
| ConvertFacts.EndpointElement | visualize.py:85-104 | an edge element's `source` or `target` equals the `value` of its end node's element |
| ConvertFacts.EdgeEndpointsAreNodes | visualize.py:85-104 | every edge element's `source` and `target` are the `value` of some node element of the list |
| ConvertFacts.AnnotateKeepsLookups | visualize.py:73-100 | the label pass keeps the `id` and `cyto_classes` the node loop reads |
| ConvertFacts.ConvertSucceeds | visualize.py:50-104 | a conversion returns a list exactly when every label wraps to a line and every edge and node has what the loops read; each node is then annotated from its own attributes |
| ConvertFacts.ConvertedLabels | visualize.py:73-104 | in a successful conversion node element `i` carries its label wrapped into lines of 1 to 20 characters and joined with newlines, and the two hints for those lines |
| Recompute.RecomputeSpec | visualize.py:121-123 | the loop keeps the set of graph names and leaves graphs outside the loop untouched; without a failure it stores a list for every name |
| Recompute.RecomputePrefix | visualize.py:122-123 | a loop without failure had no failure on its prefix, and its last step stored the last graph's list |
| Recompute.RecomputeAt | visualize.py:122-123 | without failure, the list stored under a name is the one its conversion returns, and the graph is as its conversion left it |
| Recompute.RecomputeAll | visualize.py:122-123 | the same for every name at once |
| Recompute.RecomputeFirstFailure | visualize.py:122-123 | a failing loop failed at the first name whose conversion raised; every earlier conversion succeeded and later graphs are untouched |
| Recompute.FailsFirstExtends | visualize.py:122-123 | a failure before the last name is the loop's failure |
| Recompute.FailsLast | visualize.py:122-123 | a failure at the last name, after none before it, is the loop's failure |
| Recompute.PrefixReady | visualize.py:122-123 | a prefix of the names is as ready as the names |
| Recompute.RecomputeStep | visualize.py:122-123 | one more name extends the loop by that graph's conversion |
| Recompute.RecomputeStops | visualize.py:122-123 | once a conversion has raised, the remaining names change nothing |
| Recompute.RecomputeCytoData | visualize.py:121-123 | the loop that converts a fresh graph object per name gives the graphs, stored lists and failure the specification gives |
| NodeSearch.AtMostLexicographic | visualize.py:208 | Python's string order: a prefix comes first, and otherwise the first differing character decides, both ways |
| NodeSearch.AtMostReflexive | visualize.py:208 | Python's string order is reflexive |
| NodeSearch.AtMostTotal | visualize.py:208 | it is total |
| NodeSearch.AtMostAntisymmetric | visualize.py:208 | it is antisymmetric |
| NodeSearch.AtMostTransitive | visualize.py:208 | it is transitive |
| NodeSearch.Insert | visualize.py:208 | inserting into a sorted list keeps it sorted and adds exactly the one element |
| NodeSearch.Sort | visualize.py:208-210 | `sorted` returns a sorted rearrangement of its input |
| NodeSearch.SortedUnique | visualize.py:208-210 | two sorted rearrangements of the same names are equal, so the sort's result is determined |
| NodeSearch.ToOptions | visualize.py:214 | each option shows its node name both as label and as value, in list order |
| NodeSearch.Search | visualize.py:206-214 | the callback answers with options exactly for a graph name or a name in the solution table; it returns nothing for another name; it raises for the table's own key and when there is no table |
| NodeSearch.SearchOptions | visualize.py:207-214 | the options' labels are the offered node names, sorted and each as often as it occurs, and every option's label is its value |
| NodeSearch.SearchOptionsUnique | visualize.py:207-214 | any sorted rearrangement of the offered names is exactly the label list returned |
| NodeSearch.GraphOptionsDistinct | visualize.py:207-208 | for a graph the options name each node once |
| WorkedCases.TenCharacterHints | visualize.py:78-81 | a one-line label of ten characters gets "10.17em" and "4em"; one of seven gets "8.17em" |
| WorkedCases.LongWordIsCut | visualize.py:75 | a word of 21 to 40 characters wraps to its first 20 characters and the rest, as "Supercalifragilisticexpialidocious" wraps to "Supercalifragilistic" and "expialidocious" |
| WorkedCases.TwoWordsOneLine | visualize.py:75 | two words that fit in 20 columns with the space between them, such as "Root Value", stay one line |
| WorkedCases.ThreeWordsTwoLines | visualize.py:75 | when the first two words fit and the third does not, the line takes the first two and drops the space after them, and the third word makes the second line |

## Left out

- **`draw_graph` and the graphviz layout.** This covers `to_agraph`, `unflatten` and `layout`, lines 11-40, 68-71 and 83. They are calls into graphviz. The positions they produce are the `Layout` parameter. The layout computed on lines 68-71 is never read, because line 83 replaces it with `draw_graph`'s.
- **The PNG export** of `draw_graph` and the `tree_root` argument: file output only.
- **Reading `pos`.** `N.get_node(id)` and `attr.get("pos", []).split(",")` are modelled as a lookup of two coordinates. A node without `pos` raises `NoPosition`. A malformed `pos` string and float parsing are not modelled.
- **`cytoscape_data` details.** The model takes node names and edge ends to be strings, as the ontology graphs have them. It does not model networkx's conversion of a non-text name with `str`.
- TextWrap.Wrap: greediness is stated for each line step (`TextWrap.Fit`, `TextWrap.SplitFit`: the next chunk would overflow the line), and `WrapLayout.WrapLaidOut` states where the lines lie, but no lemma says that the whole list of lines is the one greedy filling of the text; `WorkedCases.ThreeWordsTwoLines` shows it on three words.
- **Hyphen breaking.** `textwrap` breaks after hyphens by default. The model splits chunks only at whitespace.
- **Unicode whitespace in the munge step.** Only ASCII whitespace is munged and split on. `str.strip()`'s wider whitespace set is used where lines are stripped.
- Labels.BlankLabel: states "always raises" only for labels made of ASCII whitespace. A label made of other Unicode whitespace is not covered, because the munge step leaves it as a chunk.
- **Files, the cache and the environment.** This covers the pickle files, `DEBUG_USE_CACHE`, `processOntology`, and lines 105-125 outside the loop. They are I/O.
- **The Dash application.** This covers the layout, the clientside callbacks, `run_server` and the `print` in `test`. They are UI and I/O.
- Recompute.RecomputeCytoData: the loop's names. The model loops over graph names only. Line 122 iterates over every key of the preprocessed data, which `test` shows also holds the `personal_value_slns` table, a dict and not a graph. When that key comes up, `convert_graph_to_cyto` hands the dict to `nx.nx_agraph.to_agraph` (visualize.py:68). Its first step asks the dict `is_directed()` and raises `AttributeError`. So on the recompute path, with that table in the pickle, the loop never finishes: no later key is converted, and `processed_cyto_data.pickle` is not written.
- Recompute.RecomputeCytoData: graphs as values. The graphs are values, and each conversion gets a fresh `Graph` object. Aliasing between graph objects, where one graph is stored under two names, is not captured.
- ConvertFacts.EdgeEndpointsAreNodes: matches on `value`, not `id`. It states that edge ends match a node element's `value`, which is the node's name. Cytoscape matches on `id`, and `id` equals the name unless the node carries a truthy `id` attribute of its own.
- NodeSearch.Search: the selected value. The graph name is a string. Dash's initial `None` value is not modelled.
