/** The label annotation of one node (visualize.py:74-81): the label is
    wrapped to 20 columns and stored back joined with newlines, and the
    width and height hints are added. */
module Labels {
  import opened Wrappers
  import opened Attributes
  import opened TextWrap
  import opened SizeHints
  import TextWrapFacts

  /** `"\n".join(lines)`: the lines in order with one newline between each
      two of them. */
  function JoinLines(lines: seq<string>): (s: string)
    ensures lines == [] ==> s == []
    ensures lines != [] ==> |s| == |Concat(lines)| + |lines| - 1
    ensures lines != [] ==> s[..|lines[0]|] == lines[0]
    ensures |lines| > 1 ==> s[|lines[0]|] == '\n'
  {
    if lines == [] then []
    else if |lines| == 1 then
      ConcatOne(lines[0]);
      lines[0]
    else
      var s := lines[0] + "\n" + JoinLines(lines[1..]);
      assert s[..|lines[0]|] == lines[0];
      s
  }

  /** `s.split("\n")`: the newline-free pieces between the newlines, which
      joined back with newlines give `s`. */
  function SplitLines(s: string): (parts: seq<string>)
    ensures |parts| >= 1
    ensures forall i :: 0 <= i < |parts| ==> '\n' !in parts[i]
    ensures JoinLines(parts) == s
    decreases |s|
  {
    if '\n' !in s then
      ConcatOne(s);
      [s]
    else
      var i := FirstNewline(s);
      var more := SplitLines(s[i + 1..]);
      var parts := [s[..i]] + more;
      assert parts[1..] == more;
      assert s == s[..i] + "\n" + s[i + 1..];
      parts
  }

  function FirstNewline(s: string): (i: nat)
    requires '\n' in s
    ensures i < |s| && s[i] == '\n' && '\n' !in s[..i]
  {
    if s[0] == '\n' then 0
    else
      assert '\n' in s[1..] by {
        var k :| 0 <= k < |s| && s[k] == '\n';
        assert s[1..][k - 1] == '\n';
      }
      var j := FirstNewline(s[1..]);
      assert s[..j + 1] == [s[0]] + s[1..][..j];
      j + 1
  }

  lemma {:induction false} FirstNewlineAt(s: string, k: nat)
    requires k < |s| && s[k] == '\n' && '\n' !in s[..k]
    ensures '\n' in s && FirstNewline(s) == k
  {
    if k > 0 {
      assert s[..k][0] == s[0];
      assert s[1..][k - 1] == '\n';
      assert s[1..][..k - 1] == s[..k][1..];
      FirstNewlineAt(s[1..], k - 1);
    }
  }

  /** Splitting the stored label at its newlines gives back the wrapped lines. */
  lemma {:induction false} SplitJoin(lines: seq<string>)
    requires lines != [] && forall i :: 0 <= i < |lines| ==> '\n' !in lines[i]
    ensures SplitLines(JoinLines(lines)) == lines
  {
    if |lines| > 1 {
      var s := JoinLines(lines);
      var head := lines[0];
      assert s == head + "\n" + JoinLines(lines[1..]);
      assert s[..|head|] == head;
      FirstNewlineAt(s, |head|);
      assert s[|head| + 1..] == JoinLines(lines[1..]);
      SplitJoin(lines[1..]);
    }
  }

  /** `len(max(lines, key=len))` */
  function LongestLine(lines: seq<string>): (n: nat)
    requires lines != []
    ensures exists i :: 0 <= i < |lines| && n == |lines[i]|
    ensures forall i :: 0 <= i < |lines| ==> |lines[i]| <= n
  {
    if |lines| == 1 then |lines[0]|
    else
      var m := LongestLine(lines[1..]);
      assert forall i :: 1 <= i < |lines| ==> lines[i] == lines[1..][i - 1];
      if |lines[0]| >= m then |lines[0]| else m
  }

  /** Why the annotation of a node raises: `KeyError` for a missing label,
      `AttributeError` inside `textwrap` for a label that is not text, and
      `ValueError` from `max()` when the label wraps to no line at all. */
  datatype LabelFailure = MissingLabel | LabelNotText | NoLines

  /** A node's attributes after its annotation step, and whether it raised. */
  datatype Annotation = Annotation(attrs: Attrs, failure: Option<LabelFailure>)

  /** The body of the loop on visualize.py:73-81 for one node's attributes.
      When `max()` raises, the label has already been rewritten (to the
      empty text) and the two hints are missing. */
  function AnnotateNode(a: Attrs): (r: Annotation)
    ensures r.failure.None? <==> LabelKey in a && a[LabelKey].Text? && Wrap(a[LabelKey].text) != []
    ensures r.attrs.Keys == if r.failure.None? then a.Keys + {WidthKey, HeightKey} else a.Keys
    ensures forall k :: k in a && k != LabelKey && k != WidthKey && k != HeightKey ==> r.attrs[k] == a[k]
  {
    if LabelKey !in a then Annotation(a, Some(MissingLabel))
    else if !a[LabelKey].Text? then Annotation(a, Some(LabelNotText))
    else
      var lines := Wrap(a[LabelKey].text);
      var relabelled := a[LabelKey := Text(JoinLines(lines))];
      if lines == [] then Annotation(relabelled, Some(NoLines))
      else
        Annotation(relabelled[WidthKey := Text(WidthHint(LongestLine(lines)))]
                             [HeightKey := Text(HeightHint(|lines|))], None)
  }

  /** When the annotation of a node raises, the label alone decides why,
      and the node is left as it was except that a label that wraps to no
      line, which has no visible character, is already the empty text. */
  lemma AnnotateNodeFailure(a: Attrs)
    requires AnnotateNode(a).failure.Some?
    ensures var r := AnnotateNode(a);
            && (r.failure == Some(MissingLabel) <==> LabelKey !in a)
            && (r.failure == Some(LabelNotText) <==> LabelKey in a && !a[LabelKey].Text?)
            && (r.failure == Some(NoLines) <==> LabelKey in a && a[LabelKey].Text?)
            && (r.failure != Some(NoLines) ==> r.attrs == a)
            && (r.failure == Some(NoLines) ==>
                  Visible(a[LabelKey].text) == [] && r.attrs == a[LabelKey := Text([])])
  {
    if LabelKey in a && a[LabelKey].Text? {
      TextWrapFacts.BlankText(a[LabelKey].text);
    }
  }

  lemma {:induction false} VisibleJoin(lines: seq<string>)
    ensures Visible(JoinLines(lines)) == Visible(Concat(lines))
  {
    if |lines| == 1 {
      ConcatOne(lines[0]);
    } else if |lines| > 1 {
      VisibleJoin(lines[1..]);
      VisibleAppend(lines[0] + "\n", JoinLines(lines[1..]));
      VisibleAppend(lines[0], "\n");
      VisibleAppend(lines[0], Concat(lines[1..]));
    }
  }

  /** What an annotated node holds, read back from its attributes: its label
      splits at newlines into the wrapped lines of the old label, each of 1
      to 20 characters; the label keeps every non-whitespace character of the
      old one, in order; the height hint is the line count plus three and the
      width hint is computed from the longest of those lines. */
  lemma AnnotatedLabel(a: Attrs)
    requires AnnotateNode(a).failure.None?
    ensures var r := AnnotateNode(a).attrs;
            && r[LabelKey].Text?
            && r[LabelKey] == Text(JoinLines(Wrap(a[LabelKey].text)))
            && var lines := SplitLines(r[LabelKey].text);
            && lines == Wrap(a[LabelKey].text)
            && (forall i :: 0 <= i < |lines| ==> 1 <= |lines[i]| <= Width)
            && Visible(r[LabelKey].text) == Visible(a[LabelKey].text)
            && r[HeightKey] == Text(HeightHint(|lines|))
            && r[WidthKey] == Text(WidthHint(LongestLine(lines)))
  {
    var lines := Wrap(a[LabelKey].text);
    SplitJoin(lines);
    VisibleJoin(lines);
  }

  /** Whether the annotation of a node raises `ValueError` is decided by its
      label: a label with any non-whitespace character succeeds, and a label
      made only of ASCII whitespace (the empty label included) fails. */
  lemma BlankLabel(a: Attrs)
    requires LabelKey in a && a[LabelKey].Text?
    ensures Visible(a[LabelKey].text) != [] ==> AnnotateNode(a).failure.None?
    ensures (forall i :: 0 <= i < |a[LabelKey].text| ==> IsAsciiWhitespace(a[LabelKey].text[i])) ==>
              AnnotateNode(a).failure == Some(NoLines)
  {
    TextWrapFacts.BlankText(a[LabelKey].text);
  }
}
