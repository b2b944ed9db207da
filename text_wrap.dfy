/** Python's `textwrap.wrap(text, 20)` as called on visualize.py:75.

    The model follows `textwrap.TextWrapper` with its default settings except
    hyphen breaking: tabs are expanded to columns of eight, every ASCII
    whitespace character becomes a space, the text is split into maximal runs
    of spaces and of non-spaces ("chunks"), and lines are filled greedily.
    A chunk longer than the width is cut: its first piece fills what is left
    of the current line. Whitespace is dropped at the start of every line but
    the first and, once, at the end of a line, where "whitespace" is whatever
    `str.strip()` removes. */
module TextWrap {

  const Width: nat := 20
  const TabSize: nat := 8

  /** The characters `textwrap` munges and splits on: tab, newline, vertical
      tab, form feed, carriage return and space. */
  predicate IsAsciiWhitespace(c: char) {
    '\t' <= c <= '\r' || c == ' '
  }

  /** The characters Python's `str.isspace()` accepts, which `str.strip()` removes. */
  predicate IsPyWhitespace(c: char) {
    || '\t' <= c <= '\r'
    || '\U{1C}' <= c <= ' '
    || c == '\U{85}' || c == '\U{A0}' || c == '\U{1680}'
    || '\U{2000}' <= c <= '\U{200A}'
    || c == '\U{2028}' || c == '\U{2029}' || c == '\U{202F}' || c == '\U{205F}' || c == '\U{3000}'
  }

  /** `chunk.strip() == ''` */
  predicate IsBlank(s: string) {
    forall i :: 0 <= i < |s| ==> IsPyWhitespace(s[i])
  }

  /** The characters of `s` that are not whitespace, in order. */
  function Visible(s: string): string {
    if s == [] then []
    else (if IsPyWhitespace(s[0]) then [] else [s[0]]) + Visible(s[1..])
  }

  lemma {:induction false} VisibleAppend(a: string, b: string)
    ensures Visible(a + b) == Visible(a) + Visible(b)
  {
    if a == [] {
      assert a + b == b;
    } else {
      assert (a + b)[1..] == a[1..] + b;
      VisibleAppend(a[1..], b);
    }
  }

  lemma {:induction false} VisibleOfBlank(s: string)
    requires IsBlank(s)
    ensures Visible(s) == []
  {
    if s != [] {
      VisibleOfBlank(s[1..]);
    }
  }

  // ---------------------------------------------------------------------------
  // Munging: `text.expandtabs(8)` then every ASCII whitespace character to ' '.

  function Spaces(n: nat): (s: string)
    ensures |s| == n && forall i :: 0 <= i < n ==> s[i] == ' '
  {
    if n == 0 then [] else [' '] + Spaces(n - 1)
  }

  /** The column reached after writing `r` from column `col`: the number of
      characters since the last newline or carriage return of `r`, or
      `col` plus the length of `r` when it has neither. */
  function LineColumn(r: string, col: nat): nat {
    if r == [] then col
    else if r[|r| - 1] == '\n' || r[|r| - 1] == '\r' then 0
    else LineColumn(r[..|r| - 1], col) + 1
  }

  /** `str.expandtabs(8)` continued from column `col`: a tab becomes the
      spaces up to the next multiple of eight; newline and carriage return
      reset the column. */
  function ExpandTabs(s: string, col: nat): (r: string)
    ensures forall i :: 0 <= i < |r| ==> r[i] != '\t'
    ensures forall i :: 0 <= i < |r| ==> r[i] == ' ' || r[i] in s
    ensures Visible(r) == Visible(s)
    ensures |s| == 1 && s[0] == '\t' ==>
              1 <= |r| <= TabSize && r == Spaces(|r|) && (col + |r|) % TabSize == 0
    ensures |s| == 1 && s[0] != '\t' ==> r == s
  {
    if s == [] then []
    else
      var rest := if s[0] == '\t' then ExpandTabs(s[1..], col + (TabSize - col % TabSize))
                  else if s[0] == '\n' || s[0] == '\r' then ExpandTabs(s[1..], 0)
                  else ExpandTabs(s[1..], col + 1);
      var head := if s[0] == '\t' then Spaces(TabSize - col % TabSize) else [s[0]];
      assert IsBlank(Spaces(TabSize - col % TabSize));
      VisibleOfBlank(Spaces(TabSize - col % TabSize));
      VisibleAppend(head, rest);
      head + rest
  }

  function ReplaceWhitespace(s: string): (r: string)
    ensures |r| == |s|
    ensures forall i :: 0 <= i < |s| ==> r[i] == (if IsAsciiWhitespace(s[i]) then ' ' else s[i])
    ensures Visible(r) == Visible(s)
  {
    if s == [] then []
    else
      var r := [if IsAsciiWhitespace(s[0]) then ' ' else s[0]] + ReplaceWhitespace(s[1..]);
      assert r[1..] == ReplaceWhitespace(s[1..]);
      r
  }

  /** `TextWrapper._munge_whitespace`: afterwards the only ASCII whitespace left is ' '. */
  function Munge(text: string): (r: string)
    ensures forall i :: 0 <= i < |r| ==> !IsAsciiWhitespace(r[i]) || r[i] == ' '
    ensures Visible(r) == Visible(text)
  {
    ReplaceWhitespace(ExpandTabs(text, 0))
  }

  // ---------------------------------------------------------------------------
  // Chunks: `TextWrapper._split_chunks` without hyphen splitting.

  function Concat(cs: seq<string>): string {
    if cs == [] then [] else cs[0] + Concat(cs[1..])
  }

  lemma {:induction false} ConcatAppend(a: seq<string>, b: seq<string>)
    ensures Concat(a + b) == Concat(a) + Concat(b)
  {
    if a == [] {
      assert a + b == b;
    } else {
      assert (a + b)[1..] == a[1..] + b;
      ConcatAppend(a[1..], b);
    }
  }

  lemma ConcatOne(s: string)
    ensures Concat([s]) == s
  {
    assert [s][1..] == [];
  }

  /** The length of the leading run of `s` whose characters are all spaces
      (`space`) or all non-spaces (`!space`). */
  function RunLength(s: string, space: bool): (n: nat)
    ensures n <= |s|
    ensures forall i :: 0 <= i < n ==> (s[i] == ' ') == space
    ensures n < |s| ==> (s[n] == ' ') != space
  {
    if s == [] || (s[0] == ' ') != space then 0 else 1 + RunLength(s[1..], space)
  }

  /** A chunk list as the wrapper keeps it: no empty chunk, no newline. */
  predicate ChunksOk(cs: seq<string>) {
    forall i :: 0 <= i < |cs| ==> cs[i] != [] && '\n' !in cs[i]
  }

  /** The maximal runs of spaces and of non-spaces of `s`, in order. */
  function Chunks(s: string): (cs: seq<string>)
    requires '\n' !in s
    ensures Concat(cs) == s
    ensures ChunksOk(cs)
    ensures forall i :: 0 <= i < |cs| ==> Uniform(cs[i])
    ensures forall i :: 0 < i < |cs| ==> (cs[i - 1][0] == ' ') != (cs[i][0] == ' ')
    decreases |s|
  {
    if s == [] then []
    else
      var n := RunLength(s, s[0] == ' ');
      LeadingRun(s);
      var rest := Chunks(s[n..]);
      ChunksCons(s[..n], rest);
      assert rest != [] ==> rest[0][0] == s[n] by {
        if rest != [] {
          assert Concat(rest) == rest[0] + Concat(rest[1..]);
        }
      }
      [s[..n]] + rest
  }

  /** The leading run of a text without newlines is a uniform, non-empty chunk. */
  lemma LeadingRun(s: string)
    requires s != [] && '\n' !in s
    ensures var n := RunLength(s, s[0] == ' ');
            && 0 < n && s == s[..n] + s[n..]
            && '\n' !in s[..n] && '\n' !in s[n..] && Uniform(s[..n])
  {
    var n := RunLength(s, s[0] == ' ');
    assert s == s[..n] + s[n..];
    assert forall j :: 0 <= j < n ==> s[..n][j] == s[j];
  }

  /** All spaces or no space. */
  predicate Uniform(c: string) {
    (forall j :: 0 <= j < |c| ==> c[j] == ' ') || (forall j :: 0 <= j < |c| ==> c[j] != ' ')
  }

  lemma ChunksCons(c: string, rest: seq<string>)
    requires c != [] && '\n' !in c && Uniform(c)
    requires ChunksOk(rest) && forall i :: 0 <= i < |rest| ==> Uniform(rest[i])
    requires forall i :: 0 < i < |rest| ==> (rest[i - 1][0] == ' ') != (rest[i][0] == ' ')
    requires rest != [] ==> (c[0] == ' ') != (rest[0][0] == ' ')
    ensures Concat([c] + rest) == c + Concat(rest)
    ensures ChunksOk([c] + rest) && forall i :: 0 <= i < |[c] + rest| ==> Uniform(([c] + rest)[i])
    ensures var cs := [c] + rest; forall i :: 0 < i < |cs| ==> (cs[i - 1][0] == ' ') != (cs[i][0] == ' ')
  {
    var cs := [c] + rest;
    assert cs[1..] == rest;
    forall i | 0 < i < |cs| ensures (cs[i - 1][0] == ' ') != (cs[i][0] == ' ') {
      if i > 1 {
        assert cs[i - 1] == rest[i - 2] && cs[i] == rest[i - 1];
      }
    }
  }

  // ---------------------------------------------------------------------------
  // Filling lines: `TextWrapper._wrap_chunks` and `_handle_long_word`.

  /** What a chunk list costs to wrap; every line step lowers it. */
  function Weight(cs: seq<string>): nat {
    |Concat(cs)| + |cs|
  }

  lemma WeightAppend(a: seq<string>, b: seq<string>)
    ensures Weight(a + b) == Weight(a) + Weight(b)
  {
    ConcatAppend(a, b);
  }

  /** How many whole leading chunks fit on a line that already holds `used` characters. */
  function Fit(cs: seq<string>, used: nat): (n: nat)
    requires used <= Width
    ensures n <= |cs|
    ensures used + |Concat(cs[..n])| <= Width
    ensures n < |cs| ==> used + |Concat(cs[..n])| + |cs[n]| > Width
  {
    if cs == [] || used + |cs[0]| > Width then
      assert cs[..0] == [];
      0
    else
      var n := Fit(cs[1..], used + |cs[0]|);
      assert cs[..n + 1][1..] == cs[1..][..n];
      assert cs[..n + 1][0] == cs[0];
      n + 1
  }

  lemma LeadingBlank(cs: seq<string>)
    requires cs != [] && IsBlank(cs[0])
    ensures Visible(Concat(cs)) == Visible(Concat(cs[1..]))
    ensures Weight(cs[1..]) < Weight(cs)
  {
    VisibleOfBlank(cs[0]);
    VisibleAppend(cs[0], Concat(cs[1..]));
  }

  /** The whole leading chunks of `cs` that fit on an empty line, and the rest. */
  function SplitFit(cs: seq<string>): (r: (seq<string>, seq<string>))
    requires ChunksOk(cs)
    ensures ChunksOk(r.0) && ChunksOk(r.1)
    ensures r.0 + r.1 == cs
    ensures |Concat(r.0)| <= Width
    ensures r.1 != [] ==> |Concat(r.0)| + |r.1[0]| > Width
    ensures Visible(Concat(cs)) == Visible(Concat(r.0)) + Visible(Concat(r.1))
    ensures Weight(r.0) + Weight(r.1) == Weight(cs)
  {
    var n := Fit(cs, 0);
    assert cs == cs[..n] + cs[n..];
    ConcatAppend(cs[..n], cs[n..]);
    VisibleAppend(Concat(cs[..n]), Concat(cs[n..]));
    (cs[..n], cs[n..])
  }

  /** The whole chunks a new line takes, after dropping leading whitespace
      (`del chunks[-1]` when a line has been emitted already), and the rest. */
  function TakeWhole(cs: seq<string>, started: bool): (r: (seq<string>, seq<string>))
    requires ChunksOk(cs)
    ensures ChunksOk(r.0) && ChunksOk(r.1)
    ensures |Concat(r.0)| <= Width
    ensures r.1 != [] ==> |Concat(r.0)| + |r.1[0]| > Width
    ensures Visible(Concat(cs)) == Visible(Concat(r.0)) + Visible(Concat(r.1))
    ensures Weight(r.0) + Weight(r.1) <= Weight(cs)
    ensures cs != [] && r.0 == [] ==> Weight(r.1) < Weight(cs) || |r.1[0]| > Width
    ensures r.0 + r.1 == (if started && cs != [] && IsBlank(cs[0]) then cs[1..] else cs)
  {
    if started && cs != [] && IsBlank(cs[0]) then
      LeadingBlank(cs);
      SplitFit(cs[1..])
    else
      SplitFit(cs)
  }

  /** `_handle_long_word`: a chunk that fits on no line is cut, its first
      piece filling the rest of the current line. */
  function CutLong(line: seq<string>, rest: seq<string>): (r: (seq<string>, seq<string>))
    requires ChunksOk(line) && ChunksOk(rest)
    requires |Concat(line)| <= Width
    requires rest != [] ==> |Concat(line)| + |rest[0]| > Width
    ensures ChunksOk(r.1)
    ensures forall i :: 0 <= i < |r.0| ==> '\n' !in r.0[i]
    ensures forall i :: 0 <= i < |r.0| - 1 ==> r.0[i] != []
    ensures |Concat(r.0)| <= Width
    ensures Visible(Concat(line)) + Visible(Concat(rest)) == Visible(Concat(r.0)) + Visible(Concat(r.1))
    ensures Weight(r.1) <= Weight(rest)
    ensures line == [] && rest != [] && |rest[0]| > Width ==> Weight(r.1) < Weight(rest) && r.0 != [] && r.0[|r.0| - 1] != []
    ensures r.0 != [] && r.0[|r.0| - 1] == [] ==> r.0[..|r.0| - 1] == line
    ensures rest == [] || |rest[0]| <= Width ==> r == (line, rest)
    ensures rest != [] && |rest[0]| > Width ==>
              && |r.0| == |line| + 1 && r.0[..|line|] == line && |Concat(r.0)| == Width
              && |r.1| == |rest| && r.1[1..] == rest[1..] && r.0[|line|] + r.1[0] == rest[0]
  {
    if rest != [] && |rest[0]| > Width then
      var k := Width - |Concat(line)|;
      CutConcat(line, rest, k);
      CutVisible(line, rest, k);
      var line2 := line + [rest[0][..k]];
      assert line2[..|line2| - 1] == line;
      assert rest[0][..k] + rest[0][k..] == rest[0];
      (line2, [rest[0][k..]] + rest[1..])
    else
      (line, rest)
  }

  /** Cutting the first chunk of `rest` at `k` moves its first `k`
      characters to the end of `line`. */
  lemma CutConcat(line: seq<string>, rest: seq<string>, k: nat)
    requires rest != [] && k <= |rest[0]|
    ensures Concat(line + [rest[0][..k]]) == Concat(line) + rest[0][..k]
    ensures Concat([rest[0][k..]] + rest[1..]) == rest[0][k..] + Concat(rest[1..])
    ensures Concat(rest) == rest[0] + Concat(rest[1..])
  {
    assert rest == [rest[0]] + rest[1..];
    ConcatAppend(line, [rest[0][..k]]);
    ConcatOne(rest[0][..k]);
    ConcatAppend([rest[0]], rest[1..]);
    ConcatOne(rest[0]);
    ConcatAppend([rest[0][k..]], rest[1..]);
    ConcatOne(rest[0][k..]);
  }

  /** The cut keeps the visible characters of the line and the rest, in order. */
  lemma CutVisible(line: seq<string>, rest: seq<string>, k: nat)
    requires rest != [] && k <= |rest[0]|
    ensures Visible(Concat(line)) + Visible(Concat(rest)) ==
              Visible(Concat(line + [rest[0][..k]])) + Visible(Concat([rest[0][k..]] + rest[1..]))
  {
    var piece, left := rest[0][..k], rest[0][k..];
    var before, after := Concat(line), Concat(rest[1..]);
    CutConcat(line, rest, k);
    assert rest[0] == piece + left;
    VisibleAppend(before, piece);
    VisibleAppend(piece, left);
    VisibleAppend(rest[0], after);
    VisibleAppend(left, after);
    Regroup(Visible(before), Visible(piece), Visible(left), Visible(after));
  }

  lemma Regroup(a: string, b: string, c: string, d: string)
    ensures a + ((b + c) + d) == (a + b) + (c + d)
  {
  }

  /** `if cur_line[-1].strip() == '': del cur_line[-1]` */
  function DropTrailingBlank(line: seq<string>): (r: seq<string>)
    requires forall i :: 0 <= i < |line| ==> '\n' !in line[i]
    requires forall i :: 0 <= i < |line| - 1 ==> line[i] != []
    requires line != [] && line[|line| - 1] == [] ==> ChunksOk(line[..|line| - 1])
    ensures ChunksOk(r)
    ensures |Concat(r)| <= |Concat(line)|
    ensures Visible(Concat(r)) == Visible(Concat(line))
    ensures line != [] && IsBlank(line[|line| - 1]) ==> r == line[..|line| - 1]
    ensures !(line != [] && IsBlank(line[|line| - 1])) ==> r == line
  {
    if line != [] && IsBlank(line[|line| - 1]) then
      var init, last := line[..|line| - 1], line[|line| - 1];
      assert line == init + [last];
      ConcatAppend(init, [last]);
      ConcatOne(last);
      VisibleAppend(Concat(init), last);
      VisibleOfBlank(last);
      init
    else
      line
  }

  /** One pass of the outer loop of `_wrap_chunks`: the chunks of the next
      line (possibly none) and the chunks still to wrap. */
  function NextLine(cs: seq<string>, started: bool): (r: (seq<string>, seq<string>))
    requires cs != [] && ChunksOk(cs)
    ensures ChunksOk(r.0) && ChunksOk(r.1)
    ensures |Concat(r.0)| <= Width
    ensures Visible(Concat(cs)) == Visible(Concat(r.0)) + Visible(Concat(r.1))
    ensures Weight(r.1) < Weight(cs)
  {
    var (line, rest) := TakeWhole(cs, started);
    var (line2, rest2) := CutLong(line, rest);
    (DropTrailingBlank(line2), rest2)
  }

  /** The lines produced from `cs`; `started` says whether a line has been
      emitted already (leading whitespace is kept only before the first line). */
  function WrapChunks(cs: seq<string>, started: bool): (lines: seq<string>)
    requires ChunksOk(cs)
    ensures forall i :: 0 <= i < |lines| ==> 1 <= |lines[i]| <= Width && '\n' !in lines[i]
    ensures Visible(Concat(lines)) == Visible(Concat(cs))
    decreases Weight(cs)
  {
    if cs == [] then []
    else
      var r := NextLine(cs, started);
      if r.0 != [] then
        var more := WrapChunks(r.1, true);
        EmitText(r.0, more);
        [Concat(r.0)] + more
      else
        WrapChunks(r.1, started)
  }

  /** A line of 1 to 20 characters put before the lines that follow it. */
  lemma EmitText(line: seq<string>, more: seq<string>)
    requires line != [] && ChunksOk(line) && |Concat(line)| <= Width
    requires forall i :: 0 <= i < |more| ==> 1 <= |more[i]| <= Width && '\n' !in more[i]
    ensures var lines := [Concat(line)] + more;
            && (forall i :: 0 <= i < |lines| ==> 1 <= |lines[i]| <= Width && '\n' !in lines[i])
            && Visible(Concat(lines)) == Visible(Concat(line)) + Visible(Concat(more))
  {
    var text := Concat(line);
    NonEmptyConcat(line);
    NoNewlineConcat(line);
    ConcatAppend([text], more);
    ConcatOne(text);
    VisibleAppend(text, Concat(more));
  }

  lemma {:induction false} NonEmptyConcat(cs: seq<string>)
    requires cs != [] && cs[0] != []
    ensures Concat(cs) != []
  {
  }

  lemma {:induction false} NoNewlineConcat(cs: seq<string>)
    requires forall i :: 0 <= i < |cs| ==> '\n' !in cs[i]
    ensures '\n' !in Concat(cs)
  {
    if cs != [] {
      NoNewlineConcat(cs[1..]);
    }
  }

  /** `textwrap.wrap(text, 20)`: every line holds between 1 and 20
      characters and no newline, and only whitespace is lost. */
  function Wrap(text: string): (lines: seq<string>)
    ensures forall i :: 0 <= i < |lines| ==> 1 <= |lines[i]| <= Width && '\n' !in lines[i]
    ensures Visible(Concat(lines)) == Visible(text)
  {
    var m := Munge(text);
    assert forall i :: 0 <= i < |m| ==> m[i] != '\n';
    WrapChunks(Chunks(m), false)
  }
}

/** What `textwrap.wrap(text, 20)` does with blank text and with a single word. */
module TextWrapFacts {
  import opened TextWrap

  /** A whitespace chunk on its own yields no line, however long it is. */
  lemma {:induction false} LoneBlankChunk(c: string, started: bool)
    requires c != [] && IsBlank(c) && '\n' !in c
    ensures WrapChunks([c], started) == []
    decreases |c|
  {
    if started {
      BlankAfterLine(c);
    } else if |c| <= Width {
      ShortBlankFirst(c);
    } else {
      LongBlankFirst(c);
      LoneBlankChunk(c[Width..], started);
    }
  }

  /** After a line, a whitespace chunk is dropped before a new line starts. */
  lemma BlankAfterLine(c: string)
    requires c != [] && IsBlank(c) && '\n' !in c
    ensures ChunksOk([c]) && NextLine([c], true) == ([], [])
  {
    var cs := [c];
    assert cs[1..] == [];
    assert TakeWhole(cs, true) == ([], []);
  }

  /** A leading whitespace chunk that fits is taken, then dropped as trailing. */
  lemma ShortBlankFirst(c: string)
    requires c != [] && IsBlank(c) && '\n' !in c && |c| <= Width
    ensures ChunksOk([c]) && NextLine([c], false) == ([], [])
  {
    var cs := [c];
    assert cs[..1] == cs && cs[1..] == [];
    assert Fit(cs[1..], |c|) == 0;
    assert Fit(cs, 0) == 1;
    assert TakeWhole(cs, false) == ([c], []);
    assert CutLong([c], []) == ([c], []);
  }

  /** A leading whitespace chunk too long for a line loses a line's worth
      of whitespace, and nothing is emitted. */
  lemma LongBlankFirst(c: string)
    requires c != [] && IsBlank(c) && '\n' !in c && |c| > Width
    ensures ChunksOk([c]) && NextLine([c], false) == ([], [c[Width..]])
  {
    var cs := [c];
    assert cs[..0] == [] && cs[0..] == cs;
    assert Fit(cs, 0) == 0;
    assert TakeWhole(cs, false) == ([], [c]);
    assert |Concat([])| == 0;
    var cut := CutLong([], [c]);
    assert cut.0 == [] + [c[..Width - 0]];
    assert cut.1 == [c[Width - 0..]] + [c][1..];
    assert [c][1..] == [];
    assert cut.0 == [c[..Width]];
    assert cut.1 == [c[Width..]];
    assert IsBlank(c[..Width]);
  }

  lemma MungeBlank(text: string)
    requires forall i :: 0 <= i < |text| ==> IsAsciiWhitespace(text[i])
    ensures forall i :: 0 <= i < |Munge(text)| ==> Munge(text)[i] == ' '
  {
    var e := ExpandTabs(text, 0);
    assert Munge(text) == ReplaceWhitespace(e);
    forall i | 0 <= i < |e| ensures ReplaceWhitespace(e)[i] == ' ' {
      assert IsAsciiWhitespace(e[i]);
    }
  }

  lemma SpacesAreOneChunk(m: string)
    requires m != [] && forall i :: 0 <= i < |m| ==> m[i] == ' '
    ensures Chunks(m) == [m]
  {
    assert RunLength(m, true) == |m|;
    assert m[..|m|] == m;
    assert m[|m|..] == [];
  }

  /** Text made only of ASCII whitespace (the empty text included) wraps to
      no line at all; and text that wraps to no line has nothing but
      whitespace in it. */
  lemma BlankText(text: string)
    ensures (forall i :: 0 <= i < |text| ==> IsAsciiWhitespace(text[i])) ==> Wrap(text) == []
    ensures Wrap(text) == [] ==> Visible(text) == []
  {
    if forall i :: 0 <= i < |text| ==> IsAsciiWhitespace(text[i]) {
      MungeBlank(text);
      var m := Munge(text);
      if m != [] {
        SpacesAreOneChunk(m);
        assert '\n' !in m;
        LoneBlankChunk(m, false);
      }
    }
  }

  /** A word cut into pieces of `Width` characters, the last one shorter. */
  function Pieces(w: string): (ps: seq<string>)
    requires w != []
    ensures Concat(ps) == w
    ensures forall i :: 0 <= i < |ps| ==> 1 <= |ps[i]| <= Width
    ensures forall i :: 0 <= i < |ps| - 1 ==> |ps[i]| == Width
    decreases |w|
  {
    if |w| <= Width then
      ConcatOne(w);
      [w]
    else
      var more := Pieces(w[Width..]);
      ConcatAppend([w[..Width]], more);
      ConcatOne(w[..Width]);
      assert w == w[..Width] + w[Width..];
      [w[..Width]] + more
  }

  predicate IsWord(w: string) {
    w != [] && forall i :: 0 <= i < |w| ==> !IsPyWhitespace(w[i])
  }

  /** Columns add up: writing `x` then `y` reaches the column that `y`
      reaches from where `x` ended. */
  lemma {:induction false} LineColumnAppend(x: string, y: string, col: nat)
    ensures LineColumn(x + y, col) == LineColumn(y, LineColumn(x, col))
    decreases |y|
  {
    if y == [] {
      assert x + y == x;
    } else {
      assert (x + y)[..|x + y| - 1] == x + y[..|y| - 1];
      LineColumnAppend(x, y[..|y| - 1], col);
    }
  }

  lemma {:induction false} LineColumnSpaces(n: nat, col: nat)
    ensures LineColumn(Spaces(n), col) == col + n
  {
    if n > 0 {
      assert Spaces(n)[..n - 1] == Spaces(n - 1);
      LineColumnSpaces(n - 1, col);
    }
  }

  /** The first character is expanded on its own, and the rest goes on from
      the column it reaches. */
  lemma ExpandTabsHead(x: char, t: string, col: nat)
    ensures var h := ExpandTabs([x], col);
            ExpandTabs([x] + t, col) == h + ExpandTabs(t, LineColumn(h, col))
  {
    var s := [x] + t;
    assert s[0] == x && s[1..] == t;
    var h := ExpandTabs([x], col);
    if x == '\t' {
      var n := TabSize - col % TabSize;
      assert h == Spaces(n) + ExpandTabs([], col + n);
      LineColumnSpaces(n, col);
      assert ExpandTabs(s, col) == Spaces(n) + ExpandTabs(t, col + n);
    } else if x == '\n' || x == '\r' {
      assert h == [x] + ExpandTabs([], 0);
      assert LineColumn(h, col) == 0;
      assert ExpandTabs(s, col) == [x] + ExpandTabs(t, 0);
    } else {
      assert h == [x] + ExpandTabs([], col + 1);
      assert LineColumn(h, col) == col + 1 by {
        assert h[..0] == [];
      }
      assert ExpandTabs(s, col) == [x] + ExpandTabs(t, col + 1);
    }
  }

  /** `expandtabs` works piece by piece: the expansion of `a + b` is that of
      `a`, then that of `b` from the column `a`'s expansion ends on. With the
      one-character cases of `ExpandTabs`' contract this fixes the output:
      every character but a tab is copied, and each tab becomes one to eight
      spaces ending on a multiple of eight columns since the last newline or
      carriage return. */
  lemma {:induction false} ExpandTabsAppend(a: string, b: string, col: nat)
    ensures ExpandTabs(a + b, col) == ExpandTabs(a, col) + ExpandTabs(b, LineColumn(ExpandTabs(a, col), col))
    decreases |a|
  {
    if a == [] {
      assert a + b == b;
    } else {
      var x, t := a[0], a[1..];
      var h := ExpandTabs([x], col);
      var c := LineColumn(h, col);
      var e := ExpandTabs(t, c);
      var tail := ExpandTabs(b, LineColumn(e, c));
      ConsAppend(a, b);
      ExpandTabsHead(x, t + b, col);
      ExpandTabsHead(x, t, col);
      ExpandTabsAppend(t, b, c);
      LineColumnAppend(h, e, col);
      StringAssoc(h, e, tail);
    }
  }

  lemma ConsAppend(a: string, b: string)
    requires a != []
    ensures a == [a[0]] + a[1..] && a + b == [a[0]] + (a[1..] + b)
  {
  }

  lemma StringAssoc(x: string, y: string, z: string)
    ensures x + (y + z) == (x + y) + z
  {
  }

  /** Text without tab, newline or carriage return is left as it is by `expandtabs`. */
  lemma {:induction false} ExpandTabsKeepsPlain(t: string, col: nat)
    requires forall i :: 0 <= i < |t| ==> t[i] != '\t' && t[i] != '\n' && t[i] != '\r'
    ensures ExpandTabs(t, col) == t
  {
    if t != [] {
      ExpandTabsKeepsPlain(t[1..], col + 1);
    }
  }

  lemma {:induction false} LoneWordChunk(w: string, started: bool)
    requires IsWord(w)
    ensures WrapChunks([w], started) == Pieces(w)
    decreases |w|
  {
    if |w| <= Width {
      WholeLoneWord(w, started);
      ConcatOne(w);
    } else {
      CutLoneWord(w, started);
      ConcatOne(w[..Width]);
      assert IsWord(w[Width..]) by { assert forall i :: 0 <= i < |w| - Width ==> w[Width..][i] == w[Width + i]; }
      LoneWordChunk(w[Width..], true);
    }
  }

  /** A word that fits is one line on its own. */
  lemma WholeLoneWord(w: string, started: bool)
    requires IsWord(w) && |w| <= Width
    ensures ChunksOk([w]) && NextLine([w], started) == ([w], [])
  {
    var cs := [w];
    assert !IsBlank(w) by { assert !IsPyWhitespace(w[0]); }
    assert '\n' !in w by { assert forall i :: 0 <= i < |w| ==> w[i] != '\n'; }
    assert cs[..1] == cs && cs[1..] == [];
    assert Fit(cs[1..], |w|) == 0;
    assert Fit(cs, 0) == 1;
    assert TakeWhole(cs, started) == ([w], []);
  }

  /** A word that fits on no line loses its first 20 characters to a line. */
  lemma CutLoneWord(w: string, started: bool)
    requires IsWord(w) && |w| > Width
    ensures ChunksOk([w]) && NextLine([w], started) == ([w[..Width]], [w[Width..]])
  {
    var cs := [w];
    assert !IsBlank(w) by { assert !IsPyWhitespace(w[0]); }
    assert '\n' !in w by { assert forall i :: 0 <= i < |w| ==> w[i] != '\n'; }
    assert cs[..0] == [] && cs[0..] == cs;
    assert Fit(cs, 0) == 0;
    assert TakeWhole(cs, started) == ([], [w]);
    assert |Concat([])| == 0;
    var cut := CutLong([], [w]);
    assert cut.0 == [] + [w[..Width - 0]];
    assert cut.1 == [w[Width - 0..]] + [w][1..];
    assert [w][1..] == [];
    assert cut.0 == [w[..Width]];
    assert cut.1 == [w[Width..]];
    assert !IsBlank(w[..Width]) by { assert !IsPyWhitespace(w[..Width][0]); }
  }

  lemma WordIsOneChunk(w: string)
    requires IsWord(w)
    ensures '\n' !in w && Chunks(w) == [w]
  {
    assert forall i :: 0 <= i < |w| ==> w[i] != '\n' && w[i] != ' ';
    assert RunLength(w, false) == |w|;
    assert w[..|w|] == w;
    assert w[|w|..] == [];
  }

  /** Text whose only ASCII whitespace is the space is left as it is by munging. */
  lemma MungePlain(t: string)
    requires forall i :: 0 <= i < |t| ==> !IsAsciiWhitespace(t[i]) || t[i] == ' '
    ensures Munge(t) == t
  {
    ExpandTabsKeepsPlain(t, 0);
  }

  /** A run of one kind followed by text of the other kind is exactly the leading run. */
  lemma {:induction false} RunLengthOf(c: string, t: string, space: bool)
    requires forall j :: 0 <= j < |c| ==> (c[j] == ' ') == space
    requires t != [] ==> (t[0] == ' ') != space
    ensures RunLength(c + t, space) == |c|
  {
    if c == [] {
      assert c + t == t;
    } else {
      assert (c + t)[1..] == c[1..] + t;
      RunLengthOf(c[1..], t, space);
    }
  }

  /** `Chunks` is the only split into non-empty runs that alternate between
      spaces and non-spaces. */
  lemma {:induction false} ChunksOfConcat(ps: seq<string>)
    requires forall i :: 0 <= i < |ps| ==> ps[i] != [] && '\n' !in ps[i] && Uniform(ps[i])
    requires forall i :: 0 < i < |ps| ==> (ps[i - 1][0] == ' ') != (ps[i][0] == ' ')
    ensures '\n' !in Concat(ps) && Chunks(Concat(ps)) == ps
  {
    if ps != [] {
      var c, t := ps[0], Concat(ps[1..]);
      var s := Concat(ps);
      AlternatingTail(ps);
      ChunksOfConcat(ps[1..]);
      assert s == c + t;
      if |ps| > 1 {
        ConcatHead(ps[1..]);
      }
      FirstRun(c, t);
      assert s[0] == c[0];
      assert s[..|c|] == c && s[|c|..] == t;
      assert ps == [c] + ps[1..];
    }
  }

  /** Dropping the first run keeps the runs alternating. */
  lemma AlternatingTail(ps: seq<string>)
    requires ps != []
    requires forall i :: 0 <= i < |ps| ==> ps[i] != [] && '\n' !in ps[i] && Uniform(ps[i])
    requires forall i :: 0 < i < |ps| ==> (ps[i - 1][0] == ' ') != (ps[i][0] == ' ')
    ensures forall i :: 0 <= i < |ps[1..]| ==> ps[1..][i] != [] && '\n' !in ps[1..][i] && Uniform(ps[1..][i])
    ensures forall i :: 0 < i < |ps[1..]| ==> (ps[1..][i - 1][0] == ' ') != (ps[1..][i][0] == ' ')
  {
    assert forall i :: 0 < i < |ps[1..]| ==> ps[1..][i - 1] == ps[i] && ps[1..][i] == ps[i + 1];
  }

  /** A uniform run followed by text of the other kind is the leading run. */
  lemma FirstRun(c: string, t: string)
    requires c != [] && Uniform(c)
    requires t != [] ==> (t[0] == ' ') != (c[0] == ' ')
    ensures RunLength(c + t, c[0] == ' ') == |c|
  {
    assert forall j :: 0 <= j < |c| ==> (c[j] == ' ') == (c[0] == ' ');
    RunLengthOf(c, t, c[0] == ' ');
  }

  /** Concatenated chunks start with the first chunk's first character. */
  lemma ConcatHead(ps: seq<string>)
    requires ps != [] && ps[0] != []
    ensures Concat(ps) != [] && Concat(ps)[0] == ps[0][0]
  {
  }

  /** A label with no whitespace wraps to itself when it fits, and is
      otherwise cut into pieces of 20 characters: `break_long_words` is on. */
  lemma WordWrap(w: string)
    requires IsWord(w)
    ensures Wrap(w) == Pieces(w)
    ensures |w| <= Width ==> Wrap(w) == [w]
  {
    MungePlain(w);
    WordIsOneChunk(w);
    LoneWordChunk(w, false);
  }
}
