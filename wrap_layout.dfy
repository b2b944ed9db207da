/** Where the lines of `textwrap.wrap(text, 20)` come from in the munged text.

    The munged text is the lines laid end to end with whitespace between
    them (`Weave`), and no line starts or ends strictly inside a chunk of at
    most 20 characters: only a chunk that fits on no line is ever cut. */
module WrapLayout {
  import opened TextWrap

  /** Where chunk `i` of `cs` starts in `Concat(cs)`. */
  function Start(cs: seq<string>, i: nat): nat
    requires i <= |cs|
  {
    |Concat(cs[..i])|
  }

  lemma StartNext(cs: seq<string>, i: nat)
    requires i < |cs|
    ensures Start(cs, i + 1) == Start(cs, i) + |cs[i]|
  {
    assert cs[..i + 1] == cs[..i] + [cs[i]];
    ConcatAppend(cs[..i], [cs[i]]);
    ConcatOne(cs[i]);
  }

  lemma StartShift(cs: seq<string>, m: nat, i: nat)
    requires m <= i <= |cs|
    ensures Start(cs, i) == Start(cs, m) + Start(cs[m..], i - m)
  {
    assert cs[..i] == cs[..m] + cs[m..][..i - m];
    ConcatAppend(cs[..m], cs[m..][..i - m]);
  }

  lemma StartSplit(cs: seq<string>, j: nat)
    requires j <= |cs|
    ensures Concat(cs) == Concat(cs[..j]) + Concat(cs[j..])
  {
    assert cs == cs[..j] + cs[j..];
    ConcatAppend(cs[..j], cs[j..]);
  }

  /** Position `p` of `Concat(cs)` lies strictly inside no chunk of at most `Width` characters. */
  ghost predicate Breakable(cs: seq<string>, p: int) {
    forall i :: 0 <= i < |cs| && |cs[i]| <= Width ==> !(Start(cs, i) < p < Start(cs, i) + |cs[i]|)
  }

  /** Where a chunk starts, or inside a chunk longer than a line, the text may be broken. */
  lemma InsideLongBreakable(cs: seq<string>, m: nat, k: nat)
    requires m <= |cs|
    requires k > 0 ==> m < |cs| && Width < |cs[m]| && k <= |cs[m]|
    ensures Breakable(cs, Start(cs, m) + k)
  {
    forall i | 0 <= i < |cs| && |cs[i]| <= Width
      ensures !(Start(cs, i) < Start(cs, m) + k < Start(cs, i) + |cs[i]|)
    {
      StartNext(cs, i);
      if i < m {
        StartShift(cs, i + 1, m);
      } else if i > m {
        StartNext(cs, m);
        StartShift(cs, m + 1, i);
      } else {
        assert k == 0;
      }
    }
  }

  /** What is left to wrap after a line: the chunks from `m` on, the first
      of them less its first `k` characters when it had to be cut. */
  ghost predicate Remainder(cs: seq<string>, rest: seq<string>, m: nat, k: nat) {
    && m <= |cs|
    && if k == 0 then rest == cs[m..]
       else m < |cs| && Width < |cs[m]| && k < |cs[m]| && rest == [cs[m][k..]] + cs[m + 1..]
  }

  /** A breakable position of the remainder is a breakable position of the whole. */
  lemma RestBreakable(cs: seq<string>, rest: seq<string>, m: nat, k: nat, q: int)
    requires Remainder(cs, rest, m, k) && 0 <= q && Breakable(rest, q)
    ensures Breakable(cs, Start(cs, m) + k + q)
  {
    var p := Start(cs, m) + k + q;
    forall i | 0 <= i < |cs| && |cs[i]| <= Width
      ensures !(Start(cs, i) < p < Start(cs, i) + |cs[i]|)
    {
      StartNext(cs, i);
      if i < m {
        StartShift(cs, i + 1, m);
      } else if k == 0 {
        StartShift(cs, m, i);
        assert rest[i - m] == cs[i];
      } else {
        assert i > m;
        StartNext(cs, m);
        StartShift(cs, m + 1, i);
        StartNext(rest, 0);
        StartShift(rest, 1, i - m);
        assert rest[1..] == cs[m + 1..] && rest[i - m] == cs[i];
      }
    }
  }

  /** `gaps[0] + lines[0] + gaps[1] + … + lines[n - 1] + gaps[n]` */
  function Weave(gaps: seq<string>, lines: seq<string>): string
    requires |gaps| == |lines| + 1
  {
    if lines == [] then gaps[0] else gaps[0] + lines[0] + Weave(gaps[1..], lines[1..])
  }

  /** `p` is where one of the lines starts or ends in `Weave(gaps, lines)`. */
  ghost predicate Boundary(gaps: seq<string>, lines: seq<string>, p: int)
    requires |gaps| == |lines| + 1
  {
    && lines != []
    && var end := |gaps[0]| + |lines[0]|;
       || p == |gaps[0]|
       || p == end
       || (p >= end && Boundary(gaps[1..], lines[1..], p - end))
  }

  /** Widening the first gap moves the text and every boundary along. */
  lemma WidenGap(x: string, g: string, gaps: seq<string>, lines: seq<string>, p: int)
    requires |gaps| == |lines|
    ensures Weave([x + g] + gaps, lines) == x + Weave([g] + gaps, lines)
    ensures Boundary([x + g] + gaps, lines, p) ==> p >= |x| && Boundary([g] + gaps, lines, p - |x|)
  {
    assert ([x + g] + gaps)[1..] == gaps && ([g] + gaps)[1..] == gaps;
  }

  lemma BlankAppend(a: string, b: string)
    requires IsBlank(a) && IsBlank(b)
    ensures IsBlank(a + b)
  {
    assert forall i :: 0 <= i < |b| ==> (a + b)[|a| + i] == b[i];
  }

  /** The lines laid end to end with the `gaps`, all whitespace, between
      them give back the chunks, and every line starts and ends where the
      chunks may be broken. */
  ghost predicate Layout(cs: seq<string>, gaps: seq<string>, lines: seq<string>) {
    && |gaps| == |lines| + 1
    && (forall i :: 0 <= i < |gaps| ==> IsBlank(gaps[i]))
    && Weave(gaps, lines) == Concat(cs)
    && forall p :: Boundary(gaps, lines, p) ==> Breakable(cs, p)
  }

  /** One pass of the outer loop of `_wrap_chunks` seen in the text: the
      whitespace `a` dropped before the line, the line, the whitespace `b`
      dropped after it, and what is left, which starts `Start(cs, m) + k`
      characters in. */
  lemma NextLineShape(cs: seq<string>, started: bool) returns (a: string, b: string, m: nat, k: nat)
    requires cs != [] && ChunksOk(cs)
    ensures var r := NextLine(cs, started);
            && IsBlank(a) && IsBlank(b)
            && Concat(cs) == a + Concat(r.0) + b + Concat(r.1)
            && Breakable(cs, |a|) && Breakable(cs, |a| + |Concat(r.0)|)
            && Remainder(cs, r.1, m, k)
            && |a| + |Concat(r.0)| + |b| == Start(cs, m) + k
  {
    var d := if started && IsBlank(cs[0]) then 1 else 0;
    var line, rest := TakeWhole(cs, started).0, TakeWhole(cs, started).1;
    var r := NextLine(cs, started);
    var j := d + |line|;
    a := LeadingShape(cs, started, line, rest);
    m := j;
    if rest != [] && |rest[0]| > Width {
      var e;
      b, k, e := CutShape(cs, line, rest, j);
      InsideLongBreakable(cs, j, e);
      assert |a| + |Concat(r.0)| == Start(cs, j) + e;
      Assoc(a, Concat(line), Concat(rest));
      Assoc(Concat(r.0), b, Concat(r.1));
      Assoc(a, Concat(r.0) + b, Concat(r.1));
      Assoc(a, Concat(r.0), b);
    } else {
      assert CutLong(line, rest) == (line, rest);
      b := DropShape(cs, line, j);
      k := 0;
      assert Concat(line) == Concat(r.0) + b;
      assert |a| + |Concat(r.0)| == Start(cs, j) - |b|;
      Assoc(a, Concat(r.0), b);
    }
  }

  /** The whitespace dropped at the start of a line, and the whole chunks taken after it. */
  lemma LeadingShape(cs: seq<string>, started: bool, line: seq<string>, rest: seq<string>) returns (a: string)
    requires cs != [] && ChunksOk(cs) && (line, rest) == TakeWhole(cs, started)
    ensures var d := if started && IsBlank(cs[0]) then 1 else 0;
            && IsBlank(a) && Breakable(cs, |a|)
            && d + |line| <= |cs| && line == cs[d..d + |line|] && rest == cs[d + |line|..]
            && Concat(cs) == a + Concat(line) + Concat(rest)
            && |a| + |Concat(line)| == Start(cs, d + |line|)
  {
    var d := if started && IsBlank(cs[0]) then 1 else 0;
    assert line + rest == cs[d..];
    a := TakenShape(cs, d, line, rest);
  }

  /** `line + rest` is what follows the first `d` chunks. */
  lemma TakenShape(cs: seq<string>, d: nat, line: seq<string>, rest: seq<string>) returns (a: string)
    requires d <= |cs| && line + rest == cs[d..]
    requires d == 0 || (d == 1 && IsBlank(cs[0]))
    ensures IsBlank(a) && Breakable(cs, |a|)
    ensures d + |line| <= |cs| && line == cs[d..d + |line|] && rest == cs[d + |line|..]
    ensures Concat(cs) == a + Concat(line) + Concat(rest)
    ensures |a| + |Concat(line)| == Start(cs, d + |line|)
  {
    var j := d + |line|;
    var tail := cs[d..];
    TakenSlices(cs, d, line, rest);
    a := Concat(cs[..d]);
    assert IsBlank(a) by {
      if d == 1 {
        assert cs[..1] == [cs[0]];
        ConcatOne(cs[0]);
      }
    }
    assert Breakable(cs, |a|) by {
      InsideLongBreakable(cs, d, 0);
    }
    assert Concat(cs) == a + Concat(line) + Concat(rest) by {
      StartSplit(cs, d);
      ConcatAppend(line, rest);
      Assoc(a, Concat(line), Concat(rest));
    }
    assert |a| + |Concat(line)| == Start(cs, j) by {
      StartShift(cs, d, j);
      assert tail[..j - d] == line;
    }
  }

  /** Where `line` and `rest` sit in `cs` when together they follow its first `d` chunks. */
  lemma TakenSlices(cs: seq<string>, d: nat, line: seq<string>, rest: seq<string>)
    requires d <= |cs| && line + rest == cs[d..]
    ensures d + |line| <= |cs| && line == cs[d..d + |line|] && rest == cs[d + |line|..]
    ensures cs[d..][..|line|] == line
  {
    var j := d + |line|;
    assert |cs[d..]| == |line| + |rest|;
    assert (line + rest)[..|line|] == line && (line + rest)[|line|..] == rest;
  }

  lemma Assoc(a: string, b: string, c: string)
    ensures a + (b + c) == (a + b) + c
  {
  }

  /** A line of whole chunks `cs[j - |line|..j]` loses at most its last chunk, when that is blank. */
  lemma DropShape(cs: seq<string>, line: seq<string>, j: nat) returns (b: string)
    requires ChunksOk(line) && |line| <= j <= |cs| && line == cs[j - |line|..j]
    ensures IsBlank(b)
    ensures Concat(line) == Concat(DropTrailingBlank(line)) + b
    ensures Breakable(cs, Start(cs, j) - |b|)
  {
    var r := DropTrailingBlank(line);
    if line != [] && IsBlank(line[|line| - 1]) {
      b := line[|line| - 1];
      assert line == r + [b];
      ConcatAppend(r, [b]);
      ConcatOne(b);
      StartNext(cs, j - 1);
      InsideLongBreakable(cs, j - 1, 0);
    } else {
      b := [];
      InsideLongBreakable(cs, j, 0);
    }
  }

  /** A chunk that fits on no line is cut after the piece that fills the
      line; the line ends `e` characters into that chunk. */
  lemma CutShape(cs: seq<string>, line: seq<string>, rest: seq<string>, j: nat) returns (b: string, k: nat, e: nat)
    requires ChunksOk(line) && ChunksOk(rest) && |Concat(line)| <= Width
    requires j <= |cs| && rest == cs[j..] && rest != [] && |rest[0]| > Width
    ensures var r := CutLong(line, rest);
            var out := DropTrailingBlank(r.0);
            && Remainder(cs, r.1, j, k)
            && IsBlank(b)
            && Concat(line) + Concat(rest) == Concat(out) + b + Concat(r.1)
            && (e == 0 || e == k) && |Concat(out)| == |Concat(line)| + e
  {
    var r := CutLong(line, rest);
    var p, x := CutPieces(line, rest);
    k := |p|;
    assert rest[1..] == cs[j + 1..];
    if k == 0 {
      assert r.1 == [rest[0]] + rest[1..] == cs[j..];
    }
    var out := DropTrailingBlank(r.0);
    if IsBlank(p) {
      b, e := p, 0;
      assert out == line;
    } else {
      b, e := [], k;
      assert out == r.0;
    }
  }

  /** The two pieces a cut chunk falls into. */
  lemma CutPieces(line: seq<string>, rest: seq<string>) returns (p: string, x: string)
    requires ChunksOk(line) && ChunksOk(rest) && |Concat(line)| <= Width
    requires rest != [] && |rest[0]| > Width
    ensures var r := CutLong(line, rest);
            && r.0 == line + [p] && r.1 == [x] + rest[1..] && rest[0] == p + x
            && Concat(r.0) == Concat(line) + p
            && Concat(rest) == rest[0] + Concat(rest[1..]) && Concat(r.1) == x + Concat(rest[1..])
            && x == rest[0][|p|..]
  {
    var r := CutLong(line, rest);
    p, x := r.0[|line|], r.1[0];
    assert r.0 == line + [p];
    assert r.1 == [x] + rest[1..];
    ConcatAppend(line, [p]);
    ConcatOne(p);
    assert rest == [rest[0]] + rest[1..];
    ConcatAppend([rest[0]], rest[1..]);
    ConcatOne(rest[0]);
    ConcatAppend([x], rest[1..]);
    ConcatOne(x);
    assert (p + x)[|p|..] == x;
  }

  /** The lines `WrapChunks` makes from `cs` are laid out in `Concat(cs)`. */
  lemma {:induction false} ChunksLayout(cs: seq<string>, started: bool) returns (gaps: seq<string>)
    requires ChunksOk(cs)
    ensures Layout(cs, gaps, WrapChunks(cs, started))
    decreases Weight(cs)
  {
    if cs == [] {
      gaps := [[]];
    } else {
      var r := NextLine(cs, started);
      var a, b, m, k := NextLineShape(cs, started);
      if r.0 != [] {
        var g := ChunksLayout(r.1, true);
        gaps := EmitLine(cs, a, b, m, k, Concat(r.0), r.1, WrapChunks(r.1, true), g);
      } else {
        assert a + Concat(r.0) == a;
        var g := ChunksLayout(r.1, started);
        gaps := SkipLine(cs, a, b, m, k, r.1, WrapChunks(r.1, started), g);
      }
    }
  }

  /** A line emitted between the blanks `a` and `b` joins the layout of what follows it. */
  lemma EmitLine(cs: seq<string>, a: string, b: string, m: nat, k: nat,
                 text: string, rest: seq<string>, more: seq<string>, g: seq<string>) returns (gaps: seq<string>)
    requires IsBlank(a) && IsBlank(b) && Concat(cs) == a + text + b + Concat(rest)
    requires Breakable(cs, |a|) && Breakable(cs, |a| + |text|)
    requires Remainder(cs, rest, m, k) && |a| + |text| + |b| == Start(cs, m) + k
    requires Layout(rest, g, more)
    ensures Layout(cs, gaps, [text] + more)
  {
    var lines := [text] + more;
    gaps := [a, b + g[0]] + g[1..];
    assert gaps[1..] == [b + g[0]] + g[1..] && lines[1..] == more && [g[0]] + g[1..] == g;
    BlankAppend(b, g[0]);
    WidenGap(b, g[0], g[1..], more, 0);
    Assoc(a + text, b, Concat(rest));
    forall p | Boundary(gaps, lines, p) ensures Breakable(cs, p) {
      var end := |a| + |text|;
      if p != |a| && p != end {
        WidenGap(b, g[0], g[1..], more, p - end);
        RestBreakable(cs, rest, m, k, p - end - |b|);
      }
    }
  }

  /** Blanks dropped without a line widen the first gap of the layout of what follows. */
  lemma SkipLine(cs: seq<string>, a: string, b: string, m: nat, k: nat,
                 rest: seq<string>, lines: seq<string>, g: seq<string>) returns (gaps: seq<string>)
    requires IsBlank(a) && IsBlank(b) && Concat(cs) == a + b + Concat(rest)
    requires Remainder(cs, rest, m, k) && |a| + |b| == Start(cs, m) + k
    requires Layout(rest, g, lines)
    ensures Layout(cs, gaps, lines)
  {
    gaps := [a + b + g[0]] + g[1..];
    assert [g[0]] + g[1..] == g;
    BlankAppend(a, b);
    BlankAppend(a + b, g[0]);
    WidenGap(a + b, g[0], g[1..], lines, 0);
    forall p | Boundary(gaps, lines, p) ensures Breakable(cs, p) {
      WidenGap(a + b, g[0], g[1..], lines, p);
      RestBreakable(cs, rest, m, k, p - |a| - |b|);
    }
  }

  /** `textwrap.wrap(text, 20)` drops nothing but whitespace between lines
      and cuts nothing but chunks longer than a line: the munged text is the
      lines with whitespace between them, and no line starts or ends inside
      a chunk of at most 20 characters. */
  lemma WrapLaidOut(text: string)
    ensures var m := Munge(text);
            && '\n' !in m
            && exists gaps :: Layout(Chunks(m), gaps, Wrap(text)) && Weave(gaps, Wrap(text)) == m
  {
    var m := Munge(text);
    assert forall i :: 0 <= i < |m| ==> m[i] != '\n';
    assert Wrap(text) == WrapChunks(Chunks(m), false);
    var gaps := ChunksLayout(Chunks(m), false);
    assert Layout(Chunks(m), gaps, Wrap(text)) && Weave(gaps, Wrap(text)) == m;
  }
}
