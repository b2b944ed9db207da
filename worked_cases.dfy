/** Concrete inputs worked through the model: the size hints of a short
    label and the cut of a word longer than a line. */
module WorkedCases {
  import opened Decimal
  import opened SizeHints
  import opened TextWrap
  import opened TextWrapFacts

  /** A ten-character label such as "Root Value" (one line, longest line of
      ten characters) gets the width hint 10/1.5 + 3.5 = 10.1666..., written
      "10.17em", and the height hint 1 + 3 = "4em". */
  lemma TenCharacterHints()
    ensures WidthHint(10) == "10.17em"
    ensures WidthHint(7) == "8.17em"
    ensures HeightHint(1) == "4em"
  {
    WidthOfTen();
    WidthOfSeven();
    HeightOfOne();
  }

  lemma WidthOfTen()
    ensures WidthHint(10) == "10.17em"
  {
    assert WidthHundredths(10) == 1017;
    assert NatToString(10) == "10";
    assert Fixed2(1017) == "10.17";
  }

  lemma WidthOfSeven()
    ensures WidthHint(7) == "8.17em"
  {
    assert WidthHundredths(7) == 817;
    assert Fixed2(817) == "8.17";
  }

  lemma HeightOfOne()
    ensures HeightHint(1) == "4em"
  {
    assert NatToString(4) == "4";
  }

  /** A word of 21 to 40 characters is cut after its twentieth character,
      and the rest goes on the next line: "Supercalifragilisticexpialidocious"
      wraps to "Supercalifragilistic" and "expialidocious". */
  lemma LongWordIsCut(w: string)
    requires IsWord(w) && Width < |w| <= 2 * Width
    ensures Wrap(w) == [w[..Width], w[Width..]]
  {
    WordWrap(w);
    assert Pieces(w[Width..]) == [w[Width..]];
  }

  /** Chunks that fit on a line take it whole. */
  lemma {:induction false} FitAll(cs: seq<string>, used: nat)
    requires used + |Concat(cs)| <= Width
    ensures Fit(cs, used) == |cs|
  {
    if cs != [] {
      FitAll(cs[1..], used + |cs[0]|);
    }
  }

  /** Chunks that fit on one line and neither start nor end in whitespace are that one line. */
  lemma OneLine(cs: seq<string>, started: bool)
    requires ChunksOk(cs) && cs != [] && |Concat(cs)| <= Width
    requires !IsBlank(cs[0]) && !IsBlank(cs[|cs| - 1])
    ensures WrapChunks(cs, started) == [Concat(cs)]
  {
    FitAll(cs, 0);
    assert cs[..|cs|] == cs && cs[|cs|..] == [];
    assert TakeWhole(cs, started) == (cs, []);
    assert NextLine(cs, started) == (cs, []);
  }

  /** Two words separated by one space are three chunks. */
  lemma TwoWordChunks(a: string, b: string)
    requires IsWord(a) && IsWord(b)
    ensures '\n' !in a + " " + b && Chunks(a + " " + b) == [a, " ", b]
  {
    var cs := [a, " ", b];
    assert cs[1..] == [" ", b] && cs[1..][1..] == [b] && cs[1..][1..][1..] == [];
    assert Concat(cs) == a + " " + b by {
      ConcatOne(b);
      assert Concat(cs[1..]) == " " + b;
    }
    assert '\n' !in a && '\n' !in b by {
      assert forall i :: 0 <= i < |a| ==> a[i] != '\n';
      assert forall i :: 0 <= i < |b| ==> b[i] != '\n';
    }
    assert a[0] != ' ' && b[0] != ' ';
    ChunksOfConcat(cs);
  }

  /** Two words that fit on a line together, such as "Root Value", make one
      line: nothing is dropped or cut. */
  lemma TwoWordsOneLine(a: string, b: string)
    requires IsWord(a) && IsWord(b) && |a| + 1 + |b| <= Width
    ensures Wrap(a + " " + b) == [a + " " + b]
  {
    var t := a + " " + b;
    assert forall i :: 0 <= i < |t| ==> t[i] == ' ' || !IsPyWhitespace(t[i]);
    MungePlain(t);
    TwoWordChunks(a, b);
    var cs := [a, " ", b];
    assert !IsBlank(a) by { assert !IsPyWhitespace(a[0]); }
    assert !IsBlank(b) by { assert !IsPyWhitespace(b[0]); }
    OneLine(cs, false);
    assert Concat(cs) == t;
    assert Wrap(t) == WrapChunks(Chunks(t), false);
  }

  lemma ConcatWords(a: string, b: string)
    ensures Concat([a, " ", b]) == a + " " + b
  {
    var cs := [a, " ", b];
    assert cs[1..] == [" ", b] && cs[1..][1..] == [b] && cs[1..][1..][1..] == [];
    ConcatOne(b);
  }

  /** Three words separated by single spaces are five chunks. */
  lemma ThreeWordChunks(a: string, b: string, c: string)
    requires IsWord(a) && IsWord(b) && IsWord(c)
    ensures '\n' !in a + " " + b + " " + c && Chunks(a + " " + b + " " + c) == [a, " ", b, " ", c]
  {
    var cs := [a, " ", b, " ", c];
    ConcatWords(a, b);
    ConcatWords("", c);
    assert cs == [a, " ", b] + ["", " ", c][1..];
    assert Concat(["", " ", c]) == Concat([" ", c]);
    ConcatAppend([a, " ", b], [" ", c]);
    assert "" + " " + c == " " + c;
    assert Concat(cs) == a + " " + b + " " + c;
    assert '\n' !in a && '\n' !in b && '\n' !in c by {
      assert forall i :: 0 <= i < |a| ==> a[i] != '\n';
      assert forall i :: 0 <= i < |b| ==> b[i] != '\n';
      assert forall i :: 0 <= i < |c| ==> c[i] != '\n';
    }
    assert a[0] != ' ' && b[0] != ' ' && c[0] != ' ';
    ChunksOfConcat(cs);
  }

  /** The first line of three words when the first two fit together and the third does not. */
  lemma FirstOfThree(a: string, b: string, c: string) returns (rest: seq<string>)
    requires IsWord(a) && IsWord(b) && IsWord(c) && |c| <= Width
    requires |a| + 1 + |b| <= Width < |a| + 1 + |b| + 1 + |c|
    ensures ChunksOk([a, " ", b, " ", c])
    ensures NextLine([a, " ", b, " ", c], false) == ([a, " ", b], rest)
    ensures rest == [c] || rest == [" ", c]
  {
    var cs := [a, " ", b, " ", c];
    FitTwoWords(a, b, c);
    ConcatWords(a, b);
    if |a| + 1 + |b| + 1 <= Width {
      SpaceFits(a, b, c);
      rest := [c];
    } else {
      SpaceOverflows(a, b, c);
      rest := [" ", c];
    }
  }

  /** A chunk that fits is taken and the line goes on with the rest. */
  lemma FitStep(cs: seq<string>, used: nat)
    requires cs != [] && used + |cs[0]| <= Width
    ensures Fit(cs, used) == 1 + Fit(cs[1..], used + |cs[0]|)
  {
  }

  /** Two words that fit together are taken whole by a line. */
  lemma FitTwoWords(a: string, b: string, c: string)
    requires |a| + 1 + |b| <= Width
    ensures var cs := [a, " ", b, " ", c]; Fit(cs, 0) == 3 + Fit(cs[3..], |a| + 1 + |b|)
  {
    var cs := [a, " ", b, " ", c];
    var cs1, cs2, cs3 := [" ", b, " ", c], [b, " ", c], [" ", c];
    assert cs[1..] == cs1 && cs1[1..] == cs2 && cs2[1..] == cs3 && cs[3..] == cs3;
    FitStep(cs, 0);
    FitStep(cs1, |a|);
    FitStep(cs2, |a| + 1);
  }

  /** The space after the second word still fits: it is taken and then dropped. */
  lemma SpaceFits(a: string, b: string, c: string)
    requires IsWord(a) && IsWord(b) && IsWord(c) && |c| <= Width
    requires |a| + 1 + |b| + 1 <= Width < |a| + 1 + |b| + 1 + |c|
    requires Concat([a, " ", b]) == a + " " + b
    requires var cs := [a, " ", b, " ", c]; Fit(cs, 0) == 3 + Fit(cs[3..], |a| + 1 + |b|)
    ensures ChunksOk([a, " ", b, " ", c])
    ensures NextLine([a, " ", b, " ", c], false) == ([a, " ", b], [c])
  {
    var cs := [a, " ", b, " ", c];
    var line := [a, " ", b];
    assert IsBlank(" ");
    assert Fit(cs[3..], |a| + 1 + |b|) == 1 by {
      assert cs[3..][1..] == [c];
    }
    assert cs[..4] == line + [" "] && cs[4..] == [c];
    assert TakeWhole(cs, false) == (cs[..4], [c]);
    assert CutLong(cs[..4], [c]) == (cs[..4], [c]);
    assert DropTrailingBlank(cs[..4]) == line;
  }

  /** The second word ends the line exactly: the space goes to the next line's start. */
  lemma SpaceOverflows(a: string, b: string, c: string)
    requires IsWord(a) && IsWord(b) && IsWord(c) && |a| + 1 + |b| == Width
    requires Concat([a, " ", b]) == a + " " + b
    requires var cs := [a, " ", b, " ", c]; Fit(cs, 0) == 3 + Fit(cs[3..], |a| + 1 + |b|)
    ensures ChunksOk([a, " ", b, " ", c])
    ensures NextLine([a, " ", b, " ", c], false) == ([a, " ", b], [" ", c])
  {
    var cs := [a, " ", b, " ", c];
    var line := [a, " ", b];
    assert !IsBlank(b) by { assert !IsPyWhitespace(b[0]); }
    assert Fit(cs[3..], |a| + 1 + |b|) == 0;
    assert cs[..3] == line && cs[3..] == [" ", c];
    assert TakeWhole(cs, false) == (line, [" ", c]);
  }

  /** An emitted line comes first, and the rest is wrapped as after a line. */
  lemma WrapStep(cs: seq<string>, started: bool, line: seq<string>, rest: seq<string>)
    requires cs != [] && ChunksOk(cs) && NextLine(cs, started) == (line, rest) && line != []
    ensures WrapChunks(cs, started) == [Concat(line)] + WrapChunks(rest, true)
  {
  }

  /** A line takes the words that fit in 20 columns and loses the space
      after them; the next word starts the next line, as "climate change
      impacts" (14 columns for the first two words, 22 with the third)
      wraps to "climate change" and "impacts". */
  lemma ThreeWordsTwoLines(a: string, b: string, c: string)
    requires IsWord(a) && IsWord(b) && IsWord(c) && |c| <= Width
    requires |a| + 1 + |b| <= Width < |a| + 1 + |b| + 1 + |c|
    ensures Wrap(a + " " + b + " " + c) == [a + " " + b, c]
  {
    var t := a + " " + b + " " + c;
    var cs := [a, " ", b, " ", c];
    ThreeWordsPlain(a, b, c);
    ThreeWordChunks(a, b, c);
    WrapOfPlain(t, cs);
    var rest := FirstOfThree(a, b, c);
    LastOfThree(c, rest);
    ConcatWords(a, b);
    TwoLines(cs, [a, " ", b], rest, a + " " + b, c);
  }

  /** A first line and a remainder that fits on one line make two lines. */
  lemma TwoLines(cs: seq<string>, line: seq<string>, rest: seq<string>, x: string, y: string)
    requires cs != [] && ChunksOk(cs) && NextLine(cs, false) == (line, rest) && line != []
    requires Concat(line) == x && ChunksOk(rest) && WrapChunks(rest, true) == [y]
    ensures WrapChunks(cs, false) == [x, y]
  {
    WrapStep(cs, false, line, rest);
  }

  /** Words and single spaces are left as they are by the whitespace pass. */
  lemma ThreeWordsPlain(a: string, b: string, c: string)
    requires IsWord(a) && IsWord(b) && IsWord(c)
    ensures Munge(a + " " + b + " " + c) == a + " " + b + " " + c
  {
    var t := a + " " + b + " " + c;
    assert forall i :: 0 <= i < |t| ==> t[i] == ' ' || !IsPyWhitespace(t[i]);
    MungePlain(t);
  }

  /** Text the whitespace pass leaves alone is wrapped from its own chunks. */
  lemma WrapOfPlain(t: string, cs: seq<string>)
    requires Munge(t) == t && '\n' !in t && Chunks(t) == cs
    ensures Wrap(t) == WrapChunks(cs, false)
  {
  }

  /** What is left after the first line is the last word, with or without the space before it. */
  lemma LastOfThree(c: string, rest: seq<string>)
    requires IsWord(c) && |c| <= Width && (rest == [c] || rest == [" ", c])
    ensures ChunksOk(rest) && WrapChunks(rest, true) == [c]
  {
    assert '\n' !in c by { assert forall i :: 0 <= i < |c| ==> c[i] != '\n'; }
    assert !IsBlank(c) by { assert !IsPyWhitespace(c[0]); }
    ConcatOne(c);
    OneLine([c], true);
    if rest == [" ", c] {
      SkipLeadingSpace(c);
      SameFirstLine(rest, [c]);
    }
  }

  /** After a line, a leading space is dropped before the next one. */
  lemma SkipLeadingSpace(c: string)
    requires c != [] && '\n' !in c && !IsBlank(c)
    ensures ChunksOk([" ", c]) && NextLine([" ", c], true) == NextLine([c], true)
  {
    var rest := [" ", c];
    assert IsBlank(" ");
    assert rest[1..] == [c];
    assert TakeWhole(rest, true) == SplitFit([c]) == TakeWhole([c], true);
  }

  /** Chunk lists with the same first line step wrap alike. */
  lemma SameFirstLine(x: seq<string>, y: seq<string>)
    requires x != [] && y != [] && ChunksOk(x) && ChunksOk(y)
    requires NextLine(x, true) == NextLine(y, true)
    ensures WrapChunks(x, true) == WrapChunks(y, true)
  {
  }
}
