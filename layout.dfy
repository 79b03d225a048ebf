/** The layout engine (src/layout.rs): the expanded tree is flattened into
    a list of boxes (word runs and glue), the boxes are broken greedily into
    lines of bounded width, and the lines are cut into pages of a fixed
    number of lines. Widths are exact reals here; the source uses `f64`. */
module Layout {
  import opened Ast
  import Seqs
  import Lexer

  /** A word with its style. */
  datatype StyledRun = StyledRun(text: string, style: TextStyle)

  /** One primitive of a box: a run of text or a stretch of glue. */
  datatype LayoutNode = Run(run: StyledRun) | Glue(amount: real)

  /** A box of primitives with its width. */
  datatype HBox = HBox(items: seq<LayoutNode>, width: real)

  /** A line of boxes with its width. */
  datatype Line = Line(boxes: seq<HBox>, width: real)

  datatype Page = Page(lines: seq<Line>)

  // ---------------------------------------------------------------------
  // Words

  /** End of the run of non-whitespace characters that starts at `i`. */
  function WordEnd(s: string, i: nat): (e: nat)
    requires i <= |s|
    ensures i <= e <= |s|
    ensures forall m :: i <= m < e ==> !Lexer.IsSpace(s[m])
    ensures e == |s| || Lexer.IsSpace(s[e])
    decreases |s| - i
  {
    if i < |s| && !Lexer.IsSpace(s[i]) then WordEnd(s, i + 1) else i
  }

  /** `split_whitespace` from offset `i`: the maximal runs of
      non-whitespace characters, in order. */
  function WordsFrom(s: string, i: nat): seq<string>
    requires i <= |s|
    decreases |s| - i
  {
    if i == |s| then []
    else if Lexer.IsSpace(s[i]) then WordsFrom(s, i + 1)
    else [s[i..WordEnd(s, i)]] + WordsFrom(s, WordEnd(s, i))
  }

  function Words(s: string): seq<string>
  {
    WordsFrom(s, 0)
  }

  /** A word: non-empty and free of whitespace. */
  predicate IsWord(w: string)
  {
    |w| > 0 && forall m :: 0 <= m < |w| ==> !Lexer.IsSpace(w[m])
  }

  /** `s` with its whitespace removed. */
  function Squeeze(s: string): string
  {
    if |s| == 0 then []
    else (if Lexer.IsSpace(s[0]) then [] else [s[0]]) + Squeeze(s[1..])
  }

  // ---------------------------------------------------------------------
  // Boxes

  /** The glue box: one `Glue` item as wide as a space. */
  function GlueBox(spaceWidth: real): HBox
  {
    HBox([Glue(spaceWidth)], spaceWidth)
  }

  /** The box of a word: one run, as wide as its bytes times the character
      width. */
  function RunBox(word: string, style: TextStyle, charWidth: real): HBox
  {
    HBox([Run(StyledRun(word, style))], |word| as real * charWidth)
  }

  /** One single-box part per word. */
  function RunParts(words: seq<string>, style: TextStyle, charWidth: real): (r: seq<seq<HBox>>)
    ensures |r| == |words|
    ensures forall k :: 0 <= k < |words| ==> r[k] == [RunBox(words[k], style, charWidth)]
  {
    seq(|words|, k requires 0 <= k < |words| => [RunBox(words[k], style, charWidth)])
  }

  /** The boxes of a text leaf: its words' runs with glue between them. */
  function WordBoxes(s: string, style: TextStyle, charWidth: real, spaceWidth: real): seq<HBox>
  {
    Seqs.Intercalate(RunParts(Words(s), style, charWidth), GlueBox(spaceWidth))
  }

  /** `flatten_ast`: the boxes a tree contributes, depth first. */
  function Boxes(n: Node, charWidth: real, spaceWidth: real): seq<HBox>
  {
    match n
    case Text(s) => WordBoxes(s, Normal, charWidth, spaceWidth)
    case StyledText(s, style) => WordBoxes(s, style, charWidth, spaceWidth)
    case Seq(cs) => Seqs.Intercalate(BoxesAll(cs, charWidth, spaceWidth), GlueBox(spaceWidth))
    case Macro(_, args) => Seqs.Intercalate(BoxesAll(args, charWidth, spaceWidth), GlueBox(spaceWidth))
  }

  function BoxesAll(ns: seq<Node>, charWidth: real, spaceWidth: real): (r: seq<seq<HBox>>)
    ensures |r| == |ns|
    ensures forall k :: 0 <= k < |ns| ==> r[k] == Boxes(ns[k], charWidth, spaceWidth)
  {
    if |ns| == 0 then []
    else BoxesAll(ns[..|ns| - 1], charWidth, spaceWidth) + [Boxes(ns[|ns| - 1], charWidth, spaceWidth)]
  }

  /** `flatten_ast`, pushing onto `hboxes`: the vector the source mutates
      is passed in and handed back. */
  method FlattenAst(ast: Node, hboxes: seq<HBox>, charWidth: real, spaceWidth: real) returns (out: seq<HBox>)
    ensures out == hboxes + Boxes(ast, charWidth, spaceWidth)
    decreases ast, 1
  {
    match ast
    case Seq(children) =>
      out := FlattenSiblings(children, hboxes, charWidth, spaceWidth);
    case Text(s) =>
      out := FlattenWords(s, Normal, hboxes, charWidth, spaceWidth);
    case StyledText(s, style) =>
      out := FlattenWords(s, style, hboxes, charWidth, spaceWidth);
    case Macro(_, args) =>
      out := FlattenSiblings(args, hboxes, charWidth, spaceWidth);
  }

  /** The loop of the `Seq` and `Macro` branches: each child flattened in
      turn, a glue box pushed before every child but the first. */
  method FlattenSiblings(children: seq<Node>, hboxes: seq<HBox>, charWidth: real, spaceWidth: real)
    returns (out: seq<HBox>)
    ensures out == hboxes + Seqs.Intercalate(BoxesAll(children, charWidth, spaceWidth), GlueBox(spaceWidth))
    decreases children, 0
  {
    var glue := GlueBox(spaceWidth);
    out := hboxes;
    for i := 0 to |children|
      invariant out == hboxes + SiblingBoxes(children, i, charWidth, spaceWidth)
    {
      if i > 0 {
        out := out + [glue];
      }
      out := FlattenAst(children[i], out, charWidth, spaceWidth);
    }
    SiblingBoxesAre(children, |children|, charWidth, spaceWidth);
    assert children[..|children|] == children;
  }

  /** The boxes of the first `i` siblings as the loop builds them. */
  ghost function SiblingBoxes(children: seq<Node>, i: nat, charWidth: real, spaceWidth: real): seq<HBox>
    requires i <= |children|
  {
    if i == 0 then []
    else
      SiblingBoxes(children, i - 1, charWidth, spaceWidth)
      + (if i > 1 then [GlueBox(spaceWidth)] else [])
      + Boxes(children[i - 1], charWidth, spaceWidth)
  }

  lemma {:induction false} SiblingBoxesAre(children: seq<Node>, i: nat, charWidth: real, spaceWidth: real)
    requires i <= |children|
    ensures SiblingBoxes(children, i, charWidth, spaceWidth)
         == Seqs.Intercalate(BoxesAll(children[..i], charWidth, spaceWidth), GlueBox(spaceWidth))
  {
    if i > 0 {
      var glue := GlueBox(spaceWidth);
      calc {
        SiblingBoxes(children, i, charWidth, spaceWidth);
      ==
        SiblingBoxes(children, i - 1, charWidth, spaceWidth)
        + (if i > 1 then [glue] else []) + Boxes(children[i - 1], charWidth, spaceWidth);
      == { SiblingBoxesAre(children, i - 1, charWidth, spaceWidth); }
        Seqs.Intercalate(BoxesAll(children[..i - 1], charWidth, spaceWidth), glue)
        + (if i - 1 > 0 then [glue] else []) + Boxes(children[i - 1], charWidth, spaceWidth);
      == { SiblingsStep(children, i - 1, charWidth, spaceWidth); }
        Seqs.Intercalate(BoxesAll(children[..i], charWidth, spaceWidth), glue);
      }
    }
  }

  /** One more sibling adds a glue box (unless it is the first) and its
      own boxes. */
  lemma SiblingsStep(children: seq<Node>, i: nat, charWidth: real, spaceWidth: real)
    requires i < |children|
    ensures Seqs.Intercalate(BoxesAll(children[..i + 1], charWidth, spaceWidth), GlueBox(spaceWidth))
         == Seqs.Intercalate(BoxesAll(children[..i], charWidth, spaceWidth), GlueBox(spaceWidth))
            + (if i > 0 then [GlueBox(spaceWidth)] else [])
            + Boxes(children[i], charWidth, spaceWidth)
  {
    var done := BoxesAll(children[..i], charWidth, spaceWidth);
    assert children[..i + 1][..i] == children[..i];
    assert BoxesAll(children[..i + 1], charWidth, spaceWidth) == done + [Boxes(children[i], charWidth, spaceWidth)];
    Seqs.IntercalateSnoc(done, Boxes(children[i], charWidth, spaceWidth), GlueBox(spaceWidth));
  }

  /** The loop of the `Text` and `StyledText` branches: one run box per
      word, a glue box before every word but the first. */
  method FlattenWords(s: string, style: TextStyle, hboxes: seq<HBox>, charWidth: real, spaceWidth: real)
    returns (out: seq<HBox>)
    ensures out == hboxes + WordBoxes(s, style, charWidth, spaceWidth)
  {
    var glue := GlueBox(spaceWidth);
    out := hboxes;
    var words := Words(s);
    for j := 0 to |words|
      invariant out == hboxes + Seqs.Intercalate(RunParts(words[..j], style, charWidth), glue)
    {
      RunPartsStep(words, j, style, charWidth, glue);
      if j > 0 {
        out := out + [glue];
      }
      var width := |words[j]| as real * charWidth;
      out := out + [HBox([Run(StyledRun(words[j], style))], width)];
    }
    assert words[..|words|] == words;
  }

  /** One more word adds a glue box (unless it is the first) and its run
      box. */
  lemma RunPartsStep(words: seq<string>, j: nat, style: TextStyle, charWidth: real, glue: HBox)
    requires j < |words|
    ensures Seqs.Intercalate(RunParts(words[..j + 1], style, charWidth), glue)
         == Seqs.Intercalate(RunParts(words[..j], style, charWidth), glue)
            + (if j > 0 then [glue] else []) + [RunBox(words[j], style, charWidth)]
  {
    var done := RunParts(words[..j], style, charWidth);
    assert RunParts(words[..j + 1], style, charWidth) == done + [[RunBox(words[j], style, charWidth)]];
    Seqs.IntercalateSnoc(done, [RunBox(words[j], style, charWidth)], glue);
  }

  // ---------------------------------------------------------------------
  // Words: what `split_whitespace` promises

  /** Every word is non-empty and holds no whitespace. */
  lemma {:induction false} WordsFromAreWords(s: string, i: nat)
    requires i <= |s|
    ensures forall k :: 0 <= k < |WordsFrom(s, i)| ==> IsWord(WordsFrom(s, i)[k])
    decreases |s| - i
  {
    if i < |s| {
      if Lexer.IsSpace(s[i]) {
        WordsFromAreWords(s, i + 1);
      } else {
        WordsFromAreWords(s, WordEnd(s, i));
      }
    }
  }

  /** A run of non-whitespace contributes its characters as they are. */
  lemma {:induction false} SqueezeRun(s: string, i: nat, e: nat)
    requires i <= e <= |s|
    requires forall m :: i <= m < e ==> !Lexer.IsSpace(s[m])
    ensures Squeeze(s[i..]) == s[i..e] + Squeeze(s[e..])
    decreases e - i
  {
    if i < e {
      SqueezeRun(s, i + 1, e);
      assert s[i..][1..] == s[i + 1..];
      assert s[i..e] == [s[i]] + s[i + 1..e];
    }
  }

  lemma {:induction false} WordsFromSqueeze(s: string, i: nat)
    requires i <= |s|
    ensures Seqs.Concat(WordsFrom(s, i)) == Squeeze(s[i..])
    decreases |s| - i
  {
    if i < |s| {
      assert s[i..][1..] == s[i + 1..];
      if Lexer.IsSpace(s[i]) {
        WordsFromSqueeze(s, i + 1);
      } else {
        var e := WordEnd(s, i);
        WordsFromSqueeze(s, e);
        SqueezeRun(s, i, e);
        Seqs.ConcatCons(s[i..e], WordsFrom(s, e));
      }
    }
  }

  /** The words, put together, are the text without its whitespace. */
  lemma WordsSqueeze(s: string)
    ensures forall k :: 0 <= k < |Words(s)| ==> IsWord(Words(s)[k])
    ensures Seqs.Concat(Words(s)) == Squeeze(s)
  {
    WordsFromAreWords(s, 0);
    WordsFromSqueeze(s, 0);
    assert s[0..] == s;
  }

  lemma {:induction false} WordEndShift(p: string, q: string, j: nat)
    requires j <= |q|
    ensures WordEnd(p + q, |p| + j) == |p| + WordEnd(q, j)
    decreases |q| - j
  {
    if j < |q| {
      assert (p + q)[|p| + j] == q[j];
      if !Lexer.IsSpace(q[j]) {
        WordEndShift(p, q, j + 1);
      }
    }
  }

  /** Scanning a suffix as part of a longer text finds the same words. */
  lemma {:induction false} WordsFromShift(p: string, q: string, j: nat)
    requires j <= |q|
    ensures WordsFrom(p + q, |p| + j) == WordsFrom(q, j)
    decreases |q| - j
  {
    if j < |q| {
      assert (p + q)[|p| + j] == q[j];
      if Lexer.IsSpace(q[j]) {
        WordsFromShift(p, q, j + 1);
      } else {
        WordsFromShift(p, q, WordEnd(q, j));
        WordShiftStep(p, q, j);
      }
    }
  }

  /** The step of `WordsFromShift` at a word: the same word, then the same
      words after it. */
  lemma WordShiftStep(p: string, q: string, j: nat)
    requires j < |q| && !Lexer.IsSpace(q[j])
    requires WordsFrom(p + q, |p| + WordEnd(q, j)) == WordsFrom(q, WordEnd(q, j))
    ensures WordsFrom(p + q, |p| + j) == WordsFrom(q, j)
  {
    var e := WordEnd(q, j);
    assert (p + q)[|p| + j] == q[j];
    WordEndShift(p, q, j);
    assert (p + q)[|p| + j..|p| + e] == q[j..e];
  }

  /** A space between two texts separates their words. */
  lemma {:induction false} WordsFromSpaced(a: string, b: string, i: nat)
    requires i <= |a|
    ensures WordsFrom(a + [' '] + b, i) == WordsFrom(a, i) + Words(b)
    decreases |a| - i
  {
    var x := a + [' '] + b;
    assert x == (a + [' ']) + b;
    if i == |a| {
      WordsFromShift(a + [' '], b, 0);
    } else {
      assert x[i] == a[i];
      if Lexer.IsSpace(a[i]) {
        WordsFromSpaced(a, b, i + 1);
      } else {
        var e := WordEnd(a, i);
        assert WordEnd(x, i) == e by {
          WordEndPrefix(a, x, i);
        }
        WordsFromSpaced(a, b, e);
        assert x[i..e] == a[i..e];
      }
    }
  }

  /** Extending a text past a whitespace does not move a word's end. */
  lemma {:induction false} WordEndPrefix(a: string, x: string, i: nat)
    requires i <= |a| < |x| && x[..|a|] == a && Lexer.IsSpace(x[|a|])
    ensures WordEnd(x, i) == WordEnd(a, i)
    decreases |a| - i
  {
    if i < |a| {
      assert x[i] == a[i];
      if !Lexer.IsSpace(a[i]) {
        WordEndPrefix(a, x, i + 1);
      }
    }
  }

  /** A word splits into itself. */
  lemma WordsOfWord(w: string)
    requires IsWord(w)
    ensures Words(w) == [w]
  {
    assert WordEnd(w, 0) == |w| by {
      WordEndRun(w, 0);
    }
    assert w[0..|w|] == w;
    assert !Lexer.IsSpace(w[0]);
    assert WordsFrom(w, |w|) == [];
    assert WordsFrom(w, 0) == [w[0..|w|]] + WordsFrom(w, |w|);
  }

  lemma {:induction false} WordEndRun(w: string, i: nat)
    requires i <= |w| && forall m :: 0 <= m < |w| ==> !Lexer.IsSpace(w[m])
    ensures WordEnd(w, i) == |w|
    decreases |w| - i
  {
    if i < |w| {
      WordEndRun(w, i + 1);
    }
  }

  /** Splitting undoes joining words with single spaces. */
  lemma {:induction false} WordsJoined(ws: seq<string>)
    requires forall k :: 0 <= k < |ws| ==> IsWord(ws[k])
    ensures Words(Seqs.Intercalate(ws, ' ')) == ws
  {
    if |ws| == 1 {
      WordsOfWord(ws[0]);
    } else if |ws| > 1 {
      var init, w := ws[..|ws| - 1], ws[|ws| - 1];
      WordsJoined(init);
      Seqs.IntercalateSnoc(init, w, ' ');
      assert ws == init + [w];
      WordsFromSpaced(Seqs.Intercalate(init, ' '), w, 0);
      WordsOfWord(w);
    }
  }

  // ---------------------------------------------------------------------
  // Boxes: what `flatten_ast` promises

  /** A text with k > 0 words gives 2k - 1 boxes: the words' runs at even
      positions, each as wide as the word's length times the character
      width and in the leaf's style, and glue at odd positions. */
  lemma WordBoxesShape(s: string, style: TextStyle, charWidth: real, spaceWidth: real)
    ensures |Words(s)| == 0 ==> WordBoxes(s, style, charWidth, spaceWidth) == []
    ensures |Words(s)| > 0 ==> |WordBoxes(s, style, charWidth, spaceWidth)| == 2 * |Words(s)| - 1
    ensures forall k :: 0 <= k < |Words(s)| ==>
      WordBoxes(s, style, charWidth, spaceWidth)[2 * k]
        == HBox([Run(StyledRun(Words(s)[k], style))], |Words(s)[k]| as real * charWidth)
    ensures forall k :: 0 <= k < |Words(s)| - 1 ==>
      WordBoxes(s, style, charWidth, spaceWidth)[2 * k + 1] == HBox([Glue(spaceWidth)], spaceWidth)
  {
    if |Words(s)| > 0 {
      Seqs.IntercalateSingletons(RunParts(Words(s), style, charWidth), GlueBox(spaceWidth));
    }
  }

  /** A `Seq` or `Macro` with n > 0 children gives one glue box between each
      two of them, n - 1 in all, even around children with no boxes. */
  lemma SiblingGlue(cs: seq<Node>, charWidth: real, spaceWidth: real)
    requires |cs| > 0
    ensures |Boxes(Seq(cs), charWidth, spaceWidth)|
         == Seqs.TotalLength(BoxesAll(cs, charWidth, spaceWidth)) + |cs| - 1
  {
    Seqs.IntercalateLength(BoxesAll(cs, charWidth, spaceWidth), GlueBox(spaceWidth));
  }

  /** Where each child's boxes (`BoxesAll(cs, ..)[k]`, the boxes of
      `cs[k]`) sit among a `Seq`'s boxes: they start after the boxes before it and one glue box for each of them,
      and a glue box follows every child's boxes but the last. With
      `SiblingGlue`, this fixes every box of the result. */
  lemma SiblingParts(cs: seq<Node>, k: nat, charWidth: real, spaceWidth: real)
    requires k < |cs|
    ensures Seqs.PartStart(BoxesAll(cs, charWidth, spaceWidth), k) + |BoxesAll(cs, charWidth, spaceWidth)[k]|
         <= |Boxes(Seq(cs), charWidth, spaceWidth)|
    ensures Boxes(Seq(cs), charWidth, spaceWidth)[Seqs.PartStart(BoxesAll(cs, charWidth, spaceWidth), k)..
                Seqs.PartStart(BoxesAll(cs, charWidth, spaceWidth), k) + |BoxesAll(cs, charWidth, spaceWidth)[k]|]
         == BoxesAll(cs, charWidth, spaceWidth)[k]
    ensures k + 1 < |cs| ==>
      Seqs.PartStart(BoxesAll(cs, charWidth, spaceWidth), k) + |BoxesAll(cs, charWidth, spaceWidth)[k]|
        < |Boxes(Seq(cs), charWidth, spaceWidth)| &&
      Boxes(Seq(cs), charWidth, spaceWidth)[Seqs.PartStart(BoxesAll(cs, charWidth, spaceWidth), k)
                                              + |BoxesAll(cs, charWidth, spaceWidth)[k]|]
        == GlueBox(spaceWidth)
  {
    var parts := BoxesAll(cs, charWidth, spaceWidth);
    var r := Boxes(Seq(cs), charWidth, spaceWidth);
    Seqs.JoinedParts(r, parts, GlueBox(spaceWidth), k);
    if k + 1 < |cs| {
      assert r[Seqs.PartStart(parts, k) + |parts[k]|] == GlueBox(spaceWidth);
    }
  }

  /** A macro lays out as the sequence of its arguments: its name is
      ignored. */
  lemma MacroLikeSeq(name: string, args: seq<Node>, charWidth: real, spaceWidth: real)
    ensures Boxes(Macro(name, args), charWidth, spaceWidth) == Boxes(Seq(args), charWidth, spaceWidth)
  {
  }

  /** Two children with no boxes still get the glue between them. */
  lemma EmptySiblingsExample(a: string, b: string, charWidth: real, spaceWidth: real)
    ensures Boxes(Seq([Macro(a, []), Macro(b, [])]), charWidth, spaceWidth) == [GlueBox(spaceWidth)]
  {
    var cs := [Macro(a, []), Macro(b, [])];
    assert BoxesAll(cs, charWidth, spaceWidth) == [[], []];
  }

  // ---------------------------------------------------------------------
  // Line breaking

  /** Sum of the boxes' widths. */
  function TotalWidth(bs: seq<HBox>): real
  {
    if |bs| == 0 then 0.0 else TotalWidth(bs[..|bs| - 1]) + bs[|bs| - 1].width
  }

  /** The boxes of each line, in order. */
  function LineBoxes(ls: seq<Line>): (r: seq<seq<HBox>>)
    ensures |r| == |ls|
    ensures forall k :: 0 <= k < |ls| ==> r[k] == ls[k].boxes
  {
    seq(|ls|, k requires 0 <= k < |ls| => ls[k].boxes)
  }

  /** The state of the breaker loop: the lines closed so far, the boxes of
      the current line and its width. */
  datatype Breaker = Breaker(lines: seq<Line>, curr: seq<HBox>, w: real)

  /** One turn of the breaker loop: close the current line first when the
      box does not fit and the line is not empty, then add the box. */
  function Feed(st: Breaker, hb: HBox, lineWidth: real): Breaker
  {
    if st.w + hb.width > lineWidth && |st.curr| > 0 then
      Breaker(st.lines + [Line(st.curr, st.w)], [hb], 0.0 + hb.width)
    else
      Breaker(st.lines, st.curr + [hb], st.w + hb.width)
  }

  /** The breaker loop over `bs`. */
  function FeedAll(bs: seq<HBox>, lineWidth: real): Breaker
  {
    if |bs| == 0 then Breaker([], [], 0.0)
    else Feed(FeedAll(bs[..|bs| - 1], lineWidth), bs[|bs| - 1], lineWidth)
  }

  /** The lines of `layout`: the loop, then the last line if it is not
      empty. */
  function BreakLines(bs: seq<HBox>, lineWidth: real): seq<Line>
  {
    var st := FeedAll(bs, lineWidth);
    if |st.curr| > 0 then st.lines + [Line(st.curr, st.w)] else st.lines
  }

  /** Every box after the first was let onto the line: each prefix of two
      or more boxes fits. */
  ghost predicate Admitted(boxes: seq<HBox>, lineWidth: real)
  {
    forall j :: 2 <= j <= |boxes| ==> TotalWidth(boxes[..j]) <= lineWidth
  }

  /** A well-formed line: not empty, its width the sum of its boxes, each
      box after the first admitted. */
  ghost predicate GoodLine(l: Line, lineWidth: real)
  {
    |l.boxes| > 0 && l.width == TotalWidth(l.boxes) && Admitted(l.boxes, lineWidth)
  }

  /** The greedy line breaking of `bs`: the lines hold exactly the boxes,
      in order; every line is good; and the first box of each line but the
      first did not fit on the line before it. */
  ghost predicate Greedy(ls: seq<Line>, bs: seq<HBox>, lineWidth: real)
  {
    && Seqs.Concat(LineBoxes(ls)) == bs
    && (forall k :: 0 <= k < |ls| ==> GoodLine(ls[k], lineWidth))
    && (forall k :: 0 <= k < |ls| - 1 ==> ls[k].width + ls[k + 1].boxes[0].width > lineWidth)
  }

  /** What holds of the loop state after the boxes `bs`. */
  ghost predicate BreakerInv(st: Breaker, bs: seq<HBox>, lineWidth: real)
  {
    && Seqs.Concat(LineBoxes(st.lines)) + st.curr == bs
    && (forall k :: 0 <= k < |st.lines| ==> GoodLine(st.lines[k], lineWidth))
    && (forall k :: 0 <= k < |st.lines| - 1 ==> st.lines[k].width + st.lines[k + 1].boxes[0].width > lineWidth)
    && st.w == TotalWidth(st.curr)
    && Admitted(st.curr, lineWidth)
    && (|bs| > 0 ==> |st.curr| > 0)
    && (|st.lines| > 0 ==> st.lines[|st.lines| - 1].width + st.curr[0].width > lineWidth)
  }

  lemma TotalWidthSnoc(bs: seq<HBox>, hb: HBox)
    ensures TotalWidth(bs + [hb]) == TotalWidth(bs) + hb.width
  {
    assert (bs + [hb])[..|bs|] == bs;
  }

  lemma LineBoxesSnoc(ls: seq<Line>, l: Line)
    ensures Seqs.Concat(LineBoxes(ls + [l])) == Seqs.Concat(LineBoxes(ls)) + l.boxes
  {
    assert LineBoxes(ls + [l]) == LineBoxes(ls) + [l.boxes];
    Seqs.ConcatAppend(LineBoxes(ls), [l.boxes]);
    assert [l.boxes][..0] == [];
  }

  /** Adding a box to an admitted line whose total width with it still
      fits keeps the line admitted. */
  lemma AdmittedSnoc(boxes: seq<HBox>, hb: HBox, lineWidth: real)
    requires Admitted(boxes, lineWidth)
    requires |boxes| > 0 ==> TotalWidth(boxes) + hb.width <= lineWidth
    ensures Admitted(boxes + [hb], lineWidth)
  {
    var nb := boxes + [hb];
    forall j | 2 <= j <= |nb| ensures TotalWidth(nb[..j]) <= lineWidth {
      if j <= |boxes| {
        assert nb[..j] == boxes[..j];
      } else {
        assert nb[..j] == nb;
        TotalWidthSnoc(boxes, hb);
      }
    }
  }

  /** Closing the current line and starting a new one with the box keeps
      the invariant. */
  lemma CloseKeeps(st: Breaker, bs: seq<HBox>, hb: HBox, lineWidth: real)
    requires BreakerInv(st, bs, lineWidth)
    requires st.w + hb.width > lineWidth && |st.curr| > 0
    ensures BreakerInv(Feed(st, hb, lineWidth), bs + [hb], lineWidth)
  {
    var nst := Feed(st, hb, lineWidth);
    LineBoxesSnoc(st.lines, Line(st.curr, st.w));
    assert nst.lines[|nst.lines| - 1] == Line(st.curr, st.w);
    assert [hb][..0] == [];
    assert [hb][..1] == [hb];
  }

  /** Adding the box to the current line keeps the invariant. */
  lemma ExtendKeeps(st: Breaker, bs: seq<HBox>, hb: HBox, lineWidth: real)
    requires BreakerInv(st, bs, lineWidth)
    requires !(st.w + hb.width > lineWidth && |st.curr| > 0)
    ensures BreakerInv(Feed(st, hb, lineWidth), bs + [hb], lineWidth)
  {
    AdmittedSnoc(st.curr, hb, lineWidth);
    TotalWidthSnoc(st.curr, hb);
  }

  /** One turn of the loop keeps the invariant. */
  lemma FeedKeeps(st: Breaker, bs: seq<HBox>, hb: HBox, lineWidth: real)
    requires BreakerInv(st, bs, lineWidth)
    ensures BreakerInv(Feed(st, hb, lineWidth), bs + [hb], lineWidth)
  {
    if st.w + hb.width > lineWidth && |st.curr| > 0 {
      CloseKeeps(st, bs, hb, lineWidth);
    } else {
      ExtendKeeps(st, bs, hb, lineWidth);
    }
  }

  lemma {:induction false} FeedAllInv(bs: seq<HBox>, lineWidth: real)
    ensures BreakerInv(FeedAll(bs, lineWidth), bs, lineWidth)
  {
    if |bs| > 0 {
      var init, last := bs[..|bs| - 1], bs[|bs| - 1];
      var st := FeedAll(init, lineWidth);
      assert FeedAll(bs, lineWidth) == Feed(st, last, lineWidth);
      assert init + [last] == bs;
      FeedAllInv(init, lineWidth);
      FeedKeeps(st, init, last, lineWidth);
    }
  }

  /** The breaker produces the greedy line breaking, and no lines for no
      boxes. */
  lemma BreakLinesGreedy(bs: seq<HBox>, lineWidth: real)
    ensures Greedy(BreakLines(bs, lineWidth), bs, lineWidth)
    ensures |bs| == 0 <==> |BreakLines(bs, lineWidth)| == 0
  {
    var st := FeedAll(bs, lineWidth);
    FeedAllInv(bs, lineWidth);
    if |st.curr| > 0 {
      CloseLast(st, bs, lineWidth);
    } else {
      assert bs == [];
    }
  }

  /** Closing the last, non-empty line of a state that keeps the invariant
      gives a greedy breaking. */
  lemma CloseLast(st: Breaker, bs: seq<HBox>, lineWidth: real)
    requires BreakerInv(st, bs, lineWidth) && |st.curr| > 0
    ensures Greedy(st.lines + [Line(st.curr, st.w)], bs, lineWidth)
  {
    var last := Line(st.curr, st.w);
    var ls := st.lines + [last];
    LineBoxesSnoc(st.lines, last);
    assert GoodLine(last, lineWidth);
    forall k | 0 <= k < |ls| ensures GoodLine(ls[k], lineWidth) {
      if k < |st.lines| {
        assert ls[k] == st.lines[k];
      }
    }
    forall k | 0 <= k < |ls| - 1 ensures ls[k].width + ls[k + 1].boxes[0].width > lineWidth {
      assert ls[k] == st.lines[k];
      if k < |st.lines| - 1 {
        assert ls[k + 1] == st.lines[k + 1];
      }
    }
  }

  /** Good lines hold at least one box each. */
  lemma {:induction false} ConcatLength(ls: seq<Line>, lineWidth: real)
    requires forall k :: 0 <= k < |ls| ==> GoodLine(ls[k], lineWidth)
    ensures |Seqs.Concat(LineBoxes(ls))| >= |ls|
  {
    if |ls| > 0 {
      var init := ls[..|ls| - 1];
      ConcatLength(init, lineWidth);
      LineBoxesSnoc(init, ls[|ls| - 1]);
      assert init + [ls[|ls| - 1]] == ls;
    }
  }

  /** The boxes of some lines are the first line's boxes, then the rest's. */
  lemma LineBoxesCons(ls: seq<Line>)
    requires |ls| > 0
    ensures Seqs.Concat(LineBoxes(ls)) == ls[0].boxes + Seqs.Concat(LineBoxes(ls[1..]))
  {
    assert LineBoxes(ls) == [ls[0].boxes] + LineBoxes(ls[1..]);
    Seqs.ConcatCons(ls[0].boxes, LineBoxes(ls[1..]));
  }

  /** Dropping the first line of a greedy breaking leaves a greedy
      breaking of the remaining lines' boxes. */
  lemma GreedyRest(ls: seq<Line>, lineWidth: real)
    requires |ls| > 0 && Greedy(ls, Seqs.Concat(LineBoxes(ls)), lineWidth)
    ensures Greedy(ls[1..], Seqs.Concat(LineBoxes(ls[1..])), lineWidth)
  {
    var rest := ls[1..];
    forall k | 0 <= k < |rest| ensures GoodLine(rest[k], lineWidth) {
      assert rest[k] == ls[k + 1];
    }
    forall k | 0 <= k < |rest| - 1 ensures rest[k].width + rest[k + 1].boxes[0].width > lineWidth {
      assert rest[k] == ls[k + 1] && rest[k + 1] == ls[k + 2];
    }
  }

  /** The first line of a greedy breaking is a prefix of the boxes, and the
      other lines are the greedy breaking of the rest. */
  lemma GreedyTail(ls: seq<Line>, bs: seq<HBox>, lineWidth: real)
    requires Greedy(ls, bs, lineWidth) && |ls| > 0
    ensures |ls[0].boxes| <= |bs| && bs[..|ls[0].boxes|] == ls[0].boxes
    ensures Greedy(ls[1..], bs[|ls[0].boxes|..], lineWidth)
  {
    LineBoxesCons(ls);
    GreedyRest(ls, lineWidth);
    var n := |ls[0].boxes|;
    assert bs[n..] == Seqs.Concat(LineBoxes(ls[1..]));
  }

  /** Two greedy breakings of the same boxes agree on the first line's
      length: a longer first line would have admitted the box the shorter
      one turned away. */
  lemma FirstLineNotLonger(ls1: seq<Line>, ls2: seq<Line>, bs: seq<HBox>, lineWidth: real)
    requires Greedy(ls1, bs, lineWidth) && Greedy(ls2, bs, lineWidth) && |ls1| > 0 && |ls2| > 0
    ensures |ls1[0].boxes| <= |ls2[0].boxes|
  {
    var n1, n2 := |ls1[0].boxes|, |ls2[0].boxes|;
    GreedyTail(ls1, bs, lineWidth);
    GreedyTail(ls2, bs, lineWidth);
    if n2 < n1 {
      NextLineStart(ls2, bs, lineWidth);
      TurnedAway(ls1[0], ls2[0], bs, lineWidth);
      assert false;
    }
  }

  /** When a greedy breaking's first line leaves boxes over, a second line
      starts with the first of them. */
  lemma NextLineStart(ls: seq<Line>, bs: seq<HBox>, lineWidth: real)
    requires Greedy(ls, bs, lineWidth) && |ls| > 0 && |ls[0].boxes| < |bs|
    ensures |ls| > 1 && ls[1].boxes[0] == bs[|ls[0].boxes|]
    ensures ls[0].width + bs[|ls[0].boxes|].width > lineWidth
  {
    var n := |ls[0].boxes|;
    GreedyTail(ls, bs, lineWidth);
    var rest := ls[1..];
    ConcatLength(rest, lineWidth);
    assert |Seqs.Concat(LineBoxes(rest))| == |bs| - n > 0;
    GreedyTail(rest, bs[n..], lineWidth);
  }

  /** A good line that is a longer prefix of the boxes than another admits
      the box just past the shorter one. */
  lemma TurnedAway(l1: Line, l2: Line, bs: seq<HBox>, lineWidth: real)
    requires GoodLine(l1, lineWidth) && GoodLine(l2, lineWidth)
    requires |l2.boxes| < |l1.boxes| <= |bs|
    requires bs[..|l1.boxes|] == l1.boxes && bs[..|l2.boxes|] == l2.boxes
    ensures l2.width + bs[|l2.boxes|].width <= lineWidth
  {
    var n2 := |l2.boxes|;
    assert l1.boxes[..n2 + 1] == l2.boxes + [bs[n2]];
    TotalWidthSnoc(l2.boxes, bs[n2]);
  }

  /** Two greedy breakings of the same boxes start with the same line,
      and the rest of each is a greedy breaking of the boxes after it. */
  lemma SameFirstLine(ls1: seq<Line>, ls2: seq<Line>, bs: seq<HBox>, lineWidth: real)
    requires Greedy(ls1, bs, lineWidth) && Greedy(ls2, bs, lineWidth) && |ls1| > 0 && |ls2| > 0
    ensures ls1[0] == ls2[0] && 0 < |ls1[0].boxes| <= |bs|
    ensures Greedy(ls1[1..], bs[|ls1[0].boxes|..], lineWidth)
    ensures Greedy(ls2[1..], bs[|ls1[0].boxes|..], lineWidth)
  {
    FirstLineNotLonger(ls1, ls2, bs, lineWidth);
    FirstLineNotLonger(ls2, ls1, bs, lineWidth);
    GreedyTail(ls1, bs, lineWidth);
    GreedyTail(ls2, bs, lineWidth);
  }

  /** A greedy breaking has no line exactly when there are no boxes. */
  lemma GreedyEmpty(ls: seq<Line>, bs: seq<HBox>, lineWidth: real)
    requires Greedy(ls, bs, lineWidth)
    ensures |ls| == 0 <==> |bs| == 0
  {
    ConcatLength(ls, lineWidth);
  }

  /** The greedy breaking is unique: the conditions of `Greedy` determine
      the lines. */
  lemma {:induction false} GreedyUnique(ls1: seq<Line>, ls2: seq<Line>, bs: seq<HBox>, lineWidth: real)
    requires Greedy(ls1, bs, lineWidth) && Greedy(ls2, bs, lineWidth)
    ensures ls1 == ls2
    decreases |bs|
  {
    GreedyEmpty(ls1, bs, lineWidth);
    GreedyEmpty(ls2, bs, lineWidth);
    if |bs| > 0 {
      SameFirstLine(ls1, ls2, bs, lineWidth);
      GreedyUnique(ls1[1..], ls2[1..], bs[|ls1[0].boxes|..], lineWidth);
      assert ls1 == [ls1[0]] + ls1[1..];
      assert ls2 == [ls2[0]] + ls2[1..];
    }
  }

  /** So `BreakLines` is the one greedy breaking. */
  lemma BreakLinesUnique(ls: seq<Line>, bs: seq<HBox>, lineWidth: real)
    requires Greedy(ls, bs, lineWidth)
    ensures ls == BreakLines(bs, lineWidth)
  {
    BreakLinesGreedy(bs, lineWidth);
    GreedyUnique(ls, BreakLines(bs, lineWidth), bs, lineWidth);
  }

  /** A line of two or more boxes fits; only a box that does not fit alone
      overflows, and then it is alone on its line. */
  lemma OverflowOnlyAlone(l: Line, lineWidth: real)
    requires GoodLine(l, lineWidth)
    ensures |l.boxes| >= 2 ==> l.width <= lineWidth
    ensures l.width > lineWidth ==> |l.boxes| == 1
  {
    assert l.boxes[..|l.boxes|] == l.boxes;
  }

  // ---------------------------------------------------------------------
  // Page breaking

  /** The largest `usize`, where the float-to-integer cast saturates. */
  const UsizeMax: int := 18446744073709551615

  /** `(800.0 / line_height).floor() as usize`: the cast saturates, so a
      negative quotient gives 0, an infinite one (`line_height == 0`) gives
      the largest `usize`. */
  function MaxLines(lineHeight: real): (m: nat)
    ensures m <= UsizeMax
  {
    if lineHeight == 0.0 then UsizeMax
    else
      var q := (800.0 / lineHeight).Floor;
      if q < 0 then 0 else if q > UsizeMax then UsizeMax else q
  }

  /** `lines.chunks(m)`: runs of `m` lines, the last one possibly shorter. */
  function Pages(lines: seq<Line>, m: nat): seq<Page>
    requires m >= 1
    decreases |lines|
  {
    if |lines| == 0 then []
    else if |lines| <= m then [Page(lines)]
    else [Page(lines[..m])] + Pages(lines[m..], m)
  }

  /** The lines of each page, in order. */
  function PageLines(ps: seq<Page>): (r: seq<seq<Line>>)
    ensures |r| == |ps|
    ensures forall k :: 0 <= k < |ps| ==> r[k] == ps[k].lines
  {
    seq(|ps|, k requires 0 <= k < |ps| => ps[k].lines)
  }

  /** A page holds at least one line exactly when the line height is at most
      800 and not negative; otherwise the source's `chunks(0)` panics. */
  lemma MaxLinesPositive(lineHeight: real)
    ensures MaxLines(lineHeight) >= 1 <==> 0.0 <= lineHeight <= 800.0
  {
    if 0.0 < lineHeight <= 800.0 {
      QuotientAtLeastOne(lineHeight);
    } else if lineHeight > 800.0 {
      QuotientBelowOne(lineHeight);
    } else if lineHeight < 0.0 {
      QuotientNegative(lineHeight);
    }
  }

  lemma QuotientAtLeastOne(lineHeight: real)
    requires 0.0 < lineHeight <= 800.0
    ensures 800.0 / lineHeight >= 1.0
  {
    var q := 800.0 / lineHeight;
    assert q * lineHeight == 800.0;
  }

  lemma QuotientBelowOne(lineHeight: real)
    requires lineHeight > 800.0
    ensures 0.0 <= 800.0 / lineHeight < 1.0
  {
    var q := 800.0 / lineHeight;
    assert q * lineHeight == 800.0;
  }

  lemma QuotientNegative(lineHeight: real)
    requires lineHeight < 0.0
    ensures 800.0 / lineHeight < 0.0
  {
    var q := 800.0 / lineHeight;
    assert q * lineHeight == 800.0;
  }

  /** One page off the front. */
  lemma PagesStep(lines: seq<Line>, m: nat)
    requires m >= 1 && |lines| > 0
    ensures var n := if m <= |lines| then m else |lines|;
            Pages(lines, m) == [Page(lines[..n])] + Pages(lines[n..], m)
  {
    if |lines| <= m {
      assert lines[..|lines|] == lines;
      assert lines[|lines|..] == [];
    }
  }

  /** The pages hold the lines, in order. */
  lemma {:induction false} PagesConcat(lines: seq<Line>, m: nat)
    requires m >= 1
    ensures Seqs.Concat(PageLines(Pages(lines, m))) == lines
    decreases |lines|
  {
    if |lines| > 0 {
      var n := if m <= |lines| then m else |lines|;
      PagesStep(lines, m);
      PagesConcat(lines[n..], m);
      assert PageLines(Pages(lines, m)) == [lines[..n]] + PageLines(Pages(lines[n..], m));
      Seqs.ConcatCons(lines[..n], PageLines(Pages(lines[n..], m)));
      assert lines == lines[..n] + lines[n..];
    }
  }

  /** Every page but the last holds `m` lines, the last between 1 and
      `m`. */
  lemma {:induction false} PagesSizes(lines: seq<Line>, m: nat)
    requires m >= 1
    ensures forall k :: 0 <= k < |Pages(lines, m)| - 1 ==> |Pages(lines, m)[k].lines| == m
    ensures |Pages(lines, m)| > 0 ==> 1 <= |Pages(lines, m)[|Pages(lines, m)| - 1].lines| <= m
    decreases |lines|
  {
    if |lines| > m {
      var ps, rest := Pages(lines, m), Pages(lines[m..], m);
      PagesSizes(lines[m..], m);
      assert ps == [Page(lines[..m])] + rest;
      forall k | 0 <= k < |ps| - 1 ensures |ps[k].lines| == m {
        if k > 0 {
          assert ps[k] == rest[k - 1];
        }
      }
      assert ps[|ps| - 1] == rest[|rest| - 1];
    }
  }

  /** There are as many pages as `m`-line runs, rounded up: the pages but
      the last hold fewer lines than there are, all of them hold at least
      as many. */
  lemma {:induction false} PagesCount(lines: seq<Line>, m: nat)
    requires m >= 1
    ensures (|Pages(lines, m)| - 1) * m < |lines| <= |Pages(lines, m)| * m
    ensures |lines| == 0 <==> |Pages(lines, m)| == 0
    decreases |lines|
  {
    if |lines| > m {
      var rest := Pages(lines[m..], m);
      PagesCount(lines[m..], m);
      assert |Pages(lines, m)| == |rest| + 1;
      assert (|rest| + 1) * m == |rest| * m + m;
    }
  }

  // ---------------------------------------------------------------------
  // `layout`

  /** The pages `layout` returns. */
  function LayoutPages(ast: Node, lineWidth: real, lineHeight: real, charWidth: real, spaceWidth: real): seq<Page>
    requires MaxLines(lineHeight) >= 1
  {
    Pages(BreakLines(Boxes(ast, charWidth, spaceWidth), lineWidth), MaxLines(lineHeight))
  }

  /** `layout`: flatten, break into lines, cut into pages. The source panics
      in `chunks` when a page could hold no line; that input is excluded. */
  method Layout(ast: Node, lineWidth: real, lineHeight: real, charWidth: real, spaceWidth: real)
    returns (pages: seq<Page>)
    requires MaxLines(lineHeight) >= 1
    ensures pages == LayoutPages(ast, lineWidth, lineHeight, charWidth, spaceWidth)
  {
    var hboxes := FlattenAst(ast, [], charWidth, spaceWidth);
    assert hboxes == Boxes(ast, charWidth, spaceWidth);
    var lines := BreakIntoLines(hboxes, lineWidth);
    var maxLines := MaxLines(lineHeight);
    pages := ChunkPages(lines, maxLines);
  }

  /** The greedy breaker loop of `layout`. */
  method BreakIntoLines(hboxes: seq<HBox>, lineWidth: real) returns (lines: seq<Line>)
    ensures lines == BreakLines(hboxes, lineWidth)
  {
    lines := [];
    var curr: seq<HBox> := [];
    var w: real := 0.0;
    for i := 0 to |hboxes|
      invariant Breaker(lines, curr, w) == FeedAll(hboxes[..i], lineWidth)
    {
      var hb := hboxes[i];
      assert hboxes[..i + 1][..i] == hboxes[..i];
      if w + hb.width > lineWidth && |curr| > 0 {
        lines := lines + [Line(curr, w)];
        curr := [];
        w := 0.0;
      }
      w := w + hb.width;
      curr := curr + [hb];
    }
    assert hboxes[..|hboxes|] == hboxes;
    if |curr| > 0 {
      lines := lines + [Line(curr, w)];
    }
  }

  /** The page loop of `layout`: one page per chunk of `maxLines` lines. */
  method ChunkPages(lines: seq<Line>, maxLines: nat) returns (pages: seq<Page>)
    requires maxLines >= 1
    ensures pages == Pages(lines, maxLines)
  {
    pages := [];
    var start := 0;
    while start < |lines|
      invariant 0 <= start <= |lines|
      invariant pages + Pages(lines[start..], maxLines) == Pages(lines, maxLines)
      decreases |lines| - start
    {
      var end := if start + maxLines <= |lines| then start + maxLines else |lines|;
      PagesStep(lines[start..], maxLines);
      assert lines[start..][..end - start] == lines[start..end];
      assert lines[start..][end - start..] == lines[end..];
      pages := pages + [Page(lines[start..end])];
      start := end;
    }
    assert lines[|lines|..] == [];
  }

  // ---------------------------------------------------------------------
  // Examples

  lemma WordEndIs(s: string, i: nat, e: nat)
    requires i <= e <= |s|
    requires forall m :: i <= m < e ==> !Lexer.IsSpace(s[m])
    requires e == |s| || Lexer.IsSpace(s[e])
    ensures WordEnd(s, i) == e
    decreases e - i
  {
    if i < e {
      WordEndIs(s, i + 1, e);
    }
  }

  /** A word of the text, then the words after it. */
  lemma WordsTake(s: string, i: nat, e: nat)
    requires i < e <= |s|
    requires forall m :: i <= m < e ==> !Lexer.IsSpace(s[m])
    requires e == |s| || Lexer.IsSpace(s[e])
    ensures WordsFrom(s, i) == [s[i..e]] + WordsFrom(s, e)
  {
    WordEndIs(s, i, e);
  }

  lemma HelloWorldWords(s: string)
    requires s == "Hello world"
    ensures Words(s) == ["Hello", "world"]
  {
    assert WordsFrom(s, 11) == [];
    WordsTake(s, 6, 11);
    assert s[6..11] == "world";
    assert WordsFrom(s, 5) == WordsFrom(s, 6);
    WordsTake(s, 0, 5);
    assert s[0..5] == "Hello";
  }

  /** With widths that are not negative, no prefix is wider than the
      whole. */
  lemma {:induction false} PrefixNotWider(bs: seq<HBox>, j: nat)
    requires j <= |bs| && forall k :: 0 <= k < |bs| ==> bs[k].width >= 0.0
    ensures TotalWidth(bs[..j]) <= TotalWidth(bs)
  {
    if j < |bs| {
      var init := bs[..|bs| - 1];
      PrefixNotWider(init, j);
      assert init[..j] == bs[..j];
    } else {
      assert bs[..j] == bs;
    }
  }

  /** Boxes of widths that are not negative and that fit together admit
      every box after the first. */
  lemma FitsAdmitted(bs: seq<HBox>, lineWidth: real)
    requires forall k :: 0 <= k < |bs| ==> bs[k].width >= 0.0
    requires TotalWidth(bs) <= lineWidth
    ensures Admitted(bs, lineWidth)
  {
    forall j | 2 <= j <= |bs| ensures TotalWidth(bs[..j]) <= lineWidth {
      PrefixNotWider(bs, j);
    }
  }

  /** Admitted boxes on one line are a greedy breaking. */
  lemma OneLineGreedy(bs: seq<HBox>, lineWidth: real)
    requires |bs| > 0 && Admitted(bs, lineWidth)
    ensures Greedy([Line(bs, TotalWidth(bs))], bs, lineWidth)
  {
    var l := Line(bs, TotalWidth(bs));
    calc {
      Seqs.Concat(LineBoxes([l]));
    == { assert LineBoxes([l]) == [bs]; }
      Seqs.Concat([bs]);
    == { assert [bs][..0] == []; }
      bs;
    }
    assert GoodLine(l, lineWidth);
  }

  /** Boxes of widths that are not negative and that fit together make a
      single line. */
  lemma AllFitOneLine(bs: seq<HBox>, lineWidth: real)
    requires |bs| > 0 && forall k :: 0 <= k < |bs| ==> bs[k].width >= 0.0
    requires TotalWidth(bs) <= lineWidth
    ensures BreakLines(bs, lineWidth) == [Line(bs, TotalWidth(bs))]
  {
    FitsAdmitted(bs, lineWidth);
    OneLineGreedy(bs, lineWidth);
    BreakLinesUnique([Line(bs, TotalWidth(bs))], bs, lineWidth);
  }

  /** The width of three boxes is the sum of theirs. */
  lemma TotalWidthThree(a: HBox, b: HBox, c: HBox)
    ensures TotalWidth([a, b, c]) == a.width + b.width + c.width
  {
    calc {
      TotalWidth([a, b, c]);
    == { assert [a, b, c][..2] == [a, b]; }
      TotalWidth([a, b]) + c.width;
    == { assert [a, b][..1] == [a]; }
      TotalWidth([a]) + b.width + c.width;
    == { assert [a][..0] == []; }
      a.width + b.width + c.width;
    }
  }

  /** The width of five boxes is the sum of theirs. */
  lemma TotalWidthFive(a: HBox, b: HBox, c: HBox, d: HBox, e: HBox)
    ensures TotalWidth([a, b, c, d, e]) == a.width + b.width + c.width + d.width + e.width
  {
    calc {
      TotalWidth([a, b, c, d, e]);
    == { assert [a, b, c, d, e][..4] == [a, b, c, d]; }
      TotalWidth([a, b, c, d]) + e.width;
    == { assert [a, b, c, d][..3] == [a, b, c]; }
      TotalWidth([a, b, c]) + d.width + e.width;
    == { TotalWidthThree(a, b, c); }
      a.width + b.width + c.width + d.width + e.width;
    }
  }

  /** Boxes that fit on one line make one page holding that line. */
  lemma OneLinePage(bs: seq<HBox>, lineWidth: real, m: nat)
    requires |bs| > 0 && forall k :: 0 <= k < |bs| ==> bs[k].width >= 0.0
    requires TotalWidth(bs) <= lineWidth && m >= 1
    ensures Pages(BreakLines(bs, lineWidth), m) == [Page([Line(bs, TotalWidth(bs))])]
  {
    AllFitOneLine(bs, lineWidth);
  }

  /** The boxes of "Hello world": the two runs with glue between them. */
  lemma HelloWorldBoxes(s: string)
    requires s == "Hello world"
    ensures Boxes(Seq([Text(s)]), 6.0, 6.0)
         == [RunBox("Hello", Normal, 6.0), GlueBox(6.0), RunBox("world", Normal, 6.0)]
  {
    HelloWorldWords(s);
    var hello, world := RunBox("Hello", Normal, 6.0), RunBox("world", Normal, 6.0);
    var glue := GlueBox(6.0);
    assert WordBoxes(s, Normal, 6.0, 6.0) == [hello, glue, world] by {
      assert RunParts(["Hello", "world"], Normal, 6.0) == [[hello], [world]];
      Seqs.IntercalateSnoc([[hello]], [world], glue);
      assert [[hello], [world]] == [[hello]] + [[world]];
    }
    assert BoxesAll([Text(s)], 6.0, 6.0) == [[hello, glue, world]];
  }

  /** "Hello world" at width 100 with 6-unit characters and spaces: one
      page whose one line holds "Hello", glue and "world". */
  lemma LayoutSimpleExample(s: string)
    requires s == "Hello world"
    ensures var pages := LayoutPages(Seq([Text(s)]), 100.0, 20.0, 6.0, 6.0);
            |pages| == 1 && |pages[0].lines| == 1 && |pages[0].lines[0].boxes| == 3
  {
    HelloWorldBoxes(s);
    var hello, world := RunBox("Hello", Normal, 6.0), RunBox("world", Normal, 6.0);
    var glue := GlueBox(6.0);
    TotalWidthThree(hello, glue, world);
    assert MaxLines(20.0) == 40;
    OneLinePage([hello, glue, world], 100.0, 40);
  }

  /** A text of one word, plain or styled, lays out as that word's run box
      alone. */
  lemma OneWordAlone(n: Node, w: string, style: TextStyle, lineWidth: real, m: nat, charWidth: real, spaceWidth: real)
    requires IsWord(w) && m >= 1
    requires n == StyledText(w, style) || (n == Text(w) && style == Normal)
    ensures Pages(BreakLines(Boxes(Seq([n]), charWidth, spaceWidth), lineWidth), m)
         == [Page([Line([RunBox(w, style, charWidth)], |w| as real * charWidth)])]
  {
    var b := RunBox(w, style, charWidth);
    assert Boxes(Seq([n]), charWidth, spaceWidth) == [b] by {
      assert WordBoxes(w, style, charWidth, spaceWidth) == [b] by {
        WordsOfWord(w);
        assert RunParts(Words(w), style, charWidth) == [[b]];
      }
      assert BoxesAll([n], charWidth, spaceWidth) == [[b]];
    }
    assert BreakLines([b], lineWidth) == [Line([b], b.width)] by {
      assert FeedAll([b], lineWidth) == Breaker([], [b], 0.0 + b.width) by {
        assert [b][..0] == [];
      }
      assert [] + [Line([b], b.width)] == [Line([b], b.width)];
    }
  }

  /** A word wider than the line is still laid out, alone on its line. */
  lemma LayoutLongWordExample(s: string)
    requires s == "ThisIsAVeryLongWordWithoutSpaces"
    ensures var pages := LayoutPages(Seq([Text(s)]), 50.0, 20.0, 6.0, 6.0);
            |pages| == 1 && |pages[0].lines| == 1 && |pages[0].lines[0].boxes| == 1 &&
            pages[0].lines[0].width == 192.0
  {
    assert IsWord(s);
    assert MaxLines(20.0) == 40;
    OneWordAlone(Text(s), s, Normal, 50.0, 40, 6.0, 6.0);
  }

  lemma BoldAndNormalWords(s: string, t: string)
    requires s == "Bold" && t == "and normal"
    ensures Words(s) == ["Bold"] && Words(t) == ["and", "normal"]
  {
    assert IsWord(s);
    WordsOfWord(s);
    assert WordsFrom(t, 10) == [];
    WordsTake(t, 4, 10);
    assert t[4..10] == "normal";
    assert WordsFrom(t, 3) == WordsFrom(t, 4);
    WordsTake(t, 0, 3);
    assert t[0..3] == "and";
  }

  /** The boxes of a bold word then "and normal": the bold run, glue, and
      the two normal runs with glue between them. */
  lemma StyledBoxes(s: string, t: string)
    requires s == "Bold" && t == "and normal"
    ensures Boxes(Seq([StyledText(s, Bold), Text(t)]), 6.0, 6.0)
         == [RunBox("Bold", Bold, 6.0), GlueBox(6.0), RunBox("and", Normal, 6.0), GlueBox(6.0), RunBox("normal", Normal, 6.0)]
  {
    BoldAndNormalWords(s, t);
    var bold, and, normal := RunBox("Bold", Bold, 6.0), RunBox("and", Normal, 6.0), RunBox("normal", Normal, 6.0);
    var glue := GlueBox(6.0);
    assert WordBoxes(s, Bold, 6.0, 6.0) == [bold] by {
      assert RunParts(["Bold"], Bold, 6.0) == [[bold]];
    }
    assert WordBoxes(t, Normal, 6.0, 6.0) == [and, glue, normal] by {
      assert RunParts(["and", "normal"], Normal, 6.0) == [[and], [normal]];
      Seqs.IntercalateSnoc([[and]], [normal], glue);
      assert [[and], [normal]] == [[and]] + [[normal]];
    }
    var cs := [StyledText(s, Bold), Text(t)];
    assert BoxesAll(cs, 6.0, 6.0) == [[bold], [and, glue, normal]];
    Seqs.IntercalateSnoc([[bold]], [and, glue, normal], glue);
    assert [[bold], [and, glue, normal]] == [[bold]] + [[and, glue, normal]];
  }

  /** A bold word then "and normal" at width 100: five boxes on the first
      line, the first one bold. */
  lemma LayoutStyledExample(s: string, t: string)
    requires s == "Bold" && t == "and normal"
    ensures var pages := LayoutPages(Seq([StyledText(s, Bold), Text(t)]), 100.0, 20.0, 6.0, 6.0);
            |pages| == 1 && |pages[0].lines| == 1 && |pages[0].lines[0].boxes| == 5 &&
            pages[0].lines[0].boxes[0].items == [Run(StyledRun("Bold", Bold))]
  {
    StyledBoxes(s, t);
    var bold, and, normal := RunBox("Bold", Bold, 6.0), RunBox("and", Normal, 6.0), RunBox("normal", Normal, 6.0);
    var glue := GlueBox(6.0);
    TotalWidthFive(bold, glue, and, glue, normal);
    assert MaxLines(20.0) == 40;
    OneLinePage([bold, glue, and, glue, normal], 100.0, 40);
  }
}
