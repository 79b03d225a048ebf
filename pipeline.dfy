/** The compiler front end (src/lib.rs, `compile`): parse the source text,
    expand its macros, then lay the expanded tree out in points on an A4
    page with 10 mm margins and a 12 pt font. A parse error is the only
    failure; the PDF back end that turns the pages into bytes is not part
    of this model. */
module Pipeline {
  import opened Ast
  import Lexer
  import Parser
  import Expand
  import Layout

  // ---------------------------------------------------------------------
  // The page geometry of `compile`

  /** Usable width: 210 mm less two 10 mm margins, at 72 pt per 25.4 mm. */
  const LineWidthPt: real := (210.0 - 2.0 * 10.0) * (72.0 / 25.4)

  /** A 12 pt font with 1.2 leading. */
  const LineHeightPt: real := 12.0 * 1.2

  /** Half the font size per character, and a space as wide as a
      character. */
  const CharWidthPt: real := 12.0 * 0.5
  const SpaceWidthPt: real := CharWidthPt

  /** At 14.4 pt per line a page holds 55 lines, so the layout's page
      chunking never receives a zero size. */
  lemma MaxLinesAtCompileGeometry()
    ensures Layout.MaxLines(LineHeightPt) == 55
  {
    var q := 800.0 / LineHeightPt;
    assert q * 14.4 == 800.0;
    assert 55.0 <= q < 56.0;
  }

  // ---------------------------------------------------------------------
  // The pipeline

  /** What `compile` produces before rendering: the pages of the expanded
      tree, or the parser's error. */
  function Compiled(input: string): Parser.Result<seq<Layout.Page>>
  {
    match Parser.ParseSource(input)
    case Err(e) => Parser.Err(e)
    case Ok(ast) =>
      Parser.Ok(Layout.LayoutPages(Expand.Expand(ast), LineWidthPt, LineHeightPt, CharWidthPt, SpaceWidthPt))
  }

  /** `compile`: the parser, the expander and the layout engine in turn, a
      parse error returned as it is. */
  method Compile(input: string) returns (r: Parser.Result<seq<Layout.Page>>)
    ensures r == Compiled(input)
  {
    var parsed := Parser.Parse(input);
    if parsed.Err? {
      return Parser.Err(parsed.error);
    }
    var expanded := Expand.ExpandMacros(parsed.value);
    MaxLinesAtCompileGeometry();
    var pages := Layout.Layout(expanded, LineWidthPt, LineHeightPt, CharWidthPt, SpaceWidthPt);
    return Parser.Ok(pages);
  }

  // ---------------------------------------------------------------------
  // Properties

  /** A parsed tree never gives a styling command more than one argument,
      so it meets the condition under which expansion is idempotent. */
  lemma {:induction false} ParserShapedStyleArgsOk(n: Node)
    requires Parser.ParserShaped(n)
    ensures Expand.StyleArgsOk(n)
  {
    match n
    case Text(_) =>
    case StyledText(_, _) =>
    case Macro(_, args) =>
      forall i | 0 <= i < |args| ensures Expand.StyleArgsOk(args[i]) {
        ParserShapedStyleArgsOk(args[i]);
      }
    case Seq(cs) =>
      forall i | 0 <= i < |cs| ensures Expand.StyleArgsOk(cs[i]) {
        ParserShapedStyleArgsOk(cs[i]);
      }
  }

  /** Expanding a parsed tree twice is expanding it once, and the result
      has no nested sequence and no styling command left to collapse. */
  lemma ExpandParsed(t: Node)
    requires Parser.ParserShaped(t)
    ensures Expand.Expand(Expand.Expand(t)) == Expand.Expand(t) && Expand.Normal(Expand.Expand(t))
  {
    ParserShapedStyleArgsOk(t);
    Expand.ExpandIdempotent(t);
    Expand.ExpandFlat(t);
    Expand.ExpandSettles(t);
  }

  /** So for every source text that parses, the tree handed to the layout
      engine is a fixed point of the expander. */
  lemma ExpandParsedSource(input: string)
    requires Parser.ParseSource(input).Ok?
    ensures var t := Parser.ParseSource(input).value;
            Expand.Expand(Expand.Expand(t)) == Expand.Expand(t) && Expand.Normal(Expand.Expand(t))
  {
    var r := Parser.ParseSource(input);
    ExpandParsed(r.value);
  }

  /** Compilation fails exactly when parsing does, with the parser's error,
      which happens exactly when the tokens hold an `Error` token or their
      braces do not balance. */
  lemma CompileFailsIff(input: string)
    ensures Compiled(input).Err? <==> Parser.ParseSource(input).Err?
    ensures Compiled(input).Err? ==> Compiled(input).error == Parser.ParseSource(input).error
    ensures var toks := Lexer.Kinds(Lexer.Tokens(input));
            Compiled(input).Ok? <==> Parser.Balanced(toks) && Parser.NoErrors(toks)
  {
    Parser.ParseSucceedsIff(Lexer.Kinds(Lexer.Tokens(input)));
  }

  /** One bold word at the compile geometry: one page, one line, one run
      box as wide as its characters. */
  lemma BoldWordLayout(w: string)
    requires w == "Bold"
    ensures Layout.LayoutPages(Seq([StyledText(w, Bold)]), LineWidthPt, LineHeightPt, CharWidthPt, SpaceWidthPt)
         == [Layout.Page([Layout.Line([Layout.RunBox("Bold", Bold, 6.0)], 24.0)])]
  {
    assert Layout.IsWord(w);
    MaxLinesAtCompileGeometry();
    Layout.OneWordAlone(StyledText(w, Bold), w, Bold, LineWidthPt, 55, 6.0, 6.0);
  }

  /** `\textbf{Bold}` compiles to one page holding one line with one bold
      run four characters wide. */
  lemma CompileBoldExample(s: string)
    requires s == "\\textbf{Bold}"
    ensures Compiled(s) == Parser.Ok([Layout.Page([Layout.Line([Layout.RunBox("Bold", Bold, 6.0)], 24.0)])])
  {
    var w := "Bold";
    var tree := Seq([Macro("textbf", [Seq([Text(w)])])]);
    assert Parser.ParseSource(s) == Parser.Ok(tree) by {
      Parser.ParseMacroExample(s);
    }
    assert Expand.Expand(tree) == Seq([StyledText(w, Bold)]) by {
      Expand.ExpandBoldExample(w);
    }
    BoldWordLayout(w);
  }
}
