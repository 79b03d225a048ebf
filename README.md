# latex_rs core pipeline in Dafny

This project models the core of `latex_rs`, a small TeX-like typesetter.
Source text goes through four stages:

1. The **lexer** (`src/lexer.rs`) drops comments and whitespace. It yields text runs, `\commands`, braces and error tokens, each with its span.
2. The **parser** (`src/parser.rs`) is recursive descent. It builds a tree of `Seq`, `Text` and `Macro` nodes.
3. The **macro expander** (`src/expand.rs`) does two things:
   - it splices nested sequences into their parent;
   - it collapses `\textbf{..}` and `\emph{..}` into styled text.
4. The **layout engine** (`src/layout.rs`) turns the tree into pages in three steps:
   - flatten it into word and glue boxes;
   - break the boxes greedily into lines no wider than the line width, unless a single box is wider, which then sits alone on its line;
   - cut the lines into pages of `floor(800 / line_height)` lines each.

`compile` (`src/lib.rs`) chains the four stages at the A4 geometry. That geometry is 190 mm of usable width (about 538.6 pt), 14.4 pt lines, and 6 pt characters and spaces.

Modules follow the source files:

| file | module | models |
|---|---|---|
| `seqs.dfy` | `Seqs` | `join` with a separator (`Intercalate`) and concatenation (`Concat`) of sequences, with their algebra |
| `ast.dfy` | `Ast` | `TextStyle`, `Node` and the three convenience constructors |
| `lexer.dfy` | `Lexer` | the token rules as a scanner function `Next`, the token list `TokensFrom`, and the `lex` loop as method `Lex` |
| `parser.dfy` | `Parser` | the grammar as the mutually recursive functions `ChildrenAt`, `NodeAt` and `GroupAt` (decreasing on remaining tokens, then rank); `parse_sequence`, `parse_node`, `parse_group` and `parse` as methods proved to compute them |
| `expand.dfy` | `Expand` | `collect_plain_text` and `expand_macros` as the functions `CollectPlainText` and `Expand`, since the source builds a fresh tree; `expand_macros` with its loops as method `ExpandMacros`, proved to compute `Expand` |
| `layout.dfy` | `Layout` | the layout structs; `flatten_ast`, the breaker loop and the page loop as methods proved against the functions `Boxes`, `BreakLines` and `Pages` |
| `pipeline.dfy` | `Pipeline` | `compile` up to the pages, and properties of the composed stages |

Each procedure that works step by step in the source is a `method`: the lexer loop, the parser's cursor procedures, the expander's push/extend loops, the flattening loops, the line breaker and the page loop. A loop becomes a `while` or `for` with invariants; the source's recursion stays recursion between methods. Each method's `ensures` ties its result to a pure function of its inputs, and the properties the source promises are lemmas about that function.

What the model proves, in outline:
- **Lexer.** Every token is the one the rules give for exactly the characters under its span. Spans are non-empty, in order and non-overlapping. Every character outside a token is whitespace or lies between a comment start (`%`, or `//` outside every token) and the next newline. A comment yields no token up to the end of its line.
- **Parser.** Parsing succeeds exactly when the tokens hold no `Error` and their braces balance. On failure the error names the cause: an `Error` token, an unclosed `{`, or a surplus `}`. A parsed tree spells its tokens back exactly. Every parsed macro has at most one argument, and that argument is a group. A command takes the group right after it as that argument, so no argument-less macro is directly followed by a group.
- **Expander.** `ExpandMacros` computes `Expand`. The output never has a `Seq` inside a `Seq` or as a macro argument. Splicing keeps exactly the contributed nodes, and the leaves in order. A collapsed `Seq`'s text holds each child's text at a fixed offset, with one space between children. When every styling macro has at most one argument, which holds for parser output:
  - no single-argument styling macro survives;
  - expansion is idempotent.
- **Layout.** The flattening methods compute `Boxes`: one run per word, and glue between words and between siblings. `BreakLines` is the unique greedy line breaking, so:
  - lines hold exactly the boxes in order;
  - each line's width is its boxes' sum;
  - a line of two or more boxes fits;
  - each later line's first box did not fit on the line before it.

  Every page but the last holds exactly `MaxLines` lines, and the pages hold exactly the lines.
- **Pipeline.** `Compile` fails exactly when parsing fails, with the parser's error. The tree handed to layout is a fixed point of the expander.

### Behaviour worth knowing

- **Idempotence.** `expand(expand(t)) == expand(t)` fails for `Macro("textbf", [Seq([]), Text(x)])`:
  - the macro has two arguments, so it is not collapsed;
  - splicing its arguments leaves `Macro("textbf", [Text(x)])`;
  - a second expansion collapses that.

  `Expand.NotIdempotentInGeneral` proves this. `Expand.ExpandIdempotent` proves idempotence under `StyleArgsOk` (at most one argument per styling macro). `Pipeline.ParserShapedStyleArgsOk` shows that every parsed tree meets that condition. For the same tree a single-argument `textbf` survives one expansion; under the same condition none does (`Expand.ExpandSettles`).
- **Collapsed text.** A `Seq`'s texts are joined with one space each, and a nested macro contributes an empty string, which still gets its separators. `Expand.CollectKeepsSeparatorsExample` shows `"a  b"`, with two spaces.
- **Layout totality.** `layout` panics in `lines.chunks(0)` when `800 / line_height` floors to 0, that is, when the line height is above 800 or negative. `Layout.Layout` requires `MaxLines(lineHeight) >= 1`, and `Layout.MaxLinesPositive` states exactly when that holds.

## Model

The headline results are `Lexer.DropsOnlyTrivia`, `Lexer.CommentProducesNoTokens`, `Parser.ParseSucceedsIff`, `Parser.ParseSpellsInput`, `Parser.ParseTakesGroups`, `Expand.ExpandFlat`, `Expand.ExpandIdempotent`, `Expand.ExpandKeepsLeaves`, `Layout.BreakLinesGreedy`, `Layout.BreakLinesUnique`, `Layout.PagesSizes`, `Pipeline.CompileFailsIff` and `Pipeline.ExpandParsedSource`; the other lemmas in each module are the steps toward them.

| member | source | states |
|---|---|---|
| Ast.TextNode | src/ast.rs:19-21 | `Node::text(s)` is the `Text` node holding exactly `s` |
| Ast.MacroNode | src/ast.rs:24-29 | `Node::r#macro(name, args)` is the `Macro` node with exactly that name and those arguments |
| Ast.SeqNode | src/ast.rs:32-34 | `Node::seq(children)` is the `Seq` node holding exactly those children, in order |
| Lexer.RunEnd | src/lexer.rs:21-32 | the regex runs `[a-zA-Z]+`, `\s+`, `[^\\{}\s%]+` and `[^\n]*` are maximal: every character up to the end is of the class and the next one is not |
| Lexer.Next | src/lexer.rs:9-37 | the token found from a position lies at or after it and has a non-empty span inside the input |
| Lexer.TokensFrom | src/lexer.rs:44-52 | the tokens come out in source order: spans inside the input, non-empty, and each ending before the next starts |
| Lexer.Lex | src/lexer.rs:44-52 | the `while let` loop pushes exactly the scanner's token list |
| Lexer.NextDenotes | src/lexer.rs:9-37 | a token the scanner returns is the one the rules give for its span: text is a maximal run of text characters not starting a comment; a command is `\` plus a maximal letter run without the backslash; a brace is one character; an error is a `\` not followed by a letter |
| Lexer.TokensDenote | src/lexer.rs:44-52 | every token of the input satisfies the rules for its span |
| Lexer.SpanChars | src/lexer.rs:21-37 | no character under a token's span is whitespace or `%` |
| Lexer.NextSkipsTrivia | src/lexer.rs:9-29 | everything the scanner skips before the next token, or before the end, is whitespace or lies between a comment start it skipped and the next newline |
| Lexer.NextCommentToLineEnd | src/lexer.rs:9-28 | every comment start (`%` or `//`) skipped before the next token has a newline after it before that token |
| Lexer.CoverageFrom | src/lexer.rs:9-37 | every character from a position on is under a token, or is whitespace, or lies between a comment start that no token covers and the next newline |
| Lexer.CommentToLineEndFrom | src/lexer.rs:9-28 | for every token from a position on, every comment start before it that no token covers closes with a newline before the token starts |
| Lexer.TokensAvoidTrivia | src/lexer.rs:24-32 | no token of the input covers whitespace or `%` |
| Lexer.CommentProducesNoTokens | src/lexer.rs:9-28 | a comment (`%`, or `//` outside every token) yields no token up to the end of its line: any token after it starts past a newline that follows it; no token ever covers a `%` |
| Lexer.DropsOnlyTrivia | src/lexer.rs:9-37 | the lexer drops only whitespace and comments: every other character is under some token or lies between a comment start under no token and the next newline |
| Lexer.RunEndIs | src/lexer.rs:21-32 | a maximal run is determined by its class and start |
| Lexer.NextText | src/lexer.rs:32 | at a text character outside a comment, the next token is `Text` of the maximal text run |
| Lexer.NextSpace | src/lexer.rs:25 | a run of whitespace is skipped: the next token is the one after it |
| Lexer.NextComment | src/lexer.rs:9 | a comment up to the end of its line is skipped: the next token is the one after it |
| Lexer.NextCommand | src/lexer.rs:21 | `\` and a maximal run of letters is `Command` of the letters, without the backslash |
| Lexer.LexTextExample | src/lexer.rs:63-66 | `Hello` lexes to `[Text Hello]` |
| Lexer.LexCommandExample | src/lexer.rs:68-71 | `\textbf` lexes to `[Command textbf]` |
| Lexer.LexBracesExample | src/lexer.rs:73-76 | `{ }` lexes to `[LBrace, RBrace]`: the space yields nothing |
| Lexer.LexMixedExample | src/lexer.rs:78-90 | `\emph{Word} and text` lexes to the six tokens of the source's test |
| Lexer.LexCommentExample | src/lexer.rs:92-99 | `Text % comment\nMore` lexes to `[Text Text, Text More]` |
| Lexer.LexErrorExample | src/lexer.rs:35-37 | `\{x}` lexes to `[Error, LBrace, Text x, RBrace]`: a `\` without a letter is an error token and lexing goes on |
| Lexer.LexGroupExample | src/lexer.rs:9-37 | `{Hi there}` lexes to `[LBrace, Text Hi, Text there, RBrace]` |
| Lexer.LexMacroGroupExample | src/lexer.rs:9-37 | `\textbf{Bold}` lexes to `[Command textbf, LBrace, Text Bold, RBrace]` |
| Lexer.LexUnclosedExample | src/lexer.rs:9-37 | `{A` lexes to `[LBrace, Text A]` |
| Lexer.LexTrailingExample | src/lexer.rs:9-37 | `a}` lexes to `[Text a, RBrace]` |
| Parser.ChildrenAt | src/parser.rs:17-30 | `parse_sequence` stops at a position between its start and the end, which is the end or a `}`; its children are parser-shaped; it never reports trailing tokens |
| Parser.NodeAt | src/parser.rs:32-60 | a parsed node consumes at least one token and is parser-shaped (no `StyledText`, at most one argument per macro, that argument a group) |
| Parser.GroupAt | src/parser.rs:62-75 | a parsed group starts at a `{`, ends one past a `}`, and is a `Seq` |
| Parser.ChildrenStep | src/parser.rs:19-27 | one turn of the `parse_sequence` loop moves the parsed node onto the children found |
| Parser.ParseTokens | src/parser.rs:9-14 | `parse` succeeds exactly when the top-level sequence reaches the end of the tokens; the result is a parser-shaped `Seq`; a trailing-tokens error points at a `}` |
| Parser.ParseSequence | src/parser.rs:17-30 | the loop over `pos` and `children` computes `ChildrenAt`, wrapped in a `Seq` |
| Parser.ParseNode | src/parser.rs:32-60 | `parse_node`, with its `args`/`cur` updates, computes `NodeAt` |
| Parser.ParseGroup | src/parser.rs:62-75 | `parse_group` computes `GroupAt` |
| Parser.Parse | src/parser.rs:4-15 | `parse` lexes, keeps the token kinds and computes `ParseTokens` on them |
| Parser.NetAppend | src/parser.rs:17-75 | the brace count of a concatenation is the sum of the counts |
| Parser.BalancedAppend | src/parser.rs:17-30 | sibling runs with balanced braces are balanced together |
| Parser.BalancedWrap | src/parser.rs:62-75 | a balanced run between `{` and `}` is balanced |
| Parser.BalancedSingle | src/parser.rs:38-39 | a text or command token alone is balanced |
| Parser.GroupSliceFacts | src/parser.rs:62-75 | a group whose inside is balanced and error-free is itself balanced and error-free |
| Parser.ChildrenFacts | src/parser.rs:17-30 | a successful sequence covers a balanced, error-free run of tokens; a failure is explained by an `Error` token or an unclosed `{` |
| Parser.NodeFacts | src/parser.rs:32-60 | the same for a node |
| Parser.GroupFacts | src/parser.rs:62-75 | the same for a group |
| Parser.ParseSucceedsIff | src/parser.rs:4-75 | `parse` succeeds if and only if the tokens hold no `Error` token and their braces balance |
| Parser.ChildrenSpell | src/parser.rs:17-30 | the children a sequence parses spell back exactly the tokens it consumed |
| Parser.NodeSpell | src/parser.rs:32-60 | a parsed node spells back exactly the tokens it consumed: text is one token; a macro is its command and its group |
| Parser.GroupSpell | src/parser.rs:62-75 | a parsed group spells back its braces and its inside |
| Parser.WrapSpell | src/parser.rs:68-71 | a `Seq` around children spelling a run spells that run between its braces |
| Parser.ParseSpellsInput | src/parser.rs:4-15 | a successful parse loses no token: its tree spells back the whole token list |
| Parser.CommandArgument | src/parser.rs:39-56 | a command parses to a macro of its name; it has one argument exactly when a `{` follows it, and that argument is the group parsed there, else it has none and consumes only its own token |
| Parser.ChildrenTakeGroups | src/parser.rs:17-30 | in the children a sequence parses, no argument-less macro is directly followed by a group, and the same holds inside every child; a first child that is a group starts at a `{` |
| Parser.NodeTakesGroups | src/parser.rs:32-60 | the same holds inside a parsed node; an argument-less macro comes from a command token |
| Parser.GroupTakesGroups | src/parser.rs:62-75 | the same holds inside a parsed group |
| Parser.ParseTakesGroups | src/parser.rs:4-15 | in every sequence of a parsed tree, each group that follows a command is that command's argument: no `Macro(name, [])` is followed directly by a `Seq` sibling |
| Parser.ParseTextExample | src/parser.rs:84-88 | `Hello` parses to `Seq[Text Hello]` |
| Parser.ParseGroupExample | src/parser.rs:90-100 | `{Hi there}` parses to `Seq[Seq[Text Hi, Text there]]` |
| Parser.ParseMacroExample | src/parser.rs:102-112 | `\textbf{Bold}` parses to `Seq[Macro textbf [Seq[Text Bold]]]` |
| Parser.ParseErrorTokenExample | src/parser.rs:58 | `\{x}` fails with an unexpected token at position 0 |
| Parser.ParseUnclosedExample | src/parser.rs:70-74 | the source text `{A` fails with the `{` at 0 unclosed |
| Parser.ParseTrailingExample | src/parser.rs:10-11 | the source text `a}` fails with tokens remaining at position 1 |
| Expand.CollectAll | src/expand.rs:11-15 | the texts of the children, one per child, in order |
| Expand.ExpandAll | src/expand.rs:43 | every argument expanded, one for one, in order |
| Expand.ExpandMacros | src/expand.rs:21-75 | `expand_macros`, with its `flat` and `expanded` vectors, computes `Expand` |
| Expand.ExpandChildren | src/expand.rs:24-33 | the `Seq` loop expands each child and pushes it, or extends by its children when it is a `Seq`: it computes the splice of the expanded children |
| Expand.ExpandArgs | src/expand.rs:43 | the `map` over the arguments computes each argument expanded, in order |
| Expand.SpliceArgs | src/expand.rs:58-63 | the argument loop computes the splice of the expanded arguments |
| Expand.SpliceFlat | src/expand.rs:24-33 | splicing flat nodes gives flat nodes none of which is a `Seq` |
| Expand.SpliceSettled | src/expand.rs:24-33 | splicing keeps every node settled |
| Expand.SpliceNoSeq | src/expand.rs:28-31 | splicing a list without a `Seq` leaves it unchanged |
| Expand.SpliceMembers | src/expand.rs:24-33 | a node is in the spliced list exactly when it is a child of an input `Seq` or an input node that is not a `Seq` |
| Expand.SpliceAppend | src/expand.rs:26-32 | splicing distributes over concatenation |
| Expand.SpliceKeepsLeaves | src/expand.rs:24-33 | splicing keeps the leaf texts in order |
| Expand.LeavesAppend | src/expand.rs:24-33 | the leaves of a concatenation are the concatenated leaves |
| Expand.ExpandKeepsLeaves | src/expand.rs:21-75 | expanding a settled tree keeps its leaf texts in order |
| Expand.ExpandAllKeepsLeaves | src/expand.rs:21-75 | the same for a list of settled trees |
| Expand.ExpandFlat | src/expand.rs:24-33 | for every tree, the output has no `Seq` directly inside a `Seq` and no `Seq` as a macro argument |
| Expand.ExpandAllFlat | src/expand.rs:43 | every expanded argument is flat |
| Expand.ExpandSettles | src/expand.rs:41-69 | when every styling macro has at most one argument, no styling macro with exactly one argument survives |
| Expand.ExpandAllSettles | src/expand.rs:43 | the same for a list |
| Expand.ExpandNormal | src/expand.rs:21-75 | a flat, settled tree is its own expansion; `Text` and `StyledText` are returned unchanged |
| Expand.ExpandAllNormal | src/expand.rs:43 | the same for a list |
| Expand.ExpandIdempotent | src/expand.rs:21-75 | when every styling macro has at most one argument, expanding twice is expanding once |
| Expand.ExpandOtherMacro | src/expand.rs:57-68 | any other macro keeps its name, and the leaf texts of its new arguments are those of its expanded arguments, in order |
| Expand.CollectSeqLength | src/expand.rs:11-15 | the length of a `Seq`'s plain text is the total length of its children's texts plus one for each gap between two children |
| Expand.CollectSeqParts | src/expand.rs:8-18 | in a `Seq`'s plain text, child `k`'s text sits at the offset of the texts before it plus one space for each, and a space follows every child's text but the last |
| Expand.CollectKeepsSeparatorsExample | src/expand.rs:8-18 | a macro child contributes an empty string that still gets its separators: `a`, macro, `b` gives `"a  b"` |
| Expand.NotIdempotentInGeneral | src/expand.rs:47-68 | expansion is not idempotent in general: a two-argument `textbf` becomes a one-argument one, which a second expansion collapses |
| Expand.ExpandSeqOfNormal | src/expand.rs:24-33 | a `Seq` of normal children expands to its children spliced |
| Expand.ExpandFlattensExample | src/expand.rs:82-96 | `Seq[A, Seq[B, C], D]` expands to `Seq[A, B, C, D]` |
| Expand.ExpandRecursesExample | src/expand.rs:98-113 | `cmd` with the argument `Seq[X]` expands to `cmd` with the argument `X` |
| Expand.OtherMacroOfGroup | src/expand.rs:41-68 | a command other than `textbf` and `emph` keeps its name, and a one-text group argument is spliced into that text |
| Expand.BoldGroup | src/expand.rs:47-51 | `textbf` of a group holding one text becomes that text in bold |
| Expand.ExpandBoldExample | src/expand.rs:21-51 | the parsed `\textbf{Bold}` tree expands to `Seq[StyledText Bold Bold]` |
| Layout.WordEnd | src/layout.rs:113 | a word of `split_whitespace` is a maximal run of non-whitespace characters |
| Layout.BoxesAll | src/layout.rs:102-108 | the boxes of each child, one list per child, in order |
| Layout.FlattenAst | src/layout.rs:94-155 | `flatten_ast` appends exactly `Boxes(ast)` to the boxes it is given |
| Layout.FlattenSiblings | src/layout.rs:102-109 | the children loop appends the children's boxes with one glue box between each two |
| Layout.SiblingBoxesAre | src/layout.rs:103-108 | after `i` turns of the children loop, the boxes added are those of the first `i` children joined with glue |
| Layout.SiblingsStep | src/layout.rs:103-108 | one more child adds a glue box (except before the first) and then its boxes |
| Layout.FlattenWords | src/layout.rs:111-144 | the word loop appends one run box per word with glue between words |
| Layout.RunPartsStep | src/layout.rs:113-126 | one more word adds a glue box (except before the first) and then its run |
| Layout.WordsFromAreWords | src/layout.rs:113 | every word is non-empty and holds no whitespace |
| Layout.SqueezeRun | src/layout.rs:113 | a run without whitespace is kept whole when whitespace is removed |
| Layout.WordsFromSqueeze | src/layout.rs:113 | the words found from a position, joined, are the rest of the text without whitespace |
| Layout.WordsSqueeze | src/layout.rs:113 | `split_whitespace` loses only whitespace: its words are whitespace-free and together hold every other character in order |
| Layout.WordEndShift | src/layout.rs:113 | a word's end does not depend on the text before it |
| Layout.WordsFromShift | src/layout.rs:113 | scanning a suffix as part of a longer text finds the same words |
| Layout.WordsFromSpaced | src/layout.rs:113 | texts joined by a space have the words of the first, then those of the second |
| Layout.WordEndPrefix | src/layout.rs:113 | a word ends where it ended in a prefix followed by whitespace |
| Layout.WordsOfWord | src/layout.rs:113 | a non-empty text without whitespace is one word |
| Layout.WordEndRun | src/layout.rs:113 | in a text without whitespace the word runs to the end |
| Layout.WordsJoined | src/layout.rs:113 | words joined with single spaces split back into the same words |
| Layout.WordBoxesShape | src/layout.rs:111-144 | `k` words give `2k - 1` boxes: run `i` at position `2i` holds word `i` with the style and width `len × char_width`, and glue of `space_width` between runs; no word gives no box |
| Layout.SiblingGlue | src/layout.rs:102-108 | the number of boxes of `n` children is the total of their counts plus `n - 1` glue boxes, even when a child gives none |
| Layout.SiblingParts | src/layout.rs:102-108 | in the boxes of a `Seq`, child `k`'s boxes sit at the offset of the boxes before them plus one glue box for each, and a glue box of `space_width` follows every child's boxes but the last |
| Layout.MacroLikeSeq | src/layout.rs:146-153 | a macro lays out as a `Seq` of its arguments; its name is ignored |
| Layout.EmptySiblingsExample | src/layout.rs:102-108 | two macros without arguments still get glue between them |
| Layout.LineBoxesSnoc | src/layout.rs:61-64 | closing a line appends its boxes to the boxes of the closed lines |
| Layout.AdmittedSnoc | src/layout.rs:60-69 | a box let onto a non-empty line keeps every prefix within the width |
| Layout.CloseKeeps | src/layout.rs:60-67 | closing the line before a box that does not fit keeps the breaker invariant |
| Layout.ExtendKeeps | src/layout.rs:68-69 | adding a box to the current line keeps the breaker invariant |
| Layout.FeedKeeps | src/layout.rs:59-70 | each turn of the breaker loop keeps its invariant: closed lines and the current line hold the boxes seen so far, widths are sums, and only a box that did not fit starts a line |
| Layout.FeedAllInv | src/layout.rs:59-70 | the invariant holds after the whole loop |
| Layout.BreakLinesGreedy | src/layout.rs:56-76 | the lines are a greedy breaking of the boxes: they hold exactly the boxes in order, each is non-empty with its width the sum of its boxes, each box after a line's first fitted, and each later line's first box did not fit on the line before; no boxes give no lines |
| Layout.CloseLast | src/layout.rs:71-76 | pushing the last non-empty line completes a greedy breaking |
| Layout.ConcatLength | src/layout.rs:60-73 | non-empty lines hold at least as many boxes as there are lines |
| Layout.GreedyTail | src/layout.rs:56-76 | a greedy breaking's first line is a prefix of the boxes, and the other lines greedily break the rest |
| Layout.FirstLineNotLonger | src/layout.rs:60 | two greedy breakings of the same boxes cannot differ in first-line length |
| Layout.NextLineStart | src/layout.rs:60-67 | when boxes remain after the first line, the next line starts with the next box, which did not fit |
| Layout.TurnedAway | src/layout.rs:60 | a box inside a longer good line fitted after the shorter line |
| Layout.SameFirstLine | src/layout.rs:56-76 | two greedy breakings of the same boxes start with the same line and greedily break the same rest |
| Layout.GreedyEmpty | src/layout.rs:71 | a greedy breaking has no line exactly when there are no boxes |
| Layout.GreedyUnique | src/layout.rs:56-76 | the greedy conditions determine the lines: two greedy breakings of the same boxes are equal |
| Layout.BreakLinesUnique | src/layout.rs:56-76 | any greedy breaking of the boxes is the breaker's output |
| Layout.OverflowOnlyAlone | src/layout.rs:60 | a line of two or more boxes fits; a line wider than the width holds one box only |
| Layout.MaxLines | src/layout.rs:80 | `floor(800 / line_height) as usize` saturates at the largest `usize` |
| Layout.MaxLinesPositive | src/layout.rs:80-81 | a page holds at least one line exactly when `0 <= line_height <= 800`; otherwise `chunks` receives 0 |
| Layout.PagesStep | src/layout.rs:81-85 | one page is cut off the front: `m` lines, or all the lines if fewer |
| Layout.PagesConcat | src/layout.rs:81-85 | the pages' lines, concatenated, are exactly the lines |
| Layout.PagesSizes | src/layout.rs:81-85 | every page but the last holds exactly `m` lines; the last holds between 1 and `m` |
| Layout.PagesCount | src/layout.rs:81-85 | the number of pages is the ceiling of lines over `m`; no lines give no pages |
| Layout.Layout | src/layout.rs:44-87 | `layout` computes the pages of the greedy lines of the flattened boxes, when a page can hold a line |
| Layout.BreakIntoLines | src/layout.rs:56-76 | the breaker loop over `curr`, `w` and `lines` computes `BreakLines` |
| Layout.ChunkPages | src/layout.rs:79-86 | the page loop over `chunks` computes `Pages` |
| Layout.WordsTake | src/layout.rs:113 | a maximal non-whitespace run is the next word |
| Layout.PrefixNotWider | src/layout.rs:68 | with widths not negative, a prefix of boxes is no wider than all of them |
| Layout.FitsAdmitted | src/layout.rs:60 | boxes with widths not negative that fit together fit at every prefix |
| Layout.OneLineGreedy | src/layout.rs:56-76 | boxes admitted on one line form a one-line greedy breaking |
| Layout.AllFitOneLine | src/layout.rs:56-76 | boxes that fit together, the boundary included (a box reaching exactly the width stays), make exactly one line |
| Layout.OneLinePage | src/layout.rs:56-86 | boxes that fit on one line make one page of that one line |
| Layout.HelloWorldBoxes | src/layout.rs:111-127 | `Hello world` flattens to the run `Hello`, glue, and the run `world` |
| Layout.LayoutSimpleExample | src/layout.rs:162-171 | `Hello world` at width 100 gives one page with one line of three boxes |
| Layout.OneWordAlone | src/layout.rs:56-86 | one word, plain or styled, is one page with one line holding its run alone, whatever the line width |
| Layout.LayoutLongWordExample | src/layout.rs:173-180 | a 32-character word at width 50 still sits alone on its line, 192 wide |
| Layout.StyledBoxes | src/layout.rs:129-144 | bold `Bold` then `and normal` flatten to five boxes: bold run, glue, `and`, glue, `normal` |
| Layout.LayoutStyledExample | src/layout.rs:182-192 | that tree at width 100 gives one line of five boxes, the first the bold run |
| Pipeline.MaxLinesAtCompileGeometry | src/lib.rs:48-49 | at the 14.4 pt line height of `compile` a page holds 55 lines, so `chunks` never receives 0 |
| Pipeline.Compile | src/lib.rs:21-63 | `compile` parses, expands and lays out at the A4 geometry, returning a parse error unchanged |
| Pipeline.ParserShapedStyleArgsOk | src/parser.rs:39-56 | every parsed tree gives each styling macro at most one argument |
| Pipeline.ExpandParsed | src/lib.rs:23-26 | on a parsed tree, expansion is idempotent and leaves no nested `Seq` and no collapsible styling macro |
| Pipeline.ExpandParsedSource | src/lib.rs:23-26 | for every source that parses, the tree given to layout is a fixed point of the expander |
| Pipeline.CompileFailsIff | src/lib.rs:23 | `compile` fails exactly when `parse` fails, with the same error, and succeeds exactly when the tokens balance and hold no error token |
| Pipeline.BoldWordLayout | src/lib.rs:53-63 | one bold word at the compile geometry is one page with one line holding one bold run, 24 pt wide |
| Pipeline.CompileBoldExample | src/lib.rs:21-63 | `\textbf{Bold}` compiles to one page with one line holding the bold run `Bold` |

## Left out

- `src/backend.rs` is not part of this model. The PDF rendering through `printpdf` is a foreign library, so `Pipeline.Compile` returns the pages instead of PDF bytes.
- `src/main.rs` and `src/cli.rs` are not part of this model: file I/O and argument parsing.
- The `eprintln!` diagnostic in `compile` is left out. It is output only.
- `f64` arithmetic: widths, `800 / line_height` and the compile geometry are exact reals. Rounding, NaN and infinite values are not modelled, except that a zero line height saturates to the largest `usize`, as the cast does. A NaN line height, which the cast turns into 0, is not representable.
- Layout.Layout: requires `MaxLines(lineHeight) >= 1`, because the source panics in `chunks(0)` there. A panic is not a result. `Layout.MaxLinesPositive` characterises the excluded inputs.
- Lexer: `logos` internals are not modelled. The rules are written as a scanner whose choices follow from longest match and the rules' priorities:
  - `//` starts a comment only at a token boundary, because a text run takes a `/` inside it;
  - a `\` not followed by a letter is a one-character error token.
- Lexer: Unicode whitespace is not modelled. Whitespace is the ASCII set on which `\s` and `split_whitespace` agree.
- Lexer: byte offsets are not modelled. Input is taken as ASCII, so character offsets are byte offsets. For the same reason the run width uses the character count for `word.len()`.
- Parser: the exact error strings are not modelled. Errors are their kind and position.
- Parser: `ExpectedLBrace` models the `Expected '{'` branch of `parse_group`, which no call of the source can reach; nothing is proved about it.
- Layout: the `&mut Vec<HBox>` of `flatten_ast` is modelled as a sequence passed in and returned. The `Seq`/`Macro` and `Text`/`StyledText` loops are the helper methods `FlattenSiblings` and `FlattenWords`.
