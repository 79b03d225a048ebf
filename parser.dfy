/** The recursive-descent parser (src/parser.rs): a token sequence becomes
    a `Seq` tree with one nested `Seq` per brace group and one `Macro` per
    command. The functions below are the grammar; the methods are the
    source's loop-and-cursor procedures, each proved to compute its
    function. */
module Parser {
  import opened Ast
  import Lexer

  /** Error kinds, each with the token position the source reports. */
  datatype ParseError =
    | UnexpectedToken(pos: nat)   // a token that cannot start a node
    | ExpectedLBrace(pos: nat)    // a group that does not start with `{`
    | UnclosedGroup(pos: nat)     // the `{` at `pos` is never closed
    | TrailingTokens(pos: nat)    // the top-level sequence stopped early

  datatype Result<T> = Ok(value: T) | Err(error: ParseError)

  /** The trees the parser builds: no `StyledText`, and every `Macro` has at
      most one argument, which is a group. */
  predicate ParserShaped(n: Node)
  {
    match n
    case Text(_) => true
    case StyledText(_, _) => false
    case Macro(_, args) =>
      |args| <= 1 && forall i :: 0 <= i < |args| ==> args[i].Seq? && ParserShaped(args[i])
    case Seq(cs) => forall i :: 0 <= i < |cs| ==> ParserShaped(cs[i])
  }

  /** `sequence := node*`, stopping at `}` or at the end: the children and the
      position where the sequence stopped. */
  function ChildrenAt(toks: seq<Lexer.Token>, pos: nat): (r: Result<(seq<Node>, nat)>)
    requires pos <= |toks|
    ensures r.Ok? ==> pos <= r.value.1 <= |toks|
    ensures r.Ok? ==> r.value.1 == |toks| || toks[r.value.1] == Lexer.RBrace
    ensures r.Ok? ==> forall i :: 0 <= i < |r.value.0| ==> ParserShaped(r.value.0[i])
    ensures r.Err? ==> !r.error.TrailingTokens?
    decreases |toks| - pos, 2
  {
    if pos == |toks| || toks[pos] == Lexer.RBrace then Ok(([], pos))
    else
      match NodeAt(toks, pos)
      case Err(e) => Err(e)
      case Ok((n, p)) =>
        match ChildrenAt(toks, p)
        case Err(e) => Err(e)
        case Ok((cs, q)) => Ok(([n] + cs, q))
  }

  /** `node := Text | group | Command [group]`. */
  function NodeAt(toks: seq<Lexer.Token>, pos: nat): (r: Result<(Node, nat)>)
    requires pos < |toks|
    ensures r.Ok? ==> pos < r.value.1 <= |toks| && ParserShaped(r.value.0)
    ensures r.Err? ==> !r.error.TrailingTokens?
    decreases |toks| - pos, 1
  {
    match toks[pos]
    case Text(s) => Ok((Text(s), pos + 1))
    case Command(name) =>
      if pos + 1 < |toks| && toks[pos + 1] == Lexer.LBrace then
        match GroupAt(toks, pos + 1)
        case Err(e) => Err(e)
        case Ok((arg, p)) => Ok((Macro(name, [arg]), p))
      else
        Ok((Macro(name, []), pos + 1))
    case LBrace => GroupAt(toks, pos)
    case _ => Err(UnexpectedToken(pos))
  }

  /** `group := '{' sequence '}'`: the inner sequence and the position one
      past its `}`. */
  function GroupAt(toks: seq<Lexer.Token>, pos: nat): (r: Result<(Node, nat)>)
    requires pos < |toks|
    ensures r.Ok? ==> pos < r.value.1 <= |toks| && r.value.0.Seq? && ParserShaped(r.value.0)
    ensures r.Ok? ==> toks[pos] == Lexer.LBrace && toks[r.value.1 - 1] == Lexer.RBrace
    ensures r.Err? ==> !r.error.TrailingTokens?
    decreases |toks| - pos, 0
  {
    if toks[pos] != Lexer.LBrace then Err(ExpectedLBrace(pos))
    else
      match ChildrenAt(toks, pos + 1)
      case Err(e) => Err(e)
      case Ok((cs, cur)) =>
        if cur < |toks| && toks[cur] == Lexer.RBrace then Ok((Seq(cs), cur + 1))
        else Err(UnclosedGroup(pos))
  }

  /** The children found from `pos` on, wrapped in a `Seq` after `prefix`. */
  function SeqAfter(prefix: seq<Node>, r: Result<(seq<Node>, nat)>): Result<(Node, nat)>
  {
    match r
    case Err(e) => Err(e)
    case Ok((cs, p)) => Ok((Seq(prefix + cs), p))
  }

  /** What `parse_sequence` returns from `pos`. */
  function SequenceAt(toks: seq<Lexer.Token>, pos: nat): Result<(Node, nat)>
    requires pos <= |toks|
  {
    match ChildrenAt(toks, pos)
    case Err(e) => Err(e)
    case Ok((cs, p)) => Ok((Seq(cs), p))
  }

  /** One turn of the sequence loop: a parsed node moves from the children
      still to come to the children found. */
  lemma ChildrenStep(toks: seq<Lexer.Token>, pos: nat, children: seq<Node>)
    requires pos < |toks| && toks[pos] != Lexer.RBrace && NodeAt(toks, pos).Ok?
    ensures SeqAfter(children, ChildrenAt(toks, pos))
         == SeqAfter(children + [NodeAt(toks, pos).value.0], ChildrenAt(toks, NodeAt(toks, pos).value.1))
  {
    var (node, p) := NodeAt(toks, pos).value;
    match ChildrenAt(toks, p)
    case Err(e) =>
    case Ok((cs, q)) =>
      assert children + ([node] + cs) == (children + [node]) + cs;
  }

  /** `parse` on a token list: one top-level sequence that must reach the
      end of the tokens. */
  function ParseTokens(toks: seq<Lexer.Token>): (r: Result<Node>)
    ensures r.Ok? ==> r.value.Seq? && ParserShaped(r.value)
    ensures r.Ok? <==> ChildrenAt(toks, 0).Ok? && ChildrenAt(toks, 0).value.1 == |toks|
    ensures r.Err? && r.error.TrailingTokens? ==>
      r.error.pos < |toks| && toks[r.error.pos] == Lexer.RBrace
  {
    match ChildrenAt(toks, 0)
    case Err(e) => Err(e)
    case Ok((cs, p)) => if p != |toks| then Err(TrailingTokens(p)) else Ok(Seq(cs))
  }

  /** `parse` on source text: lex, keep the token kinds, parse. */
  function ParseSource(input: string): Result<Node>
  {
    ParseTokens(Lexer.Kinds(Lexer.Tokens(input)))
  }

  // ---------------------------------------------------------------------
  // The source's procedures

  /** `parse_sequence`: a loop that parses nodes until `}` or the end. */
  method ParseSequence(toks: seq<Lexer.Token>, start: nat) returns (r: Result<(Node, nat)>)
    requires start <= |toks|
    ensures r == SequenceAt(toks, start)
    decreases |toks| - start, 2
  {
    var children: seq<Node> := [];
    var pos := start;
    assert ChildrenAt(toks, start).Ok? ==> [] + ChildrenAt(toks, start).value.0 == ChildrenAt(toks, start).value.0;
    while pos < |toks| && toks[pos] != Lexer.RBrace
      invariant start <= pos <= |toks|
      invariant SequenceAt(toks, start) == SeqAfter(children, ChildrenAt(toks, pos))
      decreases |toks| - pos
    {
      var res := ParseNode(toks, pos);
      if res.Err? {
        return Err(res.error);
      }
      var (node, newPos) := res.value;
      ChildrenStep(toks, pos, children);
      children := children + [node];
      pos := newPos;
    }
    assert children + [] == children;
    return Ok((Seq(children), pos));
  }

  /** `parse_node`. */
  method ParseNode(toks: seq<Lexer.Token>, pos: nat) returns (r: Result<(Node, nat)>)
    requires pos < |toks|
    ensures r == NodeAt(toks, pos)
    decreases |toks| - pos, 1
  {
    match toks[pos]
    case Text(text) =>
      return Ok((Text(text), pos + 1));
    case Command(name) =>
      var args: seq<Node> := [];
      var cur := pos + 1;
      if cur < |toks| && toks[cur] == Lexer.LBrace {
        var g := ParseGroup(toks, cur);
        if g.Err? {
          return Err(g.error);
        }
        args := args + [g.value.0];
        assert args == [g.value.0];
        cur := g.value.1;
      }
      return Ok((Macro(name, args), cur));
    case LBrace =>
      r := ParseGroup(toks, pos);
    case _ =>
      return Err(UnexpectedToken(pos));
  }

  /** `parse_group`. */
  method ParseGroup(toks: seq<Lexer.Token>, pos: nat) returns (r: Result<(Node, nat)>)
    requires pos < |toks|
    ensures r == GroupAt(toks, pos)
    decreases |toks| - pos, 0
  {
    if toks[pos] != Lexer.LBrace {
      return Err(ExpectedLBrace(pos));
    }
    var inner := ParseSequence(toks, pos + 1);
    if inner.Err? {
      return Err(inner.error);
    }
    var (node, cur) := inner.value;
    if cur < |toks| && toks[cur] == Lexer.RBrace {
      return Ok((node, cur + 1));
    } else {
      return Err(UnclosedGroup(pos));
    }
  }

  /** `parse`. */
  method Parse(input: string) returns (r: Result<Node>)
    ensures r == ParseSource(input)
  {
    var spanned := Lexer.Lex(input);
    var toks := Lexer.Kinds(spanned);
    var res := ParseSequence(toks, 0);
    if res.Err? {
      return Err(res.error);
    }
    var (ast, pos) := res.value;
    if pos != |toks| {
      return Err(TrailingTokens(pos));
    }
    return Ok(ast);
  }

  // ---------------------------------------------------------------------
  // Brace balance

  /** +1 for `{`, -1 for `}`, 0 otherwise. */
  function Delta(t: Lexer.Token): int
  {
    match t
    case LBrace => 1
    case RBrace => -1
    case _ => 0
  }

  /** Number of `{` minus number of `}`. */
  function Net(ts: seq<Lexer.Token>): int
  {
    if |ts| == 0 then 0 else Net(ts[..|ts| - 1]) + Delta(ts[|ts| - 1])
  }

  /** Braces match: no prefix closes more than it opened, and the whole opens
      as many as it closes. */
  ghost predicate Balanced(ts: seq<Lexer.Token>)
  {
    Net(ts) == 0 && forall k :: 0 <= k <= |ts| ==> Net(ts[..k]) >= 0
  }

  /** No `Error` token. */
  ghost predicate NoErrors(ts: seq<Lexer.Token>)
  {
    forall i :: 0 <= i < |ts| ==> !ts[i].Error?
  }

  lemma {:induction false} NetAppend(a: seq<Lexer.Token>, b: seq<Lexer.Token>)
    ensures Net(a + b) == Net(a) + Net(b)
    decreases |b|
  {
    if |b| == 0 {
      assert a + b == a;
    } else {
      assert (a + b)[..|a + b| - 1] == a + b[..|b| - 1];
      NetAppend(a, b[..|b| - 1]);
    }
  }

  lemma BalancedAppend(a: seq<Lexer.Token>, b: seq<Lexer.Token>)
    requires Balanced(a) && Balanced(b)
    ensures Balanced(a + b)
  {
    NetAppend(a, b);
    forall k | 0 <= k <= |a + b| ensures Net((a + b)[..k]) >= 0 {
      if k <= |a| {
        assert (a + b)[..k] == a[..k];
      } else {
        assert (a + b)[..k] == a + b[..k - |a|];
        NetAppend(a, b[..k - |a|]);
      }
    }
  }

  lemma BalancedWrap(a: seq<Lexer.Token>)
    requires Balanced(a)
    ensures Balanced([Lexer.LBrace] + a + [Lexer.RBrace])
  {
    var w := [Lexer.LBrace] + a + [Lexer.RBrace];
    NetAppend([Lexer.LBrace], a);
    assert [Lexer.LBrace][..0] == [];
    assert w[..|w| - 1] == [Lexer.LBrace] + a;
    assert w[..|w|] == w;
    forall k | 0 <= k <= |w| ensures Net(w[..k]) >= 0 {
      if 1 <= k <= |a| + 1 {
        assert w[..k] == [Lexer.LBrace] + a[..k - 1];
        NetAppend([Lexer.LBrace], a[..k - 1]);
      } else if k == 0 {
        assert w[..k] == [];
      }
    }
  }

  /** A single token other than a brace is balanced. */
  lemma BalancedSingle(t: Lexer.Token)
    requires !t.LBrace? && !t.RBrace?
    ensures Balanced([t])
  {
    assert [t][..0] == [] && [t][..1] == [t];
    assert [t][..|[t]| - 1] == [];
  }

  /** Why a parse from `pos` failed: an `Error` token where a node was
      expected, or a `{` whose contents up to the end of the tokens are
      balanced (so its `}` is missing). */
  ghost predicate Explains(toks: seq<Lexer.Token>, e: ParseError)
  {
    match e
    case UnexpectedToken(p) => p < |toks| && toks[p].Error?
    case UnclosedGroup(g) => g < |toks| && toks[g] == Lexer.LBrace && Balanced(toks[g + 1..])
    case _ => false
  }

  /** A balanced, error-free run between `{` and `}` makes the whole group
      balanced and error-free. */
  lemma GroupSliceFacts(toks: seq<Lexer.Token>, pos: nat, cur: nat)
    requires pos < cur < |toks| && toks[pos] == Lexer.LBrace && toks[cur] == Lexer.RBrace
    requires Balanced(toks[pos + 1..cur]) && NoErrors(toks[pos + 1..cur])
    ensures Balanced(toks[pos..cur + 1]) && NoErrors(toks[pos..cur + 1])
  {
    assert toks[pos..cur + 1] == [Lexer.LBrace] + toks[pos + 1..cur] + [Lexer.RBrace];
    BalancedWrap(toks[pos + 1..cur]);
  }

  /** What a successful or failed sequence parse says about the tokens: the
      tokens it consumed are balanced and error-free, and a failure is
      explained by the tokens. */
  lemma {:induction false} ChildrenFacts(toks: seq<Lexer.Token>, pos: nat)
    requires pos <= |toks|
    ensures ChildrenAt(toks, pos).Ok? ==>
      Balanced(toks[pos..ChildrenAt(toks, pos).value.1]) && NoErrors(toks[pos..ChildrenAt(toks, pos).value.1])
    ensures ChildrenAt(toks, pos).Err? ==> Explains(toks, ChildrenAt(toks, pos).error)
    decreases |toks| - pos, 2
  {
    if pos == |toks| || toks[pos] == Lexer.RBrace {
      assert toks[pos..pos] == [];
    } else {
      NodeFacts(toks, pos);
      match NodeAt(toks, pos)
      case Err(e) =>
      case Ok((n, p)) =>
        ChildrenFacts(toks, p);
        match ChildrenAt(toks, p)
        case Err(e) =>
        case Ok((cs, q)) =>
          assert toks[pos..q] == toks[pos..p] + toks[p..q];
          BalancedAppend(toks[pos..p], toks[p..q]);
    }
  }

  lemma {:induction false} NodeFacts(toks: seq<Lexer.Token>, pos: nat)
    requires pos < |toks| && toks[pos] != Lexer.RBrace
    ensures NodeAt(toks, pos).Ok? ==>
      Balanced(toks[pos..NodeAt(toks, pos).value.1]) && NoErrors(toks[pos..NodeAt(toks, pos).value.1])
    ensures NodeAt(toks, pos).Err? ==> Explains(toks, NodeAt(toks, pos).error)
    decreases |toks| - pos, 1
  {
    match toks[pos]
    case Text(s) =>
      assert toks[pos..pos + 1] == [toks[pos]];
      BalancedSingle(toks[pos]);
    case Command(name) =>
      assert toks[pos..pos + 1] == [toks[pos]];
      BalancedSingle(toks[pos]);
      if pos + 1 < |toks| && toks[pos + 1] == Lexer.LBrace {
        GroupFacts(toks, pos + 1);
        match GroupAt(toks, pos + 1)
        case Err(e) =>
        case Ok((arg, p)) =>
          assert toks[pos..p] == toks[pos..pos + 1] + toks[pos + 1..p];
          BalancedAppend(toks[pos..pos + 1], toks[pos + 1..p]);
      }
    case LBrace =>
      GroupFacts(toks, pos);
    case Error =>
  }

  lemma {:induction false} GroupFacts(toks: seq<Lexer.Token>, pos: nat)
    requires pos < |toks| && toks[pos] == Lexer.LBrace
    ensures GroupAt(toks, pos).Ok? ==>
      Balanced(toks[pos..GroupAt(toks, pos).value.1]) && NoErrors(toks[pos..GroupAt(toks, pos).value.1])
    ensures GroupAt(toks, pos).Err? ==> Explains(toks, GroupAt(toks, pos).error)
    decreases |toks| - pos, 0
  {
    ChildrenFacts(toks, pos + 1);
    match ChildrenAt(toks, pos + 1)
    case Err(e) =>
    case Ok((cs, cur)) =>
      if cur < |toks| && toks[cur] == Lexer.RBrace {
        GroupSliceFacts(toks, pos, cur);
      } else {
        assert cur == |toks|;
        assert toks[pos + 1..cur] == toks[pos + 1..];
      }
  }

  /** A token list parses exactly when its braces are balanced and it holds
      no `Error` token. */
  lemma ParseSucceedsIff(toks: seq<Lexer.Token>)
    ensures ParseTokens(toks).Ok? <==> Balanced(toks) && NoErrors(toks)
  {
    ChildrenFacts(toks, 0);
    assert toks[0..] == toks;
    match ChildrenAt(toks, 0)
    case Ok((cs, p)) =>
      if p < |toks| {
        // an unmatched `}` at the top level: the prefix up to and including
        // it closes one more brace than it opens
        assert toks[..p + 1] == toks[0..p] + [toks[p]];
        NetAppend(toks[0..p], [toks[p]]);
        assert [toks[p]][..0] == [];
        assert Net(toks[..p + 1]) < 0;
        assert !Balanced(toks);
      } else {
        assert toks[0..p] == toks;
      }
    case Err(e) =>
      if e.UnclosedGroup? {
        var g := e.pos;
        // the prefix before `{` does not go negative in a balanced list,
        // so the whole list would open one brace more than it closes
        assert toks == toks[..g] + ([toks[g]] + toks[g + 1..]);
        NetAppend(toks[..g], [toks[g]] + toks[g + 1..]);
        NetAppend([toks[g]], toks[g + 1..]);
        assert [toks[g]][..0] == [];
      }
  }

  // ---------------------------------------------------------------------
  // Round trip: a parsed tree spells out the tokens it was parsed from

  /** The tokens a tree stands for: a group between braces, a command
      followed by its arguments. */
  function Unparse(n: Node): seq<Lexer.Token>
  {
    match n
    case Text(s) => [Lexer.Text(s)]
    case StyledText(s, _) => [Lexer.Text(s)]
    case Macro(name, args) => [Lexer.Command(name)] + UnparseAll(args)
    case Seq(cs) => [Lexer.LBrace] + UnparseAll(cs) + [Lexer.RBrace]
  }

  function UnparseAll(ns: seq<Node>): seq<Lexer.Token>
  {
    if |ns| == 0 then [] else Unparse(ns[0]) + UnparseAll(ns[1..])
  }

  lemma {:induction false} ChildrenSpell(toks: seq<Lexer.Token>, pos: nat)
    requires pos <= |toks|
    ensures ChildrenAt(toks, pos).Ok? ==>
      UnparseAll(ChildrenAt(toks, pos).value.0) == toks[pos..ChildrenAt(toks, pos).value.1]
    decreases |toks| - pos, 2
  {
    if pos == |toks| || toks[pos] == Lexer.RBrace {
    } else {
      NodeSpell(toks, pos);
      match NodeAt(toks, pos)
      case Err(e) =>
      case Ok((n, p)) =>
        ChildrenSpell(toks, p);
        match ChildrenAt(toks, p)
        case Err(e) =>
        case Ok((cs, q)) =>
          calc {
            UnparseAll([n] + cs);
          == { assert ([n] + cs)[0] == n && ([n] + cs)[1..] == cs; }
            Unparse(n) + UnparseAll(cs);
          ==
            toks[pos..p] + toks[p..q];
          == { assert toks[pos..q] == toks[pos..p] + toks[p..q]; }
            toks[pos..q];
          }
    }
  }

  lemma {:induction false} NodeSpell(toks: seq<Lexer.Token>, pos: nat)
    requires pos < |toks|
    ensures NodeAt(toks, pos).Ok? ==> Unparse(NodeAt(toks, pos).value.0) == toks[pos..NodeAt(toks, pos).value.1]
    decreases |toks| - pos, 1
  {
    match toks[pos]
    case Text(s) =>
      assert toks[pos..pos + 1] == [toks[pos]];
    case Command(name) =>
      if pos + 1 < |toks| && toks[pos + 1] == Lexer.LBrace {
        GroupSpell(toks, pos + 1);
        match GroupAt(toks, pos + 1)
        case Err(e) =>
        case Ok((arg, p)) =>
          assert UnparseAll([arg]) == Unparse(arg) + UnparseAll([]);
          assert toks[pos..p] == [toks[pos]] + toks[pos + 1..p];
      } else {
        assert toks[pos..pos + 1] == [toks[pos]];
      }
    case LBrace =>
      GroupSpell(toks, pos);
    case _ =>
  }

  lemma {:induction false} GroupSpell(toks: seq<Lexer.Token>, pos: nat)
    requires pos < |toks|
    ensures GroupAt(toks, pos).Ok? ==> Unparse(GroupAt(toks, pos).value.0) == toks[pos..GroupAt(toks, pos).value.1]
    decreases |toks| - pos, 0
  {
    if toks[pos] == Lexer.LBrace {
      ChildrenSpell(toks, pos + 1);
      match ChildrenAt(toks, pos + 1)
      case Err(e) =>
      case Ok((cs, cur)) =>
        if cur < |toks| && toks[cur] == Lexer.RBrace {
          WrapSpell(toks, pos, cs, cur);
        }
    }
  }

  /** A group's children spelled out between its braces. */
  lemma WrapSpell(toks: seq<Lexer.Token>, pos: nat, cs: seq<Node>, cur: nat)
    requires pos < cur < |toks| && toks[pos] == Lexer.LBrace && toks[cur] == Lexer.RBrace
    requires UnparseAll(cs) == toks[pos + 1..cur]
    ensures Unparse(Seq(cs)) == toks[pos..cur + 1]
  {
    assert toks[pos..cur + 1] == [toks[pos]] + toks[pos + 1..cur] + [toks[cur]];
  }

  /** Parsing loses no token: the children of the parsed `Seq`, spelled out,
      are exactly the input tokens. */
  lemma ParseSpellsInput(toks: seq<Lexer.Token>)
    requires ParseTokens(toks).Ok?
    ensures UnparseAll(ParseTokens(toks).value.children) == toks
  {
    ChildrenSpell(toks, 0);
    assert toks[0..|toks|] == toks;
  }

  // ---------------------------------------------------------------------
  // A command takes the group right after it

  /** A command parses to a macro of the same name. It takes exactly one
      argument when a `{` follows it, and that argument is the group parsed
      there; otherwise it takes none and consumes only its own token. */
  lemma CommandArgument(toks: seq<Lexer.Token>, pos: nat)
    requires pos < |toks| && toks[pos].Command? && NodeAt(toks, pos).Ok?
    ensures NodeAt(toks, pos).value.0.Macro? && NodeAt(toks, pos).value.0.name == toks[pos].name
    ensures |NodeAt(toks, pos).value.0.args| == 1 <==> pos + 1 < |toks| && toks[pos + 1] == Lexer.LBrace
    ensures |NodeAt(toks, pos).value.0.args| == 1 ==>
      GroupAt(toks, pos + 1) == Ok((NodeAt(toks, pos).value.0.args[0], NodeAt(toks, pos).value.1))
    ensures |NodeAt(toks, pos).value.0.args| == 0 ==> NodeAt(toks, pos).value.1 == pos + 1
  {
  }

  /** In a run of siblings, an argument-less macro is never followed
      directly by a group: the parser would have taken that group as the
      macro's argument. */
  ghost predicate ArgsTaken(ns: seq<Node>)
  {
    forall i :: 0 <= i < |ns| - 1 && ns[i].Macro? && |ns[i].args| == 0 ==> !ns[i + 1].Seq?
  }

  /** `ArgsTaken` holds for every sequence of the tree. */
  ghost predicate GroupsTaken(n: Node)
  {
    match n
    case Text(_) => true
    case StyledText(_, _) => true
    case Macro(_, args) => forall i :: 0 <= i < |args| ==> GroupsTaken(args[i])
    case Seq(cs) => ArgsTaken(cs) && forall i :: 0 <= i < |cs| ==> GroupsTaken(cs[i])
  }

  lemma {:induction false} ChildrenTakeGroups(toks: seq<Lexer.Token>, pos: nat)
    requires pos <= |toks|
    ensures ChildrenAt(toks, pos).Ok? ==>
      ArgsTaken(ChildrenAt(toks, pos).value.0) &&
      forall i :: 0 <= i < |ChildrenAt(toks, pos).value.0| ==> GroupsTaken(ChildrenAt(toks, pos).value.0[i])
    ensures ChildrenAt(toks, pos).Ok? && |ChildrenAt(toks, pos).value.0| > 0 && ChildrenAt(toks, pos).value.0[0].Seq? ==>
      pos < |toks| && toks[pos] == Lexer.LBrace
    decreases |toks| - pos, 2
  {
    if pos == |toks| || toks[pos] == Lexer.RBrace {
    } else {
      NodeTakesGroups(toks, pos);
      match NodeAt(toks, pos)
      case Err(e) =>
      case Ok((n, p)) =>
        ChildrenTakeGroups(toks, p);
        match ChildrenAt(toks, p)
        case Err(e) =>
        case Ok((cs, q)) =>
          var r := [n] + cs;
          assert r[0] == n;
          assert forall i :: 1 <= i < |r| ==> r[i] == cs[i - 1];
          if n.Macro? && |n.args| == 0 && |cs| > 0 {
            CommandArgument(toks, pos);
            assert p == pos + 1 && toks[p] != Lexer.LBrace;
          }
    }
  }

  lemma {:induction false} NodeTakesGroups(toks: seq<Lexer.Token>, pos: nat)
    requires pos < |toks|
    ensures NodeAt(toks, pos).Ok? ==> GroupsTaken(NodeAt(toks, pos).value.0)
    ensures NodeAt(toks, pos).Ok? && NodeAt(toks, pos).value.0.Macro? && |NodeAt(toks, pos).value.0.args| == 0 ==>
      toks[pos].Command?
    decreases |toks| - pos, 1
  {
    match toks[pos]
    case Text(s) =>
    case Command(name) =>
      if pos + 1 < |toks| && toks[pos + 1] == Lexer.LBrace {
        GroupTakesGroups(toks, pos + 1);
      }
    case LBrace =>
      GroupTakesGroups(toks, pos);
    case _ =>
  }

  lemma {:induction false} GroupTakesGroups(toks: seq<Lexer.Token>, pos: nat)
    requires pos < |toks|
    ensures GroupAt(toks, pos).Ok? ==> GroupsTaken(GroupAt(toks, pos).value.0)
    decreases |toks| - pos, 0
  {
    if toks[pos] == Lexer.LBrace {
      ChildrenTakeGroups(toks, pos + 1);
    }
  }

  /** Every sequence of a parsed tree has each group that follows a command
      taken as that command's argument. With `ParseSpellsInput` this pins
      down the tree: `\cmd{x}` is `Macro("cmd", [Seq(..)])`, never
      `Macro("cmd", [])` followed by `Seq(..)`. */
  lemma ParseTakesGroups(toks: seq<Lexer.Token>)
    requires ParseTokens(toks).Ok?
    ensures GroupsTaken(ParseTokens(toks).value)
  {
    ChildrenTakeGroups(toks, 0);
  }

  // ---------------------------------------------------------------------
  // Examples

  /** One node, then the rest of the sequence. */
  lemma ChildrenCons(toks: seq<Lexer.Token>, pos: nat, n: Node, p: nat, cs: seq<Node>, q: nat)
    requires pos < |toks| && toks[pos] != Lexer.RBrace
    requires NodeAt(toks, pos) == Ok((n, p)) && ChildrenAt(toks, p) == Ok((cs, q))
    ensures ChildrenAt(toks, pos) == Ok(([n] + cs, q))
  {
  }

  /** A sequence that stops at once. */
  lemma ChildrenNil(toks: seq<Lexer.Token>, pos: nat)
    requires pos == |toks| || (pos < |toks| && toks[pos] == Lexer.RBrace)
    ensures ChildrenAt(toks, pos) == Ok(([], pos))
  {
  }

  lemma ParseTextExample(s: string)
    requires s == "Hello"
    ensures ParseSource(s) == Ok(Seq([Text("Hello")]))
  {
    Lexer.LexTextExample(s);
    var toks := [Lexer.Text("Hello")];
    ChildrenNil(toks, 1);
    ChildrenCons(toks, 0, Text("Hello"), 1, [], 1);
    assert [Text("Hello")] + [] == [Text("Hello")];
  }

  lemma ParseGroupExample(s: string)
    requires s == "{Hi there}"
    ensures ParseSource(s) == Ok(Seq([Seq([Text("Hi"), Text("there")])]))
  {
    Lexer.LexGroupExample(s);
    var toks := [Lexer.LBrace, Lexer.Text("Hi"), Lexer.Text("there"), Lexer.RBrace];
    var inner := Seq([Text("Hi"), Text("there")]);
    ChildrenNil(toks, 3);
    ChildrenCons(toks, 2, Text("there"), 3, [], 3);
    assert [Text("there")] + [] == [Text("there")];
    ChildrenCons(toks, 1, Text("Hi"), 2, [Text("there")], 3);
    assert [Text("Hi")] + [Text("there")] == inner.children;
    assert GroupAt(toks, 0) == Ok((inner, 4));
    ChildrenNil(toks, 4);
    ChildrenCons(toks, 0, inner, 4, [], 4);
    assert [inner] + [] == [inner];
  }

  lemma ParseMacroExample(s: string)
    requires s == "\\textbf{Bold}"
    ensures ParseSource(s) == Ok(Seq([Macro("textbf", [Seq([Text("Bold")])])]))
  {
    Lexer.LexMacroGroupExample(s);
    var toks := [Lexer.Command("textbf"), Lexer.LBrace, Lexer.Text("Bold"), Lexer.RBrace];
    var m := Macro("textbf", [Seq([Text("Bold")])]);
    ChildrenNil(toks, 3);
    ChildrenCons(toks, 2, Text("Bold"), 3, [], 3);
    assert [Text("Bold")] + [] == [Text("Bold")];
    assert GroupAt(toks, 1) == Ok((Seq([Text("Bold")]), 4));
    assert NodeAt(toks, 0) == Ok((m, 4));
    ChildrenNil(toks, 4);
    ChildrenCons(toks, 0, m, 4, [], 4);
    assert [m] + [] == [m];
  }

  /** A backslash before `{` lexes to an `Error` token, which no node can
      start. */
  lemma ParseErrorTokenExample(s: string)
    requires s == "\\{x}"
    ensures ParseSource(s) == Err(UnexpectedToken(0))
  {
    Lexer.LexErrorExample(s);
    var toks := [Lexer.Error, Lexer.LBrace, Lexer.Text("x"), Lexer.RBrace];
    assert NodeAt(toks, 0) == Err(UnexpectedToken(0));
  }

  /** A `{` that is never closed. */
  lemma ParseUnclosedExample(s: string)
    requires s == "{A"
    ensures ParseSource(s) == Err(UnclosedGroup(0))
  {
    Lexer.LexUnclosedExample(s);
    var toks := [Lexer.LBrace, Lexer.Text("A")];
    ChildrenNil(toks, 2);
    ChildrenCons(toks, 1, Text("A"), 2, [], 2);
  }

  /** A `}` with no `{` stops the top-level sequence before the end. */
  lemma ParseTrailingExample(s: string)
    requires s == "a}"
    ensures ParseSource(s) == Err(TrailingTokens(1))
  {
    Lexer.LexTrailingExample(s);
    var toks := [Lexer.Text("a"), Lexer.RBrace];
    ChildrenNil(toks, 1);
    ChildrenCons(toks, 0, Text("a"), 1, [], 1);
  }
}
