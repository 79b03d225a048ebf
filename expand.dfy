/** The macro expander (src/expand.rs): a tree-to-tree rewrite that splices
    nested sequences one level into their parent and collapses the styling
    commands `\textbf` and `\emph` into styled text. It never fails. */
module Expand {
  import opened Ast
  import Seqs

  /** What the source's `match exp { Seq(inner) => extend(inner), other =>
      push(other) }` adds to the list: a `Seq`'s children, or the node. */
  function Spliced(n: Node): seq<Node>
  {
    if n.Seq? then n.children else [n]
  }

  /** The push/extend loop over a list of expanded nodes. */
  function Splice(ns: seq<Node>): seq<Node>
  {
    if |ns| == 0 then [] else Splice(ns[..|ns| - 1]) + Spliced(ns[|ns| - 1])
  }

  /** The styling commands and the style each one selects. */
  predicate IsStyling(name: string)
  {
    name == "textbf" || name == "emph"
  }

  function StyleOf(name: string): TextStyle
  {
    if name == "textbf" then Bold else Italic
  }

  /** `collect_plain_text`: the text of a leaf, the children's texts joined
      with one space each, and nothing for a macro. */
  function CollectPlainText(n: Node): string
  {
    match n
    case Text(s) => s
    case StyledText(s, _) => s
    case Seq(cs) => Seqs.Intercalate(CollectAll(cs), ' ')
    case Macro(_, _) => ""
  }

  function CollectAll(ns: seq<Node>): (r: seq<string>)
    ensures |r| == |ns|
    ensures forall i :: 0 <= i < |ns| ==> r[i] == CollectPlainText(ns[i])
  {
    if |ns| == 0 then [] else CollectAll(ns[..|ns| - 1]) + [CollectPlainText(ns[|ns| - 1])]
  }

  /** `expand_macros`. */
  function Expand(n: Node): Node
  {
    match n
    case Seq(cs) => Seq(Splice(ExpandAll(cs)))
    case Macro(name, args) =>
      var expanded := ExpandAll(args);
      if IsStyling(name) && |expanded| == 1 then StyledText(CollectPlainText(expanded[0]), StyleOf(name))
      else Macro(name, Splice(expanded))
    case Text(_) => n
    case StyledText(_, _) => n
  }

  /** Each node of `ns` expanded, in order. */
  function ExpandAll(ns: seq<Node>): (r: seq<Node>)
    ensures |r| == |ns|
    ensures forall i :: 0 <= i < |ns| ==> r[i] == Expand(ns[i])
  {
    if |ns| == 0 then [] else ExpandAll(ns[..|ns| - 1]) + [Expand(ns[|ns| - 1])]
  }

  /** `expand_macros` as the source writes it: a `Seq`'s children are
      expanded and spliced by one loop; a macro's arguments are expanded
      into a list, which a styling command collapses and any other command
      splices with a second loop. */
  method ExpandMacros(n: Node) returns (r: Node)
    ensures r == Expand(n)
    decreases n, 1
  {
    match n
    case Seq(children) =>
      var flat := ExpandChildren(children);
      r := Seq(flat);
    case Macro(name, args) =>
      var expanded := ExpandArgs(args);
      if name == "textbf" && |expanded| == 1 {
        return StyledText(CollectPlainText(expanded[0]), Bold);
      }
      if name == "emph" && |expanded| == 1 {
        return StyledText(CollectPlainText(expanded[0]), Italic);
      }
      var flat := SpliceArgs(expanded);
      r := Macro(name, flat);
    case Text(s) =>
      r := Text(s);
    case StyledText(s, style) =>
      r := StyledText(s, style);
  }

  /** The loop of the `Seq` branch: each child expanded, then its children
      extended onto the list if it is a `Seq`, or the child pushed. */
  method ExpandChildren(children: seq<Node>) returns (flat: seq<Node>)
    ensures flat == Splice(ExpandAll(children))
    decreases children, 0
  {
    flat := [];
    for i := 0 to |children|
      invariant flat == Splice(ExpandAll(children[..i]))
    {
      var e := ExpandMacros(children[i]);
      assert children[..i + 1][..i] == children[..i];
      SpliceSnoc(ExpandAll(children[..i]), e);
      if e.Seq? {
        flat := flat + e.children;
      } else {
        flat := flat + [e];
      }
    }
    assert children[..|children|] == children;
  }

  /** `args.iter().map(expand_macros).collect()`. */
  method ExpandArgs(args: seq<Node>) returns (expanded: seq<Node>)
    ensures expanded == ExpandAll(args)
    decreases args, 0
  {
    expanded := [];
    for i := 0 to |args|
      invariant expanded == ExpandAll(args[..i])
    {
      var e := ExpandMacros(args[i]);
      assert args[..i + 1][..i] == args[..i];
      expanded := expanded + [e];
    }
    assert args[..|args|] == args;
  }

  /** The loop of the `Macro` branch over the expanded arguments. */
  method SpliceArgs(ns: seq<Node>) returns (flat: seq<Node>)
    ensures flat == Splice(ns)
  {
    flat := [];
    for i := 0 to |ns|
      invariant flat == Splice(ns[..i])
    {
      SpliceSnoc(ns[..i], ns[i]);
      assert ns[..i] + [ns[i]] == ns[..i + 1];
      if ns[i].Seq? {
        flat := flat + ns[i].children;
      } else {
        flat := flat + [ns[i]];
      }
    }
    assert ns[..|ns|] == ns;
  }

  // ---------------------------------------------------------------------
  // Shapes

  /** No `Seq` directly inside a `Seq`, and no `Seq` as a macro argument,
      anywhere in the tree. */
  ghost predicate Flat(n: Node)
  {
    match n
    case Seq(cs) => forall i :: 0 <= i < |cs| ==> !cs[i].Seq? && Flat(cs[i])
    case Macro(_, args) => forall i :: 0 <= i < |args| ==> !args[i].Seq? && Flat(args[i])
    case _ => true
  }

  /** No styling command with exactly one argument anywhere in the tree. */
  ghost predicate Settled(n: Node)
  {
    match n
    case Seq(cs) => forall i :: 0 <= i < |cs| ==> Settled(cs[i])
    case Macro(name, args) =>
      !(IsStyling(name) && |args| == 1) && forall i :: 0 <= i < |args| ==> Settled(args[i])
    case _ => true
  }

  /** Every styling command in the tree has at most one argument: what the
      parser guarantees, and what makes expansion stable. */
  ghost predicate StyleArgsOk(n: Node)
  {
    match n
    case Seq(cs) => forall i :: 0 <= i < |cs| ==> StyleArgsOk(cs[i])
    case Macro(name, args) =>
      (IsStyling(name) ==> |args| <= 1) && forall i :: 0 <= i < |args| ==> StyleArgsOk(args[i])
    case _ => true
  }

  /** The trees expansion leaves alone. */
  ghost predicate Normal(n: Node)
  {
    Flat(n) && Settled(n)
  }

  // ---------------------------------------------------------------------
  // Splicing

  /** Splicing items that are flat, the result holds no `Seq` and only flat
      items. */
  lemma {:induction false} SpliceFlat(ns: seq<Node>)
    requires forall i :: 0 <= i < |ns| ==> Flat(ns[i])
    ensures forall j :: 0 <= j < |Splice(ns)| ==> !Splice(ns)[j].Seq? && Flat(Splice(ns)[j])
  {
    if |ns| > 0 {
      SpliceFlat(ns[..|ns| - 1]);
    }
  }

  /** Splicing settled items gives settled items. */
  lemma {:induction false} SpliceSettled(ns: seq<Node>)
    requires forall i :: 0 <= i < |ns| ==> Settled(ns[i])
    ensures forall j :: 0 <= j < |Splice(ns)| ==> Settled(Splice(ns)[j])
  {
    if |ns| > 0 {
      SpliceSettled(ns[..|ns| - 1]);
    }
  }

  /** Splicing a list without `Seq` items changes nothing. */
  lemma {:induction false} SpliceNoSeq(ns: seq<Node>)
    requires forall i :: 0 <= i < |ns| ==> !ns[i].Seq?
    ensures Splice(ns) == ns
  {
    if |ns| > 0 {
      SpliceNoSeq(ns[..|ns| - 1]);
      assert ns == ns[..|ns| - 1] + [ns[|ns| - 1]];
    }
  }

  /** Splicing one more node adds what that node contributes. */
  lemma SpliceSnoc(ns: seq<Node>, n: Node)
    ensures Splice(ns + [n]) == Splice(ns) + Spliced(n)
  {
    assert (ns + [n])[..|ns|] == ns;
  }

  /** A node is in the spliced list exactly when one of the input nodes
      contributes it: it is a child of an input `Seq`, or an input node that
      is not a `Seq`. */
  lemma {:induction false} SpliceMembers(ns: seq<Node>)
    ensures forall m :: m in Splice(ns) <==> exists i :: 0 <= i < |ns| && m in Spliced(ns[i])
  {
    if |ns| > 0 {
      var init := ns[..|ns| - 1];
      SpliceMembers(init);
      assert forall i :: 0 <= i < |init| ==> init[i] == ns[i];
      forall m | m in Splice(ns) ensures exists i :: 0 <= i < |ns| && m in Spliced(ns[i]) {
        if m !in Splice(init) {
          assert m in Spliced(ns[|ns| - 1]);
        }
      }
      forall m, i | 0 <= i < |ns| && m in Spliced(ns[i]) ensures m in Splice(ns) {
        if i < |ns| - 1 {
          assert m in Spliced(init[i]);
        }
      }
    }
  }

  lemma SpliceOne(n: Node)
    ensures Splice([n]) == Spliced(n)
  {
    assert [n][..0] == [];
  }

  /** Splicing appended lists. */
  lemma {:induction false} SpliceAppend(a: seq<Node>, b: seq<Node>)
    ensures Splice(a + b) == Splice(a) + Splice(b)
    decreases |b|
  {
    if |b| == 0 {
      assert a + b == a;
    } else {
      var init, last := b[..|b| - 1], b[|b| - 1];
      calc {
        Splice(a + b);
      == { assert (a + b)[..|a + b| - 1] == a + init && (a + b)[|a + b| - 1] == last; }
        Splice(a + init) + Spliced(last);
      == { SpliceAppend(a, init); }
        Splice(a) + Splice(init) + Spliced(last);
      }
    }
  }

  // ---------------------------------------------------------------------
  // Leaves

  /** The leaf texts of a tree, depth first. */
  function Leaves(n: Node): seq<string>
  {
    match n
    case Text(s) => [s]
    case StyledText(s, _) => [s]
    case Seq(cs) => LeavesAll(cs)
    case Macro(_, args) => LeavesAll(args)
  }

  function LeavesAll(ns: seq<Node>): seq<string>
  {
    if |ns| == 0 then [] else LeavesAll(ns[..|ns| - 1]) + Leaves(ns[|ns| - 1])
  }

  /** Splicing keeps the leaves and their order. */
  lemma {:induction false} SpliceKeepsLeaves(ns: seq<Node>)
    ensures LeavesAll(Splice(ns)) == LeavesAll(ns)
  {
    if |ns| > 0 {
      var init, last := ns[..|ns| - 1], ns[|ns| - 1];
      SpliceKeepsLeaves(init);
      LeavesAppend(Splice(init), Spliced(last));
      if !last.Seq? {
        assert LeavesAll([last]) == LeavesAll([]) + Leaves(last);
      }
    }
  }

  lemma {:induction false} LeavesAppend(a: seq<Node>, b: seq<Node>)
    ensures LeavesAll(a + b) == LeavesAll(a) + LeavesAll(b)
    decreases |b|
  {
    if |b| == 0 {
      assert a + b == a;
    } else {
      assert (a + b)[..|a + b| - 1] == a + b[..|b| - 1];
      LeavesAppend(a, b[..|b| - 1]);
    }
  }

  /** Without a styling command to collapse, expansion keeps every leaf
      text, in order. */
  lemma {:induction false} ExpandKeepsLeaves(n: Node)
    requires Settled(n)
    ensures Leaves(Expand(n)) == Leaves(n)
    decreases n
  {
    match n
    case Seq(cs) =>
      ExpandAllKeepsLeaves(cs);
      SpliceKeepsLeaves(ExpandAll(cs));
    case Macro(name, args) =>
      ExpandAllKeepsLeaves(args);
      SpliceKeepsLeaves(ExpandAll(args));
    case _ =>
  }

  lemma {:induction false} ExpandAllKeepsLeaves(ns: seq<Node>)
    requires forall i :: 0 <= i < |ns| ==> Settled(ns[i])
    ensures LeavesAll(ExpandAll(ns)) == LeavesAll(ns)
    decreases ns
  {
    if |ns| > 0 {
      ExpandAllKeepsLeaves(ns[..|ns| - 1]);
      ExpandKeepsLeaves(ns[|ns| - 1]);
      assert ExpandAll(ns)[..|ns| - 1] == ExpandAll(ns[..|ns| - 1]);
    }
  }

  // ---------------------------------------------------------------------
  // Properties of expansion

  /** Expansion yields a flat tree, whatever the input. */
  lemma {:induction false} ExpandFlat(n: Node)
    ensures Flat(Expand(n))
    decreases n
  {
    match n
    case Seq(cs) =>
      ExpandAllFlat(cs);
      SpliceFlat(ExpandAll(cs));
    case Macro(name, args) =>
      ExpandAllFlat(args);
      SpliceFlat(ExpandAll(args));
    case _ =>
  }

  lemma {:induction false} ExpandAllFlat(ns: seq<Node>)
    ensures forall i :: 0 <= i < |ns| ==> Flat(ExpandAll(ns)[i])
    decreases ns
  {
    forall i | 0 <= i < |ns| ensures Flat(ExpandAll(ns)[i]) {
      ExpandFlat(ns[i]);
    }
  }

  /** A styling command whose arguments are at most one, expanded, leaves no
      styling command with one argument behind. */
  lemma {:induction false} ExpandSettles(n: Node)
    requires StyleArgsOk(n)
    ensures Settled(Expand(n))
    decreases n
  {
    match n
    case Seq(cs) =>
      ExpandAllSettles(cs);
      SpliceSettled(ExpandAll(cs));
    case Macro(name, args) =>
      ExpandAllSettles(args);
      SpliceSettled(ExpandAll(args));
      assert |Splice(ExpandAll(args))| == 0 || !IsStyling(name) || |args| == 1 by {
        if IsStyling(name) && |args| == 0 {
          assert ExpandAll(args) == [];
        }
      }
    case _ =>
  }

  lemma {:induction false} ExpandAllSettles(ns: seq<Node>)
    requires forall i :: 0 <= i < |ns| ==> StyleArgsOk(ns[i])
    ensures forall i :: 0 <= i < |ns| ==> Settled(ExpandAll(ns)[i])
    decreases ns
  {
    forall i | 0 <= i < |ns| ensures Settled(ExpandAll(ns)[i]) {
      ExpandSettles(ns[i]);
    }
  }

  /** Expansion leaves a normal tree as it is. */
  lemma {:induction false} ExpandNormal(n: Node)
    requires Normal(n)
    ensures Expand(n) == n
    decreases n
  {
    match n
    case Seq(cs) =>
      ExpandAllNormal(cs);
      SpliceNoSeq(cs);
    case Macro(name, args) =>
      ExpandAllNormal(args);
      SpliceNoSeq(args);
    case _ =>
  }

  lemma {:induction false} ExpandAllNormal(ns: seq<Node>)
    requires forall i :: 0 <= i < |ns| ==> Normal(ns[i])
    ensures ExpandAll(ns) == ns
    decreases ns
  {
    forall i | 0 <= i < |ns| ensures ExpandAll(ns)[i] == ns[i] {
      ExpandNormal(ns[i]);
    }
  }

  /** When every styling command has at most one argument, a second
      expansion changes nothing. */
  lemma ExpandIdempotent(n: Node)
    requires StyleArgsOk(n)
    ensures Expand(Expand(n)) == Expand(n)
  {
    ExpandFlat(n);
    ExpandSettles(n);
    ExpandNormal(Expand(n));
  }

  /** A styling command with exactly one argument becomes styled text
      holding its expanded argument's plain text, bold for `\textbf` and
      italic for `\emph`. */
  lemma ExpandStyling(name: string, args: seq<Node>)
    requires IsStyling(name) && |args| == 1
    ensures Expand(Macro(name, args))
         == StyledText(CollectPlainText(Expand(args[0])), if name == "textbf" then Bold else Italic)
  {
  }

  /** Any other command keeps its name, and its arguments keep their leaf
      texts in order once expanded and spliced. */
  lemma ExpandOtherMacro(name: string, args: seq<Node>)
    requires !(IsStyling(name) && |args| == 1)
    ensures Expand(Macro(name, args)).Macro? && Expand(Macro(name, args)).name == name
    ensures Expand(Macro(name, args)).args == Splice(ExpandAll(args))
    ensures LeavesAll(Expand(Macro(name, args)).args) == LeavesAll(ExpandAll(args))
  {
    SpliceKeepsLeaves(ExpandAll(args));
  }

  // ---------------------------------------------------------------------
  // Plain text

  /** The plain text of `n` with its children's texts side by side: one
      space between every two children's texts, including an empty one. */
  lemma CollectSeqLength(cs: seq<Node>)
    requires |cs| > 0
    ensures |CollectPlainText(Seq(cs))| == Seqs.TotalLength(CollectAll(cs)) + |cs| - 1
  {
    Seqs.IntercalateLength(CollectAll(cs), ' ');
  }

  /** Where each child's text (`CollectAll(cs)[k]`, the plain text of
      `cs[k]`) sits in a `Seq`'s plain text: it starts after the texts
      before it and one space for each of them, and a space follows every
      child's text but the last. With `CollectSeqLength`, this fixes every
      character of the result. */
  lemma CollectSeqParts(cs: seq<Node>, k: nat)
    requires k < |cs|
    ensures Seqs.PartStart(CollectAll(cs), k) + |CollectAll(cs)[k]| <= |CollectPlainText(Seq(cs))|
    ensures CollectPlainText(Seq(cs))[Seqs.PartStart(CollectAll(cs), k)..Seqs.PartStart(CollectAll(cs), k) + |CollectAll(cs)[k]|]
         == CollectAll(cs)[k]
    ensures k + 1 < |cs| ==>
      Seqs.PartStart(CollectAll(cs), k) + |CollectAll(cs)[k]| < |CollectPlainText(Seq(cs))| &&
      CollectPlainText(Seq(cs))[Seqs.PartStart(CollectAll(cs), k) + |CollectAll(cs)[k]|] == ' '
  {
    var parts := CollectAll(cs);
    var t := CollectPlainText(Seq(cs));
    Seqs.JoinedParts(t, parts, ' ', k);
    if k + 1 < |cs| {
      assert t[Seqs.PartStart(parts, k) + |parts[k]|] == ' ';
    }
  }

  /** A macro child contributes an empty text, so its separators remain. */
  lemma CollectKeepsSeparatorsExample()
    ensures CollectPlainText(Seq([Text("a"), Macro("x", []), Text("b")])) == "a  b"
  {
    var cs := [Text("a"), Macro("x", []), Text("b")];
    assert CollectAll(cs) == ["a", "", "b"];
    assert ["a", "", "b"] == ["a", ""] + ["b"];
    Seqs.IntercalateSnoc(["a", ""], "b", ' ');
    Seqs.IntercalateSnoc(["a"], "", ' ');
  }

  /** Without that condition a second expansion can change the tree: the
      empty group is spliced away, leaving `\textbf` with one argument,
      which only the second pass collapses. */
  lemma NotIdempotentInGeneral(x: string)
    ensures var t := Macro("textbf", [Seq([]), Text(x)]);
            Expand(t) == Macro("textbf", [Text(x)]) &&
            Expand(Expand(t)) == StyledText(x, Bold)
  {
    var empty, a := Seq([]), Text(x);
    assert Expand(empty) == empty by {
      assert ExpandAll([]) == [];
    }
    assert ExpandAll([empty, a]) == [empty, a];
    assert Splice([empty, a]) == [a] by {
      SpliceAppend([empty], [a]);
      SpliceOne(empty);
      SpliceOne(a);
      assert [empty, a] == [empty] + [a];
    }
    ExpandOtherMacro("textbf", [empty, a]);
    assert ExpandAll([a]) == [a];
    ExpandStyling("textbf", [a]);
  }

  // ---------------------------------------------------------------------
  // Examples

  /** A sequence of normal children is expanded by splicing alone. */
  lemma ExpandSeqOfNormal(cs: seq<Node>)
    requires forall i :: 0 <= i < |cs| ==> Normal(cs[i])
    ensures Expand(Seq(cs)) == Seq(Splice(cs))
  {
    ExpandAllNormal(cs);
  }

  /** Nested sequences are spliced into their parent, leaves in order. */
  lemma ExpandFlattensExample(a: string, b: string, c: string, d: string)
    ensures Expand(Seq([Text(a), Seq([Text(b), Text(c)]), Text(d)]))
         == Seq([Text(a), Text(b), Text(c), Text(d)])
  {
    var inner := Seq([Text(b), Text(c)]);
    var cs := [Text(a), inner, Text(d)];
    assert Splice(cs) == [Text(a), Text(b), Text(c), Text(d)] by {
      assert cs == [Text(a), inner] + [Text(d)];
      SpliceAppend([Text(a), inner], [Text(d)]);
      assert [Text(a), inner] == [Text(a)] + [inner];
      SpliceAppend([Text(a)], [inner]);
      SpliceOne(Text(a));
      SpliceOne(inner);
      SpliceOne(Text(d));
    }
    assert Normal(inner);
    ExpandSeqOfNormal(cs);
  }

  /** An unknown command keeps its name; its group argument is spliced. */
  lemma ExpandRecursesExample(x: string)
    ensures Expand(Macro("cmd", [Seq([Text(x)])])) == Macro("cmd", [Text(x)])
  {
    assert !IsStyling("cmd");
    OtherMacroOfGroup("cmd", x);
  }

  /** A command that is not a styling command keeps its name, and its one
      group argument holding a text is replaced by that text. */
  lemma OtherMacroOfGroup(name: string, x: string)
    requires !IsStyling(name)
    ensures Expand(Macro(name, [Seq([Text(x)])])) == Macro(name, [Text(x)])
  {
    var arg := Seq([Text(x)]);
    ExpandOtherMacro(name, [arg]);
    ExpandGroupOfText(x);
    SpliceOne(arg);
  }

  /** A group holding one text is already expanded. */
  lemma ExpandGroupOfText(x: string)
    ensures ExpandAll([Seq([Text(x)])]) == [Seq([Text(x)])]
  {
    ExpandNormal(Seq([Text(x)]));
  }

  /** A `\textbf` group of one text becomes that text in bold. */
  lemma BoldGroup(s: string)
    ensures Expand(Macro("textbf", [Seq([Text(s)])])) == StyledText(s, Bold)
  {
    var arg := Seq([Text(s)]);
    ExpandGroupOfText(s);
    assert CollectPlainText(arg) == s by {
      assert CollectAll([Text(s)]) == [s];
    }
    assert IsStyling("textbf") && StyleOf("textbf") == Bold;
  }

  /** `\textbf{Bold}` as parsed becomes one bold run. */
  lemma ExpandBoldExample(s: string)
    ensures Expand(Seq([Macro("textbf", [Seq([Text(s)])])])) == Seq([StyledText(s, Bold)])
  {
    var m := Macro("textbf", [Seq([Text(s)])]);
    var st := StyledText(s, Bold);
    calc {
      Expand(Seq([m]));
      Seq(Splice(ExpandAll([m])));
    == { assert ExpandAll([m]) == [Expand(m)]; BoldGroup(s); }
      Seq(Splice([st]));
    == { SpliceOne(st); }
      Seq([st]);
    }
  }
}
