/** How many nodes fit the text segment: the code of a line against the number of its nodes. */
module FinshLimits {
  import opened FinshWord
  import opened FinshTree
  import opened FinshExpr
  import opened FinshVm

  // ----- an upper bound for every tree -----

  /** Two nodes make at most 23 bytes, an increment behind its variable; a single node makes
      at most 5. */
  function TreeBound(n: nat): nat {
    n / 2 * 23 + n % 2 * 5
  }

  lemma BoundsAdd(a: nat, b: nat)
    ensures TreeBound(a) + TreeBound(b) <= TreeBound(a + b)
    ensures TreeBound(a) + 5 <= TreeBound(a + 1)
    ensures TreeBound(a) + 23 == TreeBound(a + 2)
  {
  }

  lemma OwnBound(info: Info, c: Tree)
    ensures |Own(info, c)| <= 5 || (|Own(info, c)| <= 18 && c.Node? && c.info.kind.Id?)
  {
  }

  /** Whatever its nodes are, typed or not. */
  lemma {:induction false} CodeBound(t: Tree)
    ensures |Code(t)| <= TreeBound(Count(t))
    decreases t
  {
    hide TreeBound, Own;
    match t
    case Nil =>
      BoundsAdd(0, 0);
    case Node(_, info, c, s) =>
      CodeBound(c);
      CodeBound(s);
      OwnBound(info, c);
      BoundsAdd(Count(c), Count(s));
      BoundsAdd(Count(c) + Count(s), 0);
      if |Own(info, c)| > 5 {
        CodeBound(c.child);
        CodeBound(c.sibling);
        IdCode(c);
        var n := Count(c.child) + Count(c.sibling);
        BoundsAdd(Count(c.child), Count(c.sibling));
        BoundsAdd(n, Count(s));
        BoundsAdd(n + Count(s), 0);
      }
  }

  lemma IdCode(t: Tree)
    requires t.Node? && t.info.kind.Id?
    ensures |Code(t)| == |Code(t.child)| + 5 + |Code(t.sibling)|
  {
  }

  /** The longest code of a line of n nodes: increments with pops between them, and a constant
      if one node is left over. */
  function LineBound(n: nat): nat {
    if n == 0 then 0 else 12 * n - 1 - n % 2 * 6
  }

  lemma StatementBound(n: nat, m: nat)
    requires n > 0
    ensures TreeBound(n) <= LineBound(n)
    ensures m > 0 ==> LineBound(n) + 1 + LineBound(m) <= LineBound(n + m)
  {
  }

  lemma {:induction false} ProgramBound(t: Tree)
    ensures |ProgramCode(t)| <= LineBound(Count(t))
    decreases t
  {
    hide TreeBound, LineBound, Code;
    match t
    case Nil =>
    case Node(at, info, c, s) =>
      var x := Node(at, info, c, Nil);
      CodeBound(x);
      ProgramBound(s);
      assert Count(t) == Count(x) + Count(s);
      StatementBound(Count(x), Count(s));
      if s.Nil? { assert Count(s) == 0; } else { assert Count(s) > 0; }
  }

  // ----- lines that reach it -----

  function Longest(n: nat, a: Word): seq<Expr> {
    if n == 0 then [] else if n == 1 then [Const(IntLit, a)] else [PostInc(a)] + Longest(n - 2, a)
  }

  lemma {:induction false} LongestIs(n: nat, a: Word)
    ensures WellTypedAll(Longest(n, a)) && NodesAll(Longest(n, a)) == n
    ensures |StatementsCode(Longest(n, a))| == LineBound(n)
    ensures n > 0 ==> Longest(n, a) != []
  {
    if n == 1 {
      SingleLine(Const(IntLit, a));
    } else if n > 1 {
      LongestIs(n - 2, a);
      MoreStatements(PostInc(a), Longest(n - 2, a));
      IncrementSize(a);
    }
  }

  lemma SingleLine(e: Expr)
    requires WellTyped(e)
    ensures WellTypedAll([e]) && NodesAll([e]) == Nodes(e) && StatementsCode([e]) == ExprCode(e)
  {
    hide WellTyped, Nodes, ExprCode;
    var p := [e];
    assert p[0] == e && p[1..] == [];
    assert WellTypedAll(p[1..]) && NodesAll(p[1..]) == 0;
    assert ExprCode(e) + [] == ExprCode(e);
  }

  lemma MoreStatements(e: Expr, rest: seq<Expr>)
    requires WellTyped(e) && WellTypedAll(rest)
    ensures WellTypedAll([e] + rest) && NodesAll([e] + rest) == Nodes(e) + NodesAll(rest)
    ensures |StatementsCode([e] + rest)| == |ExprCode(e)| + if rest == [] then 0 else 1 + |StatementsCode(rest)|
  {
    hide WellTyped, Nodes, ExprCode;
    var p := [e] + rest;
    assert p[0] == e && p[1..] == rest;
    assert |p| == 1 <==> rest == [];
  }

  lemma IncrementSize(a: Word)
    ensures |ExprCode(PostInc(a))| == 23 && Nodes(PostInc(a)) == 2 && WellTyped(PostInc(a))
  {
  }

  lemma {:induction false} CountChecked(t: Tree, isAddr: bool)
    ensures Count(TypeCheck(t, isAddr)) == Count(t)
  {
    if t.Node? {
      CountChecked(t.child, ChildIsAddr(t.info.kind, isAddr));
      CountChecked(t.sibling, false);
    }
  }

  // ----- the node limit -----

  function CompiledSize(t: Tree): nat {
    |ProgramCode(TypeCheck(t, false))|
  }

  /** Every line of at most n nodes fits a text segment of this size. */
  ghost predicate AllFit(n: nat, size: nat) {
    forall t :: Count(t) <= n ==> CompiledSize(t) <= size
  }

  /** A bound on the nodes keeps the code in the text segment if and only if the longest line
      of that many nodes fits. For the 128 bytes of FINSH_TEXT_MAX the bound is 11 nodes, less
      than FINSH_NODE_MAX. */
  lemma NodeLimitForText(n: nat, size: nat)
    ensures AllFit(n, size) <==> LineBound(n) <= size
    ensures AllFit(n, FINSH_TEXT_MAX) <==> n <= 11
  {
    assert LineBound(n) <= FINSH_TEXT_MAX <==> n <= 11;
    FitExactly(n, size);
    FitExactly(n, FINSH_TEXT_MAX);
  }

  lemma FitExactly(n: nat, size: nat)
    ensures AllFit(n, size) <==> LineBound(n) <= size
  {
    hide LineBound, CompiledSize;
    if LineBound(n) <= size {
      forall t | Count(t) <= n ensures CompiledSize(t) <= size {
        SizeBound(t, n);
      }
    }
    var prog := Longest(n, 0);
    LongestCompiles(n, 0);
    var t := EncodeAll(prog);
    assert AllFit(n, size) ==> CompiledSize(t) <= size;
  }

  lemma SizeBound(t: Tree, n: nat)
    requires Count(t) <= n
    ensures CompiledSize(t) <= LineBound(n)
  {
    hide LineBound;
    CountChecked(t, false);
    ProgramBound(TypeCheck(t, false));
    BoundGrows(Count(t), n);
  }

  lemma BoundGrows(n: nat, m: nat)
    requires n <= m
    ensures LineBound(n) <= LineBound(m)
  {
  }

  lemma LongestCompiles(n: nat, a: Word)
    ensures Count(EncodeAll(Longest(n, a))) == n && CompiledSize(EncodeAll(Longest(n, a))) == LineBound(n)
  {
    hide Longest, LineBound;
    LongestIs(n, a);
    CountEncodeAll(Longest(n, a));
    CodeOfProgram(Longest(n, a));
  }
}
