/** The dword expression language of FinSH: its meaning by direct left-to-right evaluation,
    and the node trees that the parser builds for it. */
module FinshExpr {
  import opened FinshWord
  import opened FinshTree

  /** The memory that loads and stores reach, one `long` per address. */
  type Memory = map<Word, Word>

  function Load(m: Memory, a: Word): Word {
    if a in m then m[a] else 0
  }

  /** The exported functions, by address: they take arguments and memory and may change memory. */
  type Syscalls = (Word, seq<Word>, Memory) -> (Word, Memory)

  /** The constants of the parser with four bytes: 1, 1L, a string by its address, and NULL. */
  datatype Literal = IntLit | LongLit | StringLit | NullLit

  function LiteralKind(lit: Literal): Kind {
    match lit
    case IntLit => ValueInt
    case LongLit => ValueLong
    case StringLit => ValueString
    case NullLit => ValueNull
  }

  datatype Expr =
    | Const(lit: Literal, w: Word)
    | Var(a: Word)
    | AddrOf(a: Word)
    | Bin(op: BinOp, left: Expr, right: Expr)
    | Not(e: Expr)
    | Deref(e: Expr)
    | Assign(a: Word, e: Expr)
    | Store(p: Expr, e: Expr)
    | PreInc(a: Word)
    | PreDec(a: Word)
    | PostInc(a: Word)
    | PostDec(a: Word)
    | Func(f: Word)
    | Call(fn: Expr, args: seq<Expr>)

  // ----- meaning -----

  /** A function without parameters is called with a single 0 (finsh_ops.c:468-470). */
  function Actuals(vs: seq<Word>): seq<Word> {
    if vs == [] then [0] else vs
  }

  function Eval(calls: Syscalls, e: Expr, m: Memory): (Word, Memory)
    decreases e, 1
  {
    match e
    case Const(_, w) => (w, m)
    case Var(a) => (Load(m, a), m)
    case AddrOf(a) => (a, m)
    case Bin(op, l, r) =>
      var (x, m1) := Eval(calls, l, m);
      var (y, m2) := Eval(calls, r, m1);
      (Alu(op, x, y), m2)
    case Not(e1) =>
      var (x, m1) := Eval(calls, e1, m);
      (Complement(x), m1)
    case Deref(e1) =>
      var (x, m1) := Eval(calls, e1, m);
      (Load(m1, x), m1)
    case Assign(a, e1) =>
      var (x, m1) := Eval(calls, e1, m);
      (x, m1[a := x])
    case Store(p, e1) =>
      var (a, m1) := Eval(calls, p, m);
      var (x, m2) := Eval(calls, e1, m1);
      (x, m2[a := x])
    case PreInc(a) => var x := ToWord(Load(m, a) + 1); (x, m[a := x])
    case PreDec(a) => var x := ToWord(Load(m, a) - 1); (x, m[a := x])
    case PostInc(a) => var x := Load(m, a); (x, m[a := ToWord(x + 1)])
    case PostDec(a) => var x := Load(m, a); (x, m[a := ToWord(x - 1)])
    case Func(f) => (f, m)
    case Call(fn, args) =>
      var (f, m1) := Eval(calls, fn, m);
      var (vs, m2) := EvalArgs(calls, args, m1);
      calls(f, Actuals(vs), m2)
  }

  function EvalArgs(calls: Syscalls, args: seq<Expr>, m: Memory): (r: (seq<Word>, Memory))
    ensures |r.0| == |args|
    decreases args, 0
  {
    if args == [] then ([], m)
    else
      var (v, m1) := Eval(calls, args[0], m);
      var (vs, m2) := EvalArgs(calls, args[1..], m1);
      ([v] + vs, m2)
  }

  /** A line of statements yields the value of its last one. */
  function EvalProgram(calls: Syscalls, prog: seq<Expr>, m: Memory): (Word, Memory)
    requires prog != []
  {
    var (v, m1) := Eval(calls, prog[0], m);
    if |prog| == 1 then (v, m1) else EvalProgram(calls, prog[1..], m1)
  }

  // ----- trees (finsh_parser.c: make_sys_node and the finsh_node_new functions) -----

  function Leaf(kind: Kind, idType: IdType, w: Word, sib: Tree): Tree {
    Node(0, Info(kind, idType, false, Void, w), Nil, sib)
  }

  function Sys(kind: Kind, child: Tree, sib: Tree): Tree {
    Node(0, Info(kind, NoId, false, Void, 0), child, sib)
  }

  function Encode(e: Expr, sib: Tree): Tree
    decreases e, 1
  {
    match e
    case Const(lit, w) => Leaf(LiteralKind(lit), NoId, w, sib)
    case Var(a) => Leaf(Id, VarId, a, sib)
    case AddrOf(a) => Sys(SysGetAddr, Leaf(Id, VarId, a, Nil), sib)
    case Bin(op, l, r) => Sys(SysBin(op), Encode(l, Encode(r, Nil)), sib)
    case Not(e1) => Sys(SysBitwise, Encode(e1, Nil), sib)
    case Deref(e1) => Sys(SysGetValue, Encode(e1, Nil), sib)
    case Assign(a, e1) => Sys(SysAssign, Leaf(Id, VarId, a, Encode(e1, Nil)), sib)
    case Store(p, e1) => Sys(SysAssign, Sys(SysGetValue, Encode(p, Nil), Encode(e1, Nil)), sib)
    case PreInc(a) => Sys(SysPreInc, Leaf(Id, VarId, a, Nil), sib)
    case PreDec(a) => Sys(SysPreDec, Leaf(Id, VarId, a, Nil), sib)
    case PostInc(a) => Sys(SysInc, Leaf(Id, VarId, a, Nil), sib)
    case PostDec(a) => Sys(SysDec, Leaf(Id, VarId, a, Nil), sib)
    case Func(f) => Leaf(Id, SyscallId, f, sib)
    case Call(fn, args) => Sys(SysFunc, Encode(fn, EncodeAll(args)), sib)
  }

  /** A chain of siblings: the arguments of a call or the statements of a line. */
  function EncodeAll(es: seq<Expr>): Tree
    decreases es, 0
  {
    if es == [] then Nil else Encode(es[0], EncodeAll(es[1..]))
  }

  /** Tree nodes that an expression occupies. */
  function Nodes(e: Expr): (n: nat)
    ensures n >= 1
    decreases e, 1
  {
    match e
    case Const(_, _) => 1
    case Var(_) => 1
    case AddrOf(_) => 2
    case Bin(_, l, r) => 1 + Nodes(l) + Nodes(r)
    case Not(e1) => 1 + Nodes(e1)
    case Deref(e1) => 1 + Nodes(e1)
    case Assign(_, e1) => 2 + Nodes(e1)
    case Store(p, e1) => 2 + Nodes(p) + Nodes(e1)
    case PreInc(_) => 2
    case PreDec(_) => 2
    case PostInc(_) => 2
    case PostDec(_) => 2
    case Func(_) => 1
    case Call(fn, args) => 1 + Nodes(fn) + NodesAll(args)
  }

  function NodesAll(es: seq<Expr>): (n: nat)
    ensures n >= |es|
    decreases es, 0
  {
    if es == [] then 0 else Nodes(es[0]) + NodesAll(es[1..])
  }

  lemma CountParts(kind: Kind, idType: IdType, w: Word, c: Tree, sib: Tree)
    ensures Count(Leaf(kind, idType, w, sib)) == 1 + Count(sib)
    ensures Count(Sys(kind, c, sib)) == 1 + Count(c) + Count(sib)
    ensures Count(Nil) == 0
  {
  }

  lemma {:induction false} CountEncode(e: Expr, sib: Tree)
    ensures Count(Encode(e, sib)) == Nodes(e) + Count(sib)
    decreases e, 1
  {
    match e
    case Const(lit, w) => CountParts(LiteralKind(lit), NoId, w, Nil, sib);
    case Var(a) => CountParts(Id, VarId, a, Nil, sib);
    case AddrOf(a) => CountParts(Id, VarId, a, Nil, Nil);
    case Bin(op, l, r) => CountEncode(r, Nil); CountEncode(l, Encode(r, Nil));
    case Not(e1) => CountEncode(e1, Nil);
    case Deref(e1) => CountEncode(e1, Nil);
    case Assign(a, e1) => CountEncode(e1, Nil); CountParts(Id, VarId, a, Nil, Encode(e1, Nil));
    case Store(p, e1) =>
      CountEncode(p, Nil);
      CountEncode(e1, Nil);
      CountParts(SysGetValue, NoId, 0, Encode(p, Nil), Encode(e1, Nil));
    case PreInc(a) => CountParts(Id, VarId, a, Nil, Nil);
    case PreDec(a) => CountParts(Id, VarId, a, Nil, Nil);
    case PostInc(a) => CountParts(Id, VarId, a, Nil, Nil);
    case PostDec(a) => CountParts(Id, VarId, a, Nil, Nil);
    case Func(f) => CountParts(Id, SyscallId, f, Nil, sib);
    case Call(fn, args) => CountEncodeAll(args); CountEncode(fn, EncodeAll(args));
  }

  lemma {:induction false} CountEncodeAll(es: seq<Expr>)
    ensures Count(EncodeAll(es)) == NodesAll(es)
    decreases es, 0
  {
    if es != [] {
      CountEncodeAll(es[1..]);
      CountEncode(es[0], EncodeAll(es[1..]));
    }
  }

  // ----- which expressions the type check gives a data type -----

  /** The node of e ends up with data type dword: a node takes the type of its child, and a
      function identifier has none, so a call of it has none either (finsh_compiler.c:791-795). */
  predicate HasType(e: Expr) {
    match e
    case Func(_) => false
    case Call(fn, _) => HasType(fn)
    case Bin(_, l, _) => HasType(l)
    case Not(e1) => HasType(e1)
    case Deref(e1) => HasType(e1)
    case Store(p, _) => HasType(p)
    case _ => true
  }

  /** Every operator has a typed first operand. */
  predicate WellTyped(e: Expr)
    decreases e, 1
  {
    match e
    case Bin(_, l, r) => WellTyped(l) && WellTyped(r) && HasType(l)
    case Not(e1) => WellTyped(e1) && HasType(e1)
    case Deref(e1) => WellTyped(e1) && HasType(e1)
    case Assign(_, e1) => WellTyped(e1)
    case Store(p, e1) => WellTyped(p) && HasType(p) && WellTyped(e1)
    case Call(fn, args) => WellTyped(fn) && WellTypedAll(args)
    case _ => true
  }

  predicate WellTypedAll(es: seq<Expr>)
    decreases es, 0
  {
    es == [] || (WellTyped(es[0]) && WellTypedAll(es[1..]))
  }

  /** No call has more arguments than OP_call can pass on. */
  predicate CallsFit(e: Expr)
    decreases e, 1
  {
    match e
    case Bin(_, l, r) => CallsFit(l) && CallsFit(r)
    case Not(e1) => CallsFit(e1)
    case Deref(e1) => CallsFit(e1)
    case Assign(_, e1) => CallsFit(e1)
    case Store(p, e1) => CallsFit(p) && CallsFit(e1)
    case Call(fn, args) => |args| <= 16 && CallsFit(fn) && CallsFitAll(args)
    case _ => true
  }

  predicate CallsFitAll(es: seq<Expr>)
    decreases es, 0
  {
    es == [] || (CallsFit(es[0]) && CallsFitAll(es[1..]))
  }

  /** The node table is too small for a call with too many arguments. */
  lemma {:induction false} FewNodesFitCalls(e: Expr)
    requires Nodes(e) <= 18
    ensures CallsFit(e)
    decreases e, 1
  {
    match e
    case Bin(_, l, r) => FewNodesFitCalls(l); FewNodesFitCalls(r);
    case Not(e1) => FewNodesFitCalls(e1);
    case Deref(e1) => FewNodesFitCalls(e1);
    case Assign(_, e1) => FewNodesFitCalls(e1);
    case Store(p, e1) => FewNodesFitCalls(p); FewNodesFitCalls(e1);
    case Call(fn, args) => FewNodesFitCalls(fn); FewNodesFitCallsAll(args);
    case _ =>
  }

  lemma {:induction false} FewNodesFitCallsAll(es: seq<Expr>)
    requires NodesAll(es) <= 18
    ensures CallsFitAll(es)
    decreases es, 0
  {
    if es != [] {
      FewNodesFitCalls(es[0]);
      FewNodesFitCallsAll(es[1..]);
    }
  }

  // ----- the code of an expression -----

  function If(b: bool, code: seq<Byte>): seq<Byte> {
    if b then code else []
  }

  /** The bytes of a node whose only child is a variable. */
  function VarNodeCode(kind: Kind, a: Word): seq<Byte> {
    match kind
    case SysPreInc => Bump(a, Add) + [OP_LD_VALUE_DWORD_STACK]
    case SysPreDec => Bump(a, Sub) + [OP_LD_VALUE_DWORD_STACK]
    case SysInc => [OP_LD_DWORD] + Put32(a) + Bump(a, Add) + [OP_POP]
    case SysDec => [OP_LD_DWORD] + Put32(a) + Bump(a, Sub) + [OP_POP]
    case _ => []
  }

  /** An operator is left out if its first operand has no data type (finsh_compiler.c:217-284). */
  function ExprCode(e: Expr): seq<Byte>
    decreases e, 1
  {
    match e
    case Const(_, w) => [OP_LD_DWORD] + Put32(w)
    case Var(a) => [OP_LD_VALUE_DWORD] + Put32(a)
    case AddrOf(a) => [OP_LD_DWORD] + Put32(a)
    case Bin(op, l, r) => ExprCode(l) + ExprCode(r) + If(HasType(l), [OpCode(op)])
    case Not(e1) => ExprCode(e1) + If(HasType(e1), [OP_BITWISE_DWORD])
    case Deref(e1) => ExprCode(e1) + If(HasType(e1), [OP_LD_VALUE_DWORD_STACK])
    case Assign(a, e1) => [OP_LD_DWORD] + Put32(a) + ExprCode(e1) + [OP_ST_DWORD, OP_LD_VALUE_DWORD_STACK]
    case Store(p, e1) => ExprCode(p) + ExprCode(e1) + If(HasType(p), [OP_ST_DWORD, OP_LD_VALUE_DWORD_STACK])
    case PreInc(a) => [OP_LD_DWORD] + Put32(a) + VarNodeCode(SysPreInc, a)
    case PreDec(a) => [OP_LD_DWORD] + Put32(a) + VarNodeCode(SysPreDec, a)
    case PostInc(a) => [OP_LD_VALUE_DWORD] + Put32(a) + VarNodeCode(SysInc, a)
    case PostDec(a) => [OP_LD_VALUE_DWORD] + Put32(a) + VarNodeCode(SysDec, a)
    case Func(f) => [OP_LD_DWORD] + Put32(f)
    case Call(fn, args) => ExprCode(fn) + ArgsCode(args) + [OP_SYSCALL, |args| % 256]
  }

  function ArgsCode(es: seq<Expr>): seq<Byte>
    decreases es, 0
  {
    if es == [] then [] else ExprCode(es[0]) + ArgsCode(es[1..])
  }

  lemma {:induction false} ChainOfChecked(t: Tree, isAddr: bool)
    ensures ChainLength(TypeCheck(t, isAddr)) == ChainLength(t)
  {
    if t.Node? { ChainOfChecked(t.sibling, false); }
  }

  lemma {:induction false} SiblingOfEncode(e: Expr, sib: Tree)
    ensures Encode(e, sib).Node? && Encode(e, sib).sibling == sib
  {
    match e
    case _ =>
  }

  lemma {:induction false} ChainOfEncodeAll(es: seq<Expr>)
    ensures ChainLength(EncodeAll(es)) == |es|
  {
    if es != [] {
      SiblingOfEncode(es[0], EncodeAll(es[1..]));
      ChainOfEncodeAll(es[1..]);
    }
  }

  /** Type check and code of a system node, one level unfolded. */
  lemma CheckSys(kind: Kind, c: Tree, sib: Tree, isAddr: bool)
    ensures TypeCheck(Sys(kind, c, sib), isAddr)
         == var c' := TypeCheck(c, ChildIsAddr(kind, isAddr));
            Node(0, Attributes(Info(kind, NoId, false, Void, 0), isAddr, c'), c', TypeCheck(sib, false))
  {
  }

  lemma CheckLeaf(kind: Kind, idType: IdType, w: Word, sib: Tree, isAddr: bool)
    ensures TypeCheck(Leaf(kind, idType, w, sib), isAddr)
         == Node(0, Attributes(Info(kind, idType, false, Void, w), isAddr, Nil), Nil, TypeCheck(sib, false))
  {
    assert TypeCheck(Nil, ChildIsAddr(kind, isAddr)) == Nil;
  }

  /** The type check types a node exactly when `HasType` says so. */
  lemma {:induction false} TypeOfEncode(e: Expr, sib: Tree)
    ensures TypeCheck(Encode(e, sib), false).Node?
    ensures TypeCheck(Encode(e, sib), false).info.dataType.Dword? <==> HasType(e)
    decreases e
  {
    match e
    case Const(lit, w) => CheckLeaf(LiteralKind(lit), NoId, w, sib, false);
    case Var(_) =>
    case AddrOf(a) => CheckLeaf(Id, VarId, a, Nil, true);
    case Bin(_, l, r) => TypeOfEncode(l, Encode(r, Nil));
    case Not(e1) => TypeOfEncode(e1, Nil);
    case Deref(e1) => TypeOfEncode(e1, Nil);
    case Assign(a, e1) => CheckLeaf(Id, VarId, a, Encode(e1, Nil), true);
    case Store(p, e1) =>
      TypeOfEncode(p, Nil);
      CheckSys(SysGetValue, Encode(p, Nil), Encode(e1, Nil), true);
    case PreInc(a) => CheckLeaf(Id, VarId, a, Nil, true);
    case PreDec(a) => CheckLeaf(Id, VarId, a, Nil, true);
    case PostInc(a) => CheckLeaf(Id, VarId, a, Nil, false);
    case PostDec(a) => CheckLeaf(Id, VarId, a, Nil, false);
    case Func(f) => CheckLeaf(Id, SyscallId, f, sib, false);
    case Call(fn, args) => TypeOfEncode(fn, EncodeAll(args));
  }

  /** The three parts of a node's code. */
  lemma CodeSys(kind: Kind, c: Tree, sib: Tree) returns (info: Info, c': Tree)
    ensures c' == TypeCheck(c, ChildIsAddr(kind, false))
    ensures info == Attributes(Info(kind, NoId, false, Void, 0), false, c')
    ensures Code(TypeCheck(Sys(kind, c, sib), false)) == Code(c') + Own(info, c') + Code(TypeCheck(sib, false))
  {
    c' := TypeCheck(c, ChildIsAddr(kind, false));
    info := Attributes(Info(kind, NoId, false, Void, 0), false, c');
    CheckSys(kind, c, sib, false);
  }

  lemma CodeLeaf(kind: Kind, idType: IdType, w: Word, sib: Tree, isAddr: bool)
    requires kind in {Id, ValueInt, ValueLong, ValueString, ValueNull}
    ensures Code(TypeCheck(Leaf(kind, idType, w, sib), isAddr))
         == [if kind == Id && !idType.SyscallId? && !isAddr then OP_LD_VALUE_DWORD else OP_LD_DWORD]
            + Put32(w) + Code(TypeCheck(sib, false))
  {
    CheckLeaf(kind, idType, w, sib, isAddr);
    assert Code(Nil) == [];
    var info := Attributes(Info(kind, idType, false, Void, w), isAddr, Nil);
    assert [] + Own(info, Nil) == Own(info, Nil);
  }

  /** The tree walk over an expression's nodes emits the expression's code and then goes
      on with its sibling. */
  lemma {:induction false} CodeOfEncode(e: Expr, sib: Tree)
    ensures Code(TypeCheck(Encode(e, sib), false)) == ExprCode(e) + Code(TypeCheck(sib, false))
    decreases e, 1
  {
    match e
    case Const(_, _) => CodeOfLeafExpr(e, sib);
    case Var(_) => CodeOfLeafExpr(e, sib);
    case Func(_) => CodeOfLeafExpr(e, sib);
    case AddrOf(_) => CodeOfVarExpr(e, sib);
    case Bin(op, l, r) =>
      CodeOfEncode(r, Nil);
      CodeOfEncode(l, Encode(r, Nil));
      CodeOfBin(op, l, r, sib);
    case Not(e1) =>
      CodeOfEncode(e1, Nil);
      CodeOfUnary(e, sib);
    case Deref(e1) =>
      CodeOfEncode(e1, Nil);
      CodeOfUnary(e, sib);
    case Assign(a, e1) =>
      CodeOfEncode(e1, Nil);
      CodeOfAssign(a, e1, sib);
    case Store(p, e1) =>
      CodeOfEncode(p, Nil);
      CodeOfEncode(e1, Nil);
      CodeOfStore(p, e1, sib);
    case PreInc(_) => CodeOfVarExpr(e, sib);
    case PreDec(_) => CodeOfVarExpr(e, sib);
    case PostInc(_) => CodeOfVarExpr(e, sib);
    case PostDec(_) => CodeOfVarExpr(e, sib);
    case Call(fn, args) =>
      CodeOfEncodeAll(args);
      CodeOfEncode(fn, EncodeAll(args));
      CodeOfCall(fn, args, sib);
  }

  lemma CodeOfVarNode(kind: Kind, a: Word, sib: Tree)
    requires kind in {SysGetAddr, SysPreInc, SysPreDec, SysInc, SysDec}
    ensures Code(TypeCheck(Sys(kind, Leaf(Id, VarId, a, Nil), sib), false))
         == [if kind in {SysInc, SysDec} then OP_LD_VALUE_DWORD else OP_LD_DWORD] + Put32(a)
            + VarNodeCode(kind, a) + Code(TypeCheck(sib, false))
  {
    var info, c' := CodeSys(kind, Leaf(Id, VarId, a, Nil), sib);
    CodeLeaf(Id, VarId, a, Nil, ChildIsAddr(kind, false));
    CheckLeaf(Id, VarId, a, Nil, ChildIsAddr(kind, false));
    var load: seq<Byte> := [if kind in {SysInc, SysDec} then OP_LD_VALUE_DWORD else OP_LD_DWORD] + Put32(a);
    NothingAfter(load);
    assert Code(c') == load;
    assert Own(info, c') == VarNodeCode(kind, a);
  }

  lemma CodeOfVarExpr(e: Expr, sib: Tree)
    requires e.AddrOf? || e.PreInc? || e.PreDec? || e.PostInc? || e.PostDec?
    ensures Code(TypeCheck(Encode(e, sib), false)) == ExprCode(e) + Code(TypeCheck(sib, false))
  {
    match e
    case AddrOf(a) => CodeOfVarNode(SysGetAddr, a, sib); NothingAfter([OP_LD_DWORD] + Put32(a));
    case PreInc(a) => CodeOfVarNode(SysPreInc, a, sib);
    case PreDec(a) => CodeOfVarNode(SysPreDec, a, sib);
    case PostInc(a) => CodeOfVarNode(SysInc, a, sib);
    case PostDec(a) => CodeOfVarNode(SysDec, a, sib);
  }

  lemma CodeOfLeafExpr(e: Expr, sib: Tree)
    requires e.Const? || e.Var? || e.Func?
    ensures Code(TypeCheck(Encode(e, sib), false)) == ExprCode(e) + Code(TypeCheck(sib, false))
  {
    match e
    case Const(lit, w) => CodeLeaf(LiteralKind(lit), NoId, w, sib, false);
    case Var(a) => CodeLeaf(Id, VarId, a, sib, false);
    case Func(f) => CodeLeaf(Id, SyscallId, f, sib, false);
  }

  lemma NothingAfter(code: seq<Byte>)
    ensures code + Code(TypeCheck(Nil, false)) == code
    ensures code + [] == code
  {
  }

  lemma CodeOfUnaryNode(kind: Kind, op: Byte, e1: Expr, sib: Tree)
    requires (kind == SysBitwise && op == OP_BITWISE_DWORD) || (kind == SysGetValue && op == OP_LD_VALUE_DWORD_STACK)
    requires Code(TypeCheck(Encode(e1, Nil), false)) == ExprCode(e1) + Code(TypeCheck(Nil, false))
    ensures Code(TypeCheck(Sys(kind, Encode(e1, Nil), sib), false))
         == ExprCode(e1) + If(HasType(e1), [op]) + Code(TypeCheck(sib, false))
  {
    hide Encode, ExprCode, TypeCheck, Code, HasType;
    TypeOfEncode(e1, Nil);
    NothingAfter(ExprCode(e1));
    var info, c' := CodeSys(kind, Encode(e1, Nil), sib);
    assert Own(info, c') == If(HasType(e1), [op]);
  }

  lemma CodeOfUnary(e: Expr, sib: Tree)
    requires e.Not? || e.Deref?
    requires Code(TypeCheck(Encode(e.e, Nil), false)) == ExprCode(e.e) + Code(TypeCheck(Nil, false))
    ensures Code(TypeCheck(Encode(e, sib), false)) == ExprCode(e) + Code(TypeCheck(sib, false))
  {
    hide TypeCheck, Code, HasType;
    match e
    case Not(e1) => CodeOfUnaryNode(SysBitwise, OP_BITWISE_DWORD, e1, sib);
    case Deref(e1) => CodeOfUnaryNode(SysGetValue, OP_LD_VALUE_DWORD_STACK, e1, sib);
  }

  lemma CodeOfBin(op: BinOp, l: Expr, r: Expr, sib: Tree)
    requires Code(TypeCheck(Encode(r, Nil), false)) == ExprCode(r) + Code(TypeCheck(Nil, false))
    requires Code(TypeCheck(Encode(l, Encode(r, Nil)), false)) == ExprCode(l) + Code(TypeCheck(Encode(r, Nil), false))
    ensures Code(TypeCheck(Encode(Bin(op, l, r), sib), false)) == ExprCode(Bin(op, l, r)) + Code(TypeCheck(sib, false))
  {
    var info, c' := CodeSys(SysBin(op), Encode(l, Encode(r, Nil)), sib);
    TypeOfEncode(l, Encode(r, Nil));
    NothingAfter(ExprCode(r));
    assert Own(info, c') == If(HasType(l), [OpCode(op)]);
  }

  lemma CodeOfAssign(a: Word, e1: Expr, sib: Tree)
    requires Code(TypeCheck(Encode(e1, Nil), false)) == ExprCode(e1) + Code(TypeCheck(Nil, false))
    ensures Code(TypeCheck(Encode(Assign(a, e1), sib), false)) == ExprCode(Assign(a, e1)) + Code(TypeCheck(sib, false))
  {
    var info, c' := CodeSys(SysAssign, Leaf(Id, VarId, a, Encode(e1, Nil)), sib);
    CheckLeaf(Id, VarId, a, Encode(e1, Nil), true);
    CodeLeaf(Id, VarId, a, Encode(e1, Nil), true);
    NothingAfter(ExprCode(e1));
    assert Own(info, c') == [OP_ST_DWORD, OP_LD_VALUE_DWORD_STACK];
  }

  /** The left side of an assignment through a pointer, which emits the pointer only. */
  lemma CodeOfTarget(p: Expr, e1: Expr)
    requires Code(TypeCheck(Encode(p, Nil), false)) == ExprCode(p) + Code(TypeCheck(Nil, false))
    requires Code(TypeCheck(Encode(e1, Nil), false)) == ExprCode(e1) + Code(TypeCheck(Nil, false))
    ensures var c' := TypeCheck(Sys(SysGetValue, Encode(p, Nil), Encode(e1, Nil)), true);
            && c'.Node? && c'.info.kind == SysGetValue && (c'.info.dataType.Dword? <==> HasType(p))
            && Code(c') == ExprCode(p) + ExprCode(e1)
  {
    hide Encode, ExprCode, HasType, TypeCheck;
    CheckSys(SysGetValue, Encode(p, Nil), Encode(e1, Nil), true);
    TypeOfEncode(p, Nil);
    NothingAfter(ExprCode(p));
    NothingAfter(ExprCode(e1));
    var c' := TypeCheck(Sys(SysGetValue, Encode(p, Nil), Encode(e1, Nil)), true);
    assert Own(c'.info, c'.child) == [];
    assert ExprCode(p) + [] + ExprCode(e1) == ExprCode(p) + ExprCode(e1);
  }

  lemma CodeOfStore(p: Expr, e1: Expr, sib: Tree)
    requires Code(TypeCheck(Encode(p, Nil), false)) == ExprCode(p) + Code(TypeCheck(Nil, false))
    requires Code(TypeCheck(Encode(e1, Nil), false)) == ExprCode(e1) + Code(TypeCheck(Nil, false))
    ensures Code(TypeCheck(Encode(Store(p, e1), sib), false)) == ExprCode(Store(p, e1)) + Code(TypeCheck(sib, false))
  {
    var inner, op := Sys(SysGetValue, Encode(p, Nil), Encode(e1, Nil)), [OP_ST_DWORD, OP_LD_VALUE_DWORD_STACK];
    assert Encode(Store(p, e1), sib) == Sys(SysAssign, inner, sib);
    assert ExprCode(Store(p, e1)) == ExprCode(p) + ExprCode(e1) + If(HasType(p), op);
    hide Encode, ExprCode, HasType, TypeCheck, Code;
    CodeOfTarget(p, e1);
    var info, c' := CodeSys(SysAssign, inner, sib);
    assert Own(info, c') == If(HasType(p), op);
  }

  lemma CodeOfCall(fn: Expr, args: seq<Expr>, sib: Tree)
    requires Code(TypeCheck(EncodeAll(args), false)) == ArgsCode(args)
    requires Code(TypeCheck(Encode(fn, EncodeAll(args)), false))
          == ExprCode(fn) + Code(TypeCheck(EncodeAll(args), false))
    ensures Code(TypeCheck(Encode(Call(fn, args), sib), false))
         == ExprCode(Call(fn, args)) + Code(TypeCheck(sib, false))
  {
    var list := EncodeAll(args);
    var t := Encode(fn, list);
    assert Encode(Call(fn, args), sib) == Sys(SysFunc, t, sib);
    assert ExprCode(Call(fn, args)) == ExprCode(fn) + ArgsCode(args) + [OP_SYSCALL, |args| % 256];
    ResibCheck(fn, list);
    ChainOfChecked(list, false);
    ChainOfEncodeAll(args);
    hide Encode, EncodeAll, ExprCode, ArgsCode, TypeCheck, Code, HasType;
    var info, c' := CodeSys(SysFunc, t, sib);
    assert Own(info, c') == [OP_SYSCALL, |args| % 256];
  }

  lemma {:induction false} CodeOfEncodeAll(es: seq<Expr>)
    ensures Code(TypeCheck(EncodeAll(es), false)) == ArgsCode(es)
    decreases es, 0
  {
    if es != [] {
      CodeOfEncodeAll(es[1..]);
      CodeOfEncode(es[0], EncodeAll(es[1..]));
    }
  }

  /** The code of a line of statements. */
  function StatementsCode(prog: seq<Expr>): seq<Byte> {
    if prog == [] then []
    else ExprCode(prog[0]) + if |prog| == 1 then [] else [OP_POP] + StatementsCode(prog[1..])
  }

  /** Compiling the tree of a line, well-typed or not, gives the code of its statements. */
  lemma {:induction false} CodeOfProgram(prog: seq<Expr>)
    ensures ProgramCode(TypeCheck(EncodeAll(prog), false)) == StatementsCode(prog)
  {
    if prog != [] {
      var rest := EncodeAll(prog[1..]);
      var t := TypeCheck(Encode(prog[0], rest), false);
      ResibCheck(prog[0], rest);
      CodeOfEncode(prog[0], Nil);
      CodeOfProgram(prog[1..]);
      SiblingOfEncode(prog[0], rest);
      if |prog| > 1 {
        SiblingOfEncode(prog[1], EncodeAll(prog[2..]));
        assert prog[1..][1..] == prog[2..];
      }
    }
  }

  /** Cutting the sibling of a checked node gives the node checked without a sibling. */
  lemma ResibCheck(e: Expr, sib: Tree)
    ensures TypeCheck(Encode(e, sib), false).Node?
    ensures TypeCheck(Encode(e, sib), false).sibling == TypeCheck(sib, false)
    ensures TypeCheck(Encode(e, sib), false).(sibling := Nil) == TypeCheck(Encode(e, Nil), false)
  {
    SiblingOfEncode(e, sib);
    SiblingOfEncode(e, Nil);
    assert Encode(e, sib).(sibling := Nil) == Encode(e, Nil) by {
      match e
      case _ =>
    }
  }
}
