/** Compiler correctness: running the code of an expression is evaluating the expression. */
module FinshCorrectness {
  import opened FinshWord
  import opened FinshTree
  import opened FinshExpr
  import opened FinshRaw
  import opened FinshVm

  /** From s, code runs to a state that has pushed the values vs, with memory m. */
  ghost predicate Leaves(text: seq<Byte>, calls: Syscalls, limit: nat, s: State, code: seq<Byte>, vs: seq<Word>,
                         m: Memory)
  {
    Finish(text, calls, limit, s) == Finish(text, calls, limit, State(s.pc + |code|, s.stack + vs, m))
  }

  /** The same with a single value. */
  ghost predicate Pushes(text: seq<Byte>, calls: Syscalls, limit: nat, s: State, code: seq<Byte>, v: Word, m: Memory) {
    Leaves(text, calls, limit, s, code, [v], m)
  }

  // ----- any expression -----

  /** The code of an expression, well-typed or not, leaves its raw values, and needs at most two
      stack slots more than the expression has nodes. */
  lemma {:induction false} RunAny(text: seq<Byte>, calls: Syscalls, limit: nat, s: State, e: Expr)
    requires CallsFit(e) && At(text, s.pc, ExprCode(e)) && |s.stack| + Nodes(e) + 2 <= limit
    ensures var (vs, m) := Raw(calls, e, s.mem); Leaves(text, calls, limit, s, ExprCode(e), vs, m)
    decreases e, 2
  {
    hide Finish, At, Alu, Put32, HasType;
    match e
    case Const(_, w) => RunLoad(text, calls, limit, s, w);
    case Var(a) => RunLoadValue(text, calls, limit, s, a);
    case AddrOf(a) => RunLoad(text, calls, limit, s, a);
    case Bin(op, l, r) => RunBinary(text, calls, limit, s, op, l, r);
    case Not(_) => RunUnary(text, calls, limit, s, e);
    case Deref(_) => RunUnary(text, calls, limit, s, e);
    case Assign(a, e1) => RunAssign(text, calls, limit, s, a, e1);
    case Store(p, e1) => RunStoreExpr(text, calls, limit, s, p, e1);
    case PreInc(a) => ByOne(Load(s.mem, a)); RunPreBump(text, calls, limit, s, a, SysPreInc);
    case PreDec(a) => ByOne(Load(s.mem, a)); RunPreBump(text, calls, limit, s, a, SysPreDec);
    case PostInc(a) => ByOne(Load(s.mem, a)); RunPostBump(text, calls, limit, s, a, SysInc);
    case PostDec(a) => ByOne(Load(s.mem, a)); RunPostBump(text, calls, limit, s, a, SysDec);
    case Func(f) => RunLoad(text, calls, limit, s, f);
    case Call(fn, args) => RunCallExpr(text, calls, limit, s, fn, args);
  }

  lemma ByOne(x: Word)
    ensures Alu(Add, x, 1) == ToWord(x + 1) && Alu(Sub, x, 1) == ToWord(x - 1)
  {
  }

  lemma LastOne(st: seq<Word>, vs: seq<Word>)
    requires vs != []
    ensures st + vs == st + vs[..|vs| - 1] + [vs[|vs| - 1]]
    ensures forall v: Word :: st + vs[..|vs| - 1] + [v] == st + Top(vs, v)
  {
  }

  lemma LastTwo(st: seq<Word>, vs: seq<Word>)
    requires |vs| >= 2
    ensures st + vs == st + vs[..|vs| - 2] + [vs[|vs| - 2]] + [vs[|vs| - 1]]
    ensures forall v: Word :: st + vs[..|vs| - 2] + [v] == st + (vs[..|vs| - 2] + [v])
  {
  }

  // ----- the parts of an expression, its code and its values -----

  const STORE: seq<Byte> := [OP_ST_DWORD, OP_LD_VALUE_DWORD_STACK]

  lemma BinParts(calls: Syscalls, op: BinOp, l: Expr, r: Expr, m: Memory)
    ensures var e, (a, m1) := Bin(op, l, r), Raw(calls, l, m);
            var (b, m2) := Raw(calls, r, m1);
            && ExprCode(e) == ExprCode(l) + ExprCode(r) + If(HasType(l), [OpCode(op)])
            && Raw(calls, e, m) == (if HasType(l) then TopBin(op, a + b) else a + b, m2)
            && Nodes(e) == 1 + Nodes(l) + Nodes(r) && (CallsFit(e) ==> CallsFit(l) && CallsFit(r))
  {
    hide Alu, HasType;
  }

  lemma UnaryParts(calls: Syscalls, e: Expr, m: Memory)
    requires e.Not? || e.Deref?
    ensures var (a, m1) := Raw(calls, e.e, m);
            var op := if e.Not? then OP_BITWISE_DWORD else OP_LD_VALUE_DWORD_STACK;
            var v := if e.Not? then Complement(a[|a| - 1]) else Load(m1, a[|a| - 1]);
            && ExprCode(e) == ExprCode(e.e) + If(HasType(e.e), [op])
            && Raw(calls, e, m) == (if HasType(e.e) then Top(a, v) else a, m1)
            && Nodes(e) == 1 + Nodes(e.e) && (CallsFit(e) ==> CallsFit(e.e))
  {
    hide HasType;
  }

  lemma AssignParts(calls: Syscalls, x: Word, e1: Expr, m: Memory)
    ensures var e, (b, m1) := Assign(x, e1), Raw(calls, e1, m);
            && ExprCode(e) == [OP_LD_DWORD] + Put32(x) + ExprCode(e1) + STORE
            && Raw(calls, e, m) == TopStore([x] + b, m1) && Nodes(e) == 2 + Nodes(e1) && (CallsFit(e) ==> CallsFit(e1))
  {
  }

  lemma StoreParts(calls: Syscalls, p: Expr, e1: Expr, m: Memory)
    ensures var e, (a, m1) := Store(p, e1), Raw(calls, p, m);
            var (b, m2) := Raw(calls, e1, m1);
            && ExprCode(e) == ExprCode(p) + ExprCode(e1) + If(HasType(p), STORE)
            && Raw(calls, e, m) == (if HasType(p) then TopStore(a + b, m2) else (a + b, m2))
            && Nodes(e) == 2 + Nodes(p) + Nodes(e1) && (CallsFit(e) ==> CallsFit(p) && CallsFit(e1))
  {
    hide HasType;
  }

  lemma CallParts(calls: Syscalls, fn: Expr, args: seq<Expr>, m: Memory)
    ensures var e, (a, m1) := Call(fn, args), Raw(calls, fn, m);
            var (b, m2) := RawArgs(calls, args, m1);
            && ExprCode(e) == ExprCode(fn) + ArgsCode(args) + [OP_SYSCALL, |args| % 256]
            && Raw(calls, e, m) == TopCall(calls, |args|, a + b, m2)
            && Nodes(e) == 1 + Nodes(fn) + NodesAll(args)
            && (CallsFit(e) ==> |args| <= 16 && CallsFit(fn) && CallsFitAll(args))
  {
  }

  // ----- running them -----

  /** Two operands of e one after the other. */
  lemma {:induction false} RunTwo(text: seq<Byte>, calls: Syscalls, limit: nat, s: State, e: Expr, l: Expr, r: Expr)
    requires l < e && r < e && CallsFit(l) && CallsFit(r) && At(text, s.pc, ExprCode(l) + ExprCode(r))
    requires |s.stack| + Nodes(l) + Nodes(r) + 2 <= limit
    ensures var (a, m1) := Raw(calls, l, s.mem);
            var (b, m2) := Raw(calls, r, m1);
            Leaves(text, calls, limit, s, ExprCode(l) + ExprCode(r), a + b, m2)
    decreases e, 0
  {
    hide Finish, At, ExprCode, Raw, Nodes, CallsFit, Left;
    var (a, m1) := Raw(calls, l, s.mem);
    var (b, m2) := Raw(calls, r, m1);
    LeftIs(calls, l, s.mem);
    AtSplit(text, s.pc, ExprCode(l), ExprCode(r));
    RunAny(text, calls, limit, s, l);
    var s1 := State(s.pc + |ExprCode(l)|, s.stack + a, m1);
    RunAny(text, calls, limit, s1, r);
    assert s1.stack + b == s.stack + (a + b);
  }

  lemma {:induction false} RunBinary(text: seq<Byte>, calls: Syscalls, limit: nat, s: State, op: BinOp,
                                     l: Expr, r: Expr)
    requires CallsFit(Bin(op, l, r)) && At(text, s.pc, ExprCode(Bin(op, l, r)))
    requires |s.stack| + Nodes(Bin(op, l, r)) + 2 <= limit
    ensures var (vs, m) := Raw(calls, Bin(op, l, r), s.mem);
            Leaves(text, calls, limit, s, ExprCode(Bin(op, l, r)), vs, m)
    decreases Bin(op, l, r), 1
  {
    hide Finish, At, Alu, HasType, ExprCode, Raw, Nodes, CallsFit, Left, OpCode;
    BinParts(calls, op, l, r, s.mem);
    var (a, m1) := Raw(calls, l, s.mem);
    var (b, m2) := Raw(calls, r, m1);
    var vs := a + b;
    AtSplit(text, s.pc, ExprCode(l) + ExprCode(r), If(HasType(l), [OpCode(op)]));
    RunTwo(text, calls, limit, s, Bin(op, l, r), l, r);
    if HasType(l) {
      var s2 := State(s.pc + |ExprCode(l) + ExprCode(r)|, s.stack + vs, m2);
      LastTwo(s.stack, vs);
      RunBin(text, calls, limit, s2, s.stack + vs[..|vs| - 2], op, vs[|vs| - 2], vs[|vs| - 1]);
    }
  }

  lemma {:induction false} RunUnary(text: seq<Byte>, calls: Syscalls, limit: nat, s: State, e: Expr)
    requires e.Not? || e.Deref?
    requires CallsFit(e) && At(text, s.pc, ExprCode(e)) && |s.stack| + Nodes(e) + 2 <= limit
    ensures var (vs, m) := Raw(calls, e, s.mem); Leaves(text, calls, limit, s, ExprCode(e), vs, m)
    decreases e, 1
  {
    hide Finish, At, HasType, ExprCode, Raw, Nodes, CallsFit, Complement, Load, Top;
    UnaryParts(calls, e, s.mem);
    var op := if e.Not? then OP_BITWISE_DWORD else OP_LD_VALUE_DWORD_STACK;
    var (a, m1) := Raw(calls, e.e, s.mem);
    AtSplit(text, s.pc, ExprCode(e.e), If(HasType(e.e), [op]));
    RunAny(text, calls, limit, s, e.e);
    if HasType(e.e) {
      var st, s1 := s.stack + a[..|a| - 1], State(s.pc + |ExprCode(e.e)|, s.stack + a, m1);
      LastOne(s.stack, a);
      RunTop(text, calls, limit, s1, st, op, a[|a| - 1]);
    }
  }

  lemma {:induction false} RunAssign(text: seq<Byte>, calls: Syscalls, limit: nat, s: State, x: Word, e1: Expr)
    requires CallsFit(Assign(x, e1)) && At(text, s.pc, ExprCode(Assign(x, e1)))
    requires |s.stack| + Nodes(Assign(x, e1)) + 2 <= limit
    ensures var (vs, m) := Raw(calls, Assign(x, e1), s.mem);
            Leaves(text, calls, limit, s, ExprCode(Assign(x, e1)), vs, m)
    decreases Assign(x, e1), 1
  {
    hide Finish, At, Put32, ExprCode, Raw, Nodes, CallsFit, TopStore;
    AssignParts(calls, x, e1, s.mem);
    var load: seq<Byte> := [OP_LD_DWORD] + Put32(x);
    var (b, m1) := Raw(calls, e1, s.mem);
    AtSplit(text, s.pc, load + ExprCode(e1), STORE);
    AtSplit(text, s.pc, load, ExprCode(e1));
    RunLoad(text, calls, limit, s, x);
    var s1 := State(s.pc + 5, s.stack + [x], s.mem);
    RunAny(text, calls, limit, s1, e1);
    assert s1.stack + b == s.stack + ([x] + b);
    RunStoreTop(text, calls, limit, State(s1.pc + |ExprCode(e1)|, s.stack + ([x] + b), m1), s.stack, [x] + b);
  }

  lemma {:induction false} RunStoreExpr(text: seq<Byte>, calls: Syscalls, limit: nat, s: State, p: Expr, e1: Expr)
    requires CallsFit(Store(p, e1)) && At(text, s.pc, ExprCode(Store(p, e1)))
    requires |s.stack| + Nodes(Store(p, e1)) + 2 <= limit
    ensures var (vs, m) := Raw(calls, Store(p, e1), s.mem);
            Leaves(text, calls, limit, s, ExprCode(Store(p, e1)), vs, m)
    decreases Store(p, e1), 1
  {
    hide Finish, At, HasType, ExprCode, Raw, Nodes, CallsFit, TopStore;
    StoreParts(calls, p, e1, s.mem);
    var (a, m1) := Raw(calls, p, s.mem);
    var (b, m2) := Raw(calls, e1, m1);
    AtSplit(text, s.pc, ExprCode(p) + ExprCode(e1), If(HasType(p), STORE));
    RunTwo(text, calls, limit, s, Store(p, e1), p, e1);
    if HasType(p) {
      var s2 := State(s.pc + |ExprCode(p) + ExprCode(e1)|, s.stack + (a + b), m2);
      RunStoreTop(text, calls, limit, s2, s.stack, a + b);
    }
  }

  lemma {:induction false} RunCallExpr(text: seq<Byte>, calls: Syscalls, limit: nat, s: State, fn: Expr,
                                       args: seq<Expr>)
    requires CallsFit(Call(fn, args)) && At(text, s.pc, ExprCode(Call(fn, args)))
    requires |s.stack| + Nodes(Call(fn, args)) + 2 <= limit
    ensures var (vs, m) := Raw(calls, Call(fn, args), s.mem);
            Leaves(text, calls, limit, s, ExprCode(Call(fn, args)), vs, m)
    decreases Call(fn, args), 1
  {
    hide Finish, At, ExprCode, ArgsCode, Raw, RawArgs, Nodes, NodesAll, CallsFit, CallsFitAll, Left, TopCall;
    CallParts(calls, fn, args, s.mem);
    var (a, m1) := Raw(calls, fn, s.mem);
    var (b, m2) := RawArgs(calls, args, m1);
    AtSplit(text, s.pc, ExprCode(fn) + ArgsCode(args), [OP_SYSCALL, |args| % 256]);
    AtSplit(text, s.pc, ExprCode(fn), ArgsCode(args));
    LeftIs(calls, fn, s.mem);
    RunAny(text, calls, limit, s, fn);
    var s1 := State(s.pc + |ExprCode(fn)|, s.stack + a, m1);
    RunAnyArgs(text, calls, limit, s1, args);
    assert s1.stack + b == s.stack + (a + b);
    RunCallTop(text, calls, limit, State(s1.pc + |ArgsCode(args)|, s.stack + (a + b), m2), s.stack, a + b, |args|);
  }

  /** A call with the n top values as arguments. */
  lemma RunCallTop(text: seq<Byte>, calls: Syscalls, limit: nat, s: State, st: seq<Word>, vs: seq<Word>, n: nat)
    requires n <= CALL_PARAMETERS_MAX && |vs| >= n + 1
    requires At(text, s.pc, [OP_SYSCALL, n % 256]) && s.stack == st + vs
    ensures var (us, m) := TopCall(calls, n, vs, s.mem);
            Finish(text, calls, limit, s) == Finish(text, calls, limit, State(s.pc + 2, st + us, m))
  {
    hide Finish, At, Actuals;
    var i := |vs| - n - 1;
    var (v, m) := calls(vs[i], Actuals(vs[i + 1..]), s.mem);
    assert st + vs == st + vs[..i] + [vs[i]] + vs[i + 1..];
    assert st + vs[..i] + [v] == st + (vs[..i] + [v]);
    RunCall(text, calls, limit, s, st + vs[..i], vs[i], vs[i + 1..]);
  }

  /** Arguments are pushed from left to right. */
  lemma {:induction false} RunAnyArgs(text: seq<Byte>, calls: Syscalls, limit: nat, s: State, args: seq<Expr>)
    requires CallsFitAll(args) && At(text, s.pc, ArgsCode(args)) && |s.stack| + NodesAll(args) + 2 <= limit
    ensures var (vs, m) := RawArgs(calls, args, s.mem); Leaves(text, calls, limit, s, ArgsCode(args), vs, m)
    decreases args, 0
  {
    hide Finish, At, ExprCode, Raw, Nodes, CallsFit, Left;
    if args == [] {
      assert s.stack + [] == s.stack;
    } else {
      var (a, m1) := Raw(calls, args[0], s.mem);
      var (b, m2) := RawArgs(calls, args[1..], m1);
      LeftIs(calls, args[0], s.mem);
      AtSplit(text, s.pc, ExprCode(args[0]), ArgsCode(args[1..]));
      RunAny(text, calls, limit, s, args[0]);
      var s1 := State(s.pc + |ExprCode(args[0])|, s.stack + a, m1);
      RunAnyArgs(text, calls, limit, s1, args[1..]);
      assert s1.stack + b == s.stack + (a + b);
    }
  }

  /** Store and load back on the two top values. */
  lemma RunStoreTop(text: seq<Byte>, calls: Syscalls, limit: nat, s: State, st: seq<Word>, vs: seq<Word>)
    requires |vs| >= 2 && At(text, s.pc, STORE) && s.stack == st + vs
    ensures var (us, m) := TopStore(vs, s.mem);
            Finish(text, calls, limit, s) == Finish(text, calls, limit, State(s.pc + 2, st + us, m))
  {
    hide Finish, At;
    LastTwo(st, vs);
    RunStoreLoad(text, calls, limit, s, st + vs[..|vs| - 2], vs[|vs| - 2], vs[|vs| - 1]);
  }

  /** Store and load back: the stored value replaces address and value on the stack. */
  lemma RunStoreLoad(text: seq<Byte>, calls: Syscalls, limit: nat, s: State, st: seq<Word>, a: Word, x: Word)
    requires At(text, s.pc, [OP_ST_DWORD, OP_LD_VALUE_DWORD_STACK]) && s.stack == st + [a] + [x]
    ensures Finish(text, calls, limit, s) == Finish(text, calls, limit, State(s.pc + 2, st + [x], s.mem[a := x]))
  {
    hide Finish, At, Alu;
    assert [OP_ST_DWORD, OP_LD_VALUE_DWORD_STACK] == [OP_ST_DWORD] + [OP_LD_VALUE_DWORD_STACK];
    AtSplit(text, s.pc, [OP_ST_DWORD], [OP_LD_VALUE_DWORD_STACK]);
    RunStore(text, calls, limit, s, st, a, x);
    RunTop(text, calls, limit, State(s.pc + 1, st + [a], s.mem[a := x]), st, OP_LD_VALUE_DWORD_STACK, a);
  }

  /** The common part of ++ and --, started with the variable's address on the stack. */
  lemma RunBump(text: seq<Byte>, calls: Syscalls, limit: nat, s: State, st: seq<Word>, a: Word, op: BinOp)
    requires At(text, s.pc, Bump(a, op)) && s.stack == st + [a] && |s.stack| + 2 <= limit
    ensures Finish(text, calls, limit, s)
         == Finish(text, calls, limit, State(s.pc + |Bump(a, op)|, s.stack, s.mem[a := Alu(op, Load(s.mem, a), 1)]))
  {
    hide Finish, At, Alu, Put32;
    var c1: seq<Byte> := [OP_LD_VALUE_DWORD] + Put32(a);
    var c2: seq<Byte> := [OP_LD_DWORD] + Put32(1);
    assert Bump(a, op) == c1 + c2 + [OpCode(op)] + [OP_ST_DWORD];
    AtSplit(text, s.pc, c1 + c2 + [OpCode(op)], [OP_ST_DWORD]);
    AtSplit(text, s.pc, c1 + c2, [OpCode(op)]);
    AtSplit(text, s.pc, c1, c2);
    var x := Load(s.mem, a);
    RunLoadValue(text, calls, limit, s, a);
    RunLoad(text, calls, limit, State(s.pc + 5, s.stack + [x], s.mem), 1);
    RunBin(text, calls, limit, State(s.pc + 10, s.stack + [x] + [1], s.mem), s.stack, op, x, 1);
    RunStore(text, calls, limit, State(s.pc + 11, s.stack + [Alu(op, x, 1)], s.mem), st, a, Alu(op, x, 1));
  }

  lemma RunPreBump(text: seq<Byte>, calls: Syscalls, limit: nat, s: State, a: Word, kind: Kind)
    requires kind == SysPreInc || kind == SysPreDec
    requires At(text, s.pc, [OP_LD_DWORD] + Put32(a) + VarNodeCode(kind, a)) && |s.stack| + 4 <= limit
    ensures var x := Alu(if kind == SysPreInc then Add else Sub, Load(s.mem, a), 1);
            Pushes(text, calls, limit, s, [OP_LD_DWORD] + Put32(a) + VarNodeCode(kind, a), x, s.mem[a := x])
  {
    hide Finish, At, Alu, Put32;
    var op := if kind == SysPreInc then Add else Sub;
    var x := Alu(op, Load(s.mem, a), 1);
    AtSplit(text, s.pc, [OP_LD_DWORD] + Put32(a), VarNodeCode(kind, a));
    AtSplit(text, s.pc + 5, Bump(a, op), [OP_LD_VALUE_DWORD_STACK]);
    RunLoad(text, calls, limit, s, a);
    RunBump(text, calls, limit, State(s.pc + 5, s.stack + [a], s.mem), s.stack, a, op);
    RunTop(text, calls, limit, State(s.pc + 5 + |Bump(a, op)|, s.stack + [a], s.mem[a := x]), s.stack,
           OP_LD_VALUE_DWORD_STACK, a);
  }

  lemma RunPostBump(text: seq<Byte>, calls: Syscalls, limit: nat, s: State, a: Word, kind: Kind)
    requires kind == SysInc || kind == SysDec
    requires At(text, s.pc, [OP_LD_VALUE_DWORD] + Put32(a) + VarNodeCode(kind, a)) && |s.stack| + 4 <= limit
    ensures var x := Load(s.mem, a);
            Pushes(text, calls, limit, s, [OP_LD_VALUE_DWORD] + Put32(a) + VarNodeCode(kind, a), x,
                   s.mem[a := Alu(if kind == SysInc then Add else Sub, x, 1)])
  {
    hide Finish, At, Alu, Put32;
    var op := if kind == SysInc then Add else Sub;
    var x := Load(s.mem, a);
    var m := s.mem[a := Alu(op, x, 1)];
    var load: seq<Byte> := [OP_LD_DWORD] + Put32(a);
    AtSplit(text, s.pc, [OP_LD_VALUE_DWORD] + Put32(a), VarNodeCode(kind, a));
    AtSplit(text, s.pc + 5, load + Bump(a, op), [OP_POP]);
    AtSplit(text, s.pc + 5, load, Bump(a, op));
    RunLoadValue(text, calls, limit, s, a);
    RunLoad(text, calls, limit, State(s.pc + 5, s.stack + [x], s.mem), a);
    RunBump(text, calls, limit, State(s.pc + 10, s.stack + [x] + [a], s.mem), s.stack + [x], a, op);
    RunTop(text, calls, limit, State(s.pc + 10 + |Bump(a, op)|, s.stack + [x] + [a], m), s.stack + [x], OP_POP, a);
  }

  // ----- well-typed expressions -----

  /** The code of a well-typed expression pushes the expression's value, and leaves the memory
      that evaluation leaves. */
  lemma RunExpr(text: seq<Byte>, calls: Syscalls, limit: nat, s: State, e: Expr)
    requires WellTyped(e) && CallsFit(e) && At(text, s.pc, ExprCode(e)) && |s.stack| + Nodes(e) + 2 <= limit
    ensures var (v, m) := Eval(calls, e, s.mem); Pushes(text, calls, limit, s, ExprCode(e), v, m)
  {
    RunAny(text, calls, limit, s, e);
    RawIsEval(calls, e, s.mem);
  }

  lemma RunArgs(text: seq<Byte>, calls: Syscalls, limit: nat, s: State, args: seq<Expr>)
    requires WellTypedAll(args) && CallsFitAll(args) && At(text, s.pc, ArgsCode(args))
    requires |s.stack| + NodesAll(args) + 2 <= limit
    ensures var (vs, m) := EvalArgs(calls, args, s.mem); Leaves(text, calls, limit, s, ArgsCode(args), vs, m)
  {
    RunAnyArgs(text, calls, limit, s, args);
    RawArgsIsEval(calls, args, s.mem);
  }

  // ----- lines of statements -----

  /** Statements run one after the other; each pop takes one value away. */
  lemma {:induction false} RunLine(text: seq<Byte>, calls: Syscalls, limit: nat, s: State, prog: seq<Expr>)
    requires prog != [] && CallsFitAll(prog) && At(text, s.pc, StatementsCode(prog))
    requires |s.stack| + Room(prog) <= limit
    ensures var (vs, m) := RawLine(calls, prog, s.mem); Leaves(text, calls, limit, s, StatementsCode(prog), vs, m)
    decreases |prog|
  {
    hide Finish, At, ExprCode, Raw, Nodes, CallsFit, Left;
    var (a, m1) := Raw(calls, prog[0], s.mem);
    var code := ExprCode(prog[0]);
    LeftIs(calls, prog[0], s.mem);
    if |prog| == 1 {
      assert StatementsCode(prog) == code;
      RunAny(text, calls, limit, s, prog[0]);
    } else {
      var rest, st := StatementsCode(prog[1..]), s.stack + a[..|a| - 1];
      AtSplit(text, s.pc, code, [OP_POP] + rest);
      AtSplit(text, s.pc + |code|, [OP_POP], rest);
      RunAny(text, calls, limit, s, prog[0]);
      LastOne(s.stack, a);
      RunTop(text, calls, limit, State(s.pc + |code|, s.stack + a, m1), st, OP_POP, a[|a| - 1]);
      RunLine(text, calls, limit, State(s.pc + |code| + 1, st, m1), prog[1..]);
      var (b, m2) := RawLine(calls, prog[1..], m1);
      assert st + b == s.stack + (a[..|a| - 1] + b);
    }
  }

  /** The largest statement of a line, in nodes. */
  function Widest(prog: seq<Expr>): nat {
    if prog == [] then 0
    else if Nodes(prog[0]) >= Widest(prog[1..]) then Nodes(prog[0]) else Widest(prog[1..])
  }

  lemma {:induction false} WidestBound(prog: seq<Expr>)
    ensures Widest(prog) <= NodesAll(prog)
  {
    if prog != [] { WidestBound(prog[1..]); }
  }

  /** Well-typed statements leave nothing behind. */
  lemma {:induction false} TypedRoom(prog: seq<Expr>)
    requires prog != [] && WellTypedAll(prog)
    ensures Room(prog) == Widest(prog) + 2
  {
    hide Left, Nodes, WellTyped;
    TypedLeft(prog[0]);
    if |prog| > 1 { TypedRoom(prog[1..]); }
  }

  lemma TypedLeft(e: Expr)
    requires WellTyped(e)
    ensures Left(e) == 1
  {
    var calls: Syscalls := (f: Word, vs: seq<Word>, m: Memory) => (f, m);
    LeftIs(calls, e, map[]);
    RawIsEval(calls, e, map[]);
  }

  lemma RunStatements(text: seq<Byte>, calls: Syscalls, limit: nat, s: State, prog: seq<Expr>)
    requires prog != [] && WellTypedAll(prog) && CallsFitAll(prog) && At(text, s.pc, StatementsCode(prog))
    requires |s.stack| + Widest(prog) + 2 <= limit
    ensures var (v, m) := EvalProgram(calls, prog, s.mem);
            Pushes(text, calls, limit, s, StatementsCode(prog), v, m)
  {
    hide Finish, At;
    TypedRoom(prog);
    RunLine(text, calls, limit, s, prog);
    RawLineIsEval(calls, prog, s.mem);
  }

  /** The rest of the text segment is zero: no-ops. */
  lemma {:induction false} RunPadding(text: seq<Byte>, calls: Syscalls, limit: nat, s: State)
    requires s.pc <= |text| && forall k :: s.pc <= k < |text| ==> text[k] == OP_NOOP
    ensures Finish(text, calls, limit, s) == Ok(s.(pc := |text|))
    decreases |text| - s.pc
  {
    if s.pc < |text| { RunPadding(text, calls, limit, s.(pc := s.pc + 1)); }
  }

  /** A cleared stretch of the text segment. */
  function Zeros(n: nat): (z: seq<Byte>)
    ensures |z| == n && forall k :: 0 <= k < n ==> z[k] == OP_NOOP
  {
    seq(n, _ => OP_NOOP)
  }

  /** The text segment after compilation: the code, then zeros. */
  function Segment(code: seq<Byte>, size: nat): seq<Byte>
    requires |code| <= size
  {
    code + Zeros(size - |code|)
  }

  /** What the code of any line does, well-typed or not: the machine, started on an empty stack,
      ends with the raw values of the line. So it computes the meaning of the line exactly if
      these are the one value and the memory of a direct evaluation. */
  lemma CompiledLineLeaves(prog: seq<Expr>, size: nat, limit: nat, calls: Syscalls, m: Memory)
    requires prog != [] && CallsFitAll(prog) && Room(prog) <= limit
    requires |ProgramCode(TypeCheck(EncodeAll(prog), false))| <= size
    ensures var text := Segment(ProgramCode(TypeCheck(EncodeAll(prog), false)), size);
            var (vs, m') := RawLine(calls, prog, m);
            Finish(text, calls, limit, State(0, [], m)) == Ok(State(size, vs, m'))
  {
    hide Finish, ExprCode, Raw, Nodes, CallsFit, Left, Room;
    CodeOfProgram(prog);
    var code := StatementsCode(prog);
    var text := Segment(code, size);
    var (vs, m') := RawLine(calls, prog, m);
    assert At(text, 0, code);
    RunLine(text, calls, limit, State(0, [], m), prog);
    assert [] + vs == vs;
    RunPadding(text, calls, limit, State(|code|, vs, m'));
  }

  /** Compiler correctness. For every line of well-typed statements whose code fits the text
      segment, every memory and every behaviour of the called functions: the machine,
      started on an empty stack, ends with exactly one value on the stack, the value of the
      last statement, and with the memory that evaluation gives. It never touches more than
      two slots beyond the number of nodes of the largest statement. */
  lemma CompiledLineComputesItsMeaning(prog: seq<Expr>, size: nat, limit: nat, calls: Syscalls, m: Memory)
    requires prog != [] && WellTypedAll(prog) && CallsFitAll(prog)
    requires |ProgramCode(TypeCheck(EncodeAll(prog), false))| <= size
    requires Widest(prog) + 2 <= limit
    ensures var text := Segment(ProgramCode(TypeCheck(EncodeAll(prog), false)), size);
            var (v, m') := EvalProgram(calls, prog, m);
            Finish(text, calls, limit, State(0, [], m)) == Ok(State(size, [v], m'))
  {
    hide Finish, Segment, ProgramCode, TypeCheck, RawLine, EvalProgram;
    TypedRoom(prog);
    CompiledLineLeaves(prog, size, limit, calls, m);
    RawLineIsEval(calls, prog, m);
  }

  /** A line of any types ends with a single value if and only if no operator that takes two
      values, however deep, has an untyped first operand. Otherwise it is never computed
      correctly. */
  lemma OneValueExactly(prog: seq<Expr>, size: nat, limit: nat, calls: Syscalls, m: Memory)
    requires prog != [] && CallsFitAll(prog) && Room(prog) <= limit
    requires |ProgramCode(TypeCheck(EncodeAll(prog), false))| <= size
    ensures var text := Segment(ProgramCode(TypeCheck(EncodeAll(prog), false)), size);
            (exists v, m' :: Finish(text, calls, limit, State(0, [], m)) == Ok(State(size, [v], m')))
            <==> PairedAll(prog)
  {
    hide Finish, Segment, ProgramCode, TypeCheck, RawLine, Room;
    CompiledLineLeaves(prog, size, limit, calls, m);
    LeftLineIs(calls, prog, m);
    var (vs, m') := RawLine(calls, prog, m);
    if PairedAll(prog) { assert vs == [vs[0]]; }
  }

  /** A line made from at most FINSH_NODE_MAX nodes cannot overrun the operand stack, nor
      the parameter array of OP_call. */
  lemma NodeLimitBoundsMachine(prog: seq<Expr>)
    requires Count(EncodeAll(prog)) <= 16
    ensures Widest(prog) + 3 <= FINSH_STACK_MAX && Room(prog) <= FINSH_STACK_MAX
    ensures CallsFitAll(prog)
  {
    CountEncodeAll(prog);
    WidestBound(prog);
    RoomBound(prog);
    FewNodesFitCallsAll(prog);
  }

  // ----- one operator without a type -----

  /** The first operand of an operator that needs the operand's data type. */
  function First(e: Expr): Expr
    requires e.Bin? || e.Not? || e.Store?
  {
    if e.Bin? then e.left else if e.Not? then e.e else e.p
  }

  predicate OperandsFine(e: Expr)
    requires e.Bin? || e.Not? || e.Store?
  {
    && WellTyped(First(e)) && CallsFit(First(e))
    && (e.Bin? ==> WellTyped(e.right) && CallsFit(e.right))
    && (e.Store? ==> WellTyped(e.e) && CallsFit(e.e))
  }

  /** An operator whose first operand has no data type is left out of the code: only its operands
      are there. */
  lemma OperatorOnCallEmitsNothing(e: Expr)
    requires e.Bin? || e.Not? || e.Deref? || e.Store?
    requires !HasType(if e.Deref? then e.e else First(e))
    ensures Code(TypeCheck(Encode(e, Nil), false))
         == match e
            case Bin(_, l, r) => ExprCode(l) + ExprCode(r)
            case Not(e1) => ExprCode(e1)
            case Deref(e1) => ExprCode(e1)
            case Store(p, e1) => ExprCode(p) + ExprCode(e1)
  {
    hide TypeCheck, Code, HasType;
    CodeOfEncode(e, Nil);
    NothingAfter(ExprCode(e));
    match e
    case Bin(_, l, r) => NothingAfter(ExprCode(l) + ExprCode(r));
    case Not(e1) => NothingAfter(ExprCode(e1));
    case Deref(e1) => NothingAfter(ExprCode(e1));
    case Store(p, e1) => NothingAfter(ExprCode(p) + ExprCode(e1));
  }

  /** The raw values of such an operator. */
  lemma RawOnCall(calls: Syscalls, e: Expr, m: Memory)
    requires e.Bin? || e.Not? || e.Store?
    requires OperandsFine(e) && !HasType(First(e))
    ensures var (x, m1) := Eval(calls, First(e), m);
            if e.Not? then Raw(calls, e, m) == ([x], m1)
            else
              var (y, m2) := Eval(calls, if e.Bin? then e.right else e.e, m1);
              Raw(calls, e, m) == ([x, y], m2)
  {
    hide HasType, Alu;
    RawIsEval(calls, First(e), m);
    var (x, m1) := Eval(calls, First(e), m);
    match e
    case Bin(_, l, r) =>
      RawIsEval(calls, r, m1);
      Pair(x, Eval(calls, r, m1).0);
    case Not(_) =>
    case Store(p, e1) =>
      RawIsEval(calls, e1, m1);
      Pair(x, Eval(calls, e1, m1).0);
  }

  lemma SingleLine(calls: Syscalls, e: Expr, m: Memory)
    ensures RawLine(calls, [e], m) == Raw(calls, e, m) && Room([e]) == Nodes(e) + 2
    ensures CallsFit(e) ==> CallsFitAll([e])
  {
    hide Raw, Nodes, CallsFit, Left;
    assert [e][1..] == [];
    assert Room([]) == 0;
  }

  /** Exactly when a binary operator, a complement or a store through a pointer is compiled
      correctly: its first operand has a data type, that is, it is neither the name of a function
      nor a call by such a name. */
  lemma OperatorCorrectIffTyped(e: Expr, size: nat, limit: nat, calls: Syscalls, m: Memory)
    requires e.Bin? || e.Not? || e.Store?
    requires OperandsFine(e)
    requires |ProgramCode(TypeCheck(EncodeAll([e]), false))| <= size && Nodes(e) + 2 <= limit
    ensures var text := Segment(ProgramCode(TypeCheck(EncodeAll([e]), false)), size);
            var (v, m') := Eval(calls, e, m);
            Finish(text, calls, limit, State(0, [], m)) == Ok(State(size, [v], m')) <==> HasType(First(e))
  {
    OperatorRaw(calls, e, m);
    SingleLine(calls, e, m);
    hide Finish, Segment, ProgramCode, TypeCheck, RawLine, Raw, Room, HasType, Eval, First, OperandsFine;
    hide CallsFit, Nodes;
    CompiledLineLeaves([e], size, limit, calls, m);
  }

  lemma OperatorRaw(calls: Syscalls, e: Expr, m: Memory)
    requires e.Bin? || e.Not? || e.Store?
    requires OperandsFine(e)
    ensures CallsFit(e)
    ensures var (v, m') := Eval(calls, e, m); Raw(calls, e, m) == ([v], m') <==> HasType(First(e))
  {
    if HasType(First(e)) {
      RawIsEval(calls, e, m);
    } else {
      RawOnCall(calls, e, m);
      hide Raw, HasType, Alu;
    }
  }

  /** Reading through a pointer that a call returns is left out of the code as well, so the
      pointer itself is the result. That is right exactly if the memory there holds the same
      value. */
  lemma DerefCorrectIff(e: Expr, size: nat, limit: nat, calls: Syscalls, m: Memory)
    requires WellTyped(e) && CallsFit(e)
    requires |ProgramCode(TypeCheck(EncodeAll([Deref(e)]), false))| <= size && Nodes(Deref(e)) + 2 <= limit
    ensures var text := Segment(ProgramCode(TypeCheck(EncodeAll([Deref(e)]), false)), size);
            var (v, m') := Eval(calls, Deref(e), m);
            var (p, m1) := Eval(calls, e, m);
            Finish(text, calls, limit, State(0, [], m)) == Ok(State(size, [v], m'))
            <==> HasType(e) || Load(m1, p) == p
  {
    assert CallsFit(Deref(e));
    SingleLine(calls, Deref(e), m);
    if HasType(e) { RawIsEval(calls, Deref(e), m); } else { RawIsEval(calls, e, m); }
    assert !HasType(e) ==> Raw(calls, Deref(e), m) == Raw(calls, e, m);
    hide Finish, Segment, ProgramCode, TypeCheck, RawLine, Raw, Room, HasType;
    CompiledLineLeaves([Deref(e)], size, limit, calls, m);
  }

  /** In front of other statements an operator on a call spoils the line exactly if it has two
      operands: the first one stays on the stack below the result. A complement that is missing
      changes nothing, because its value is popped. */
  lemma EarlierOperatorCorrectIff(e: Expr, rest: seq<Expr>, size: nat, limit: nat, calls: Syscalls, m: Memory)
    requires e.Bin? || e.Not? || e.Store?
    requires OperandsFine(e) && rest != [] && WellTypedAll(rest) && CallsFitAll(rest)
    requires |ProgramCode(TypeCheck(EncodeAll([e] + rest), false))| <= size
    requires Nodes(e) + 2 <= limit && Widest(rest) + 3 <= limit
    ensures var text := Segment(ProgramCode(TypeCheck(EncodeAll([e] + rest), false)), size);
            var (v, m') := EvalProgram(calls, [e] + rest, m);
            Finish(text, calls, limit, State(0, [], m)) == Ok(State(size, [v], m')) <==> HasType(First(e)) || e.Not?
  {
    assert CallsFit(e);
    EarlierRoom(e, rest);
    EarlierRaw(e, rest, calls, m);
    hide Finish, Segment, ProgramCode, TypeCheck, RawLine, Raw, Room, HasType, EvalProgram;
    CompiledLineLeaves([e] + rest, size, limit, calls, m);
  }

  lemma EarlierRoom(e: Expr, rest: seq<Expr>)
    requires e.Bin? || e.Not? || e.Store?
    requires OperandsFine(e) && rest != [] && WellTypedAll(rest)
    ensures Room([e] + rest) <= if Nodes(e) + 2 >= Widest(rest) + 3 then Nodes(e) + 2 else Widest(rest) + 3
    ensures CallsFitAll(rest) && CallsFit(e) ==> CallsFitAll([e] + rest)
  {
    var prog := [e] + rest;
    assert prog[0] == e && prog[1..] == rest;
    TypedRoom(rest);
    assert Left(e) <= 2 by {
      TypedLeft(First(e));
      if e.Bin? { TypedLeft(e.right); }
      if e.Store? { TypedLeft(e.e); }
    }
  }

  lemma EarlierRaw(e: Expr, rest: seq<Expr>, calls: Syscalls, m: Memory)
    requires e.Bin? || e.Not? || e.Store?
    requires OperandsFine(e) && rest != [] && WellTypedAll(rest)
    ensures var (v, m') := EvalProgram(calls, [e] + rest, m);
            RawLine(calls, [e] + rest, m) == ([v], m') <==> HasType(First(e)) || e.Not?
  {
    var prog := [e] + rest;
    assert prog[0] == e && prog[1..] == rest;
    if HasType(First(e)) {
      RawLineIsEval(calls, prog, m);
    } else {
      RawOnCall(calls, e, m);
      var (a, m1) := Raw(calls, e, m);
      RawLineIsEval(calls, rest, m1);
      var (b, _) := RawLine(calls, rest, m1);
      assert RawLine(calls, prog, m).0 == a[..|a| - 1] + b;
      if e.Not? { assert [a[0]][..0] + b == b; }
    }
  }

  /** The operands without a data type are the names of functions and what is called by such a
      name; a call through a variable has the type of the variable. */
  lemma {:induction false} UntypedIsCall(e: Expr)
    requires WellTyped(e)
    ensures HasType(e) <==> !e.Func? && (e.Call? ==> HasType(e.fn))
  {
    match e
    case _ =>
  }
}
