/** Laws of the meaning of FinSH expressions that do not name how they are evaluated. */
module FinshLaws {
  import opened FinshWord
  import opened FinshExpr

  /** A variable reads back what was assigned to it, and other variables keep their values. */
  lemma AssignReads(calls: Syscalls, a: Word, e: Expr, m: Memory, b: Word)
    ensures var (x, m1) := Eval(calls, e, m);
            var (y, m2) := Eval(calls, Assign(a, e), m);
            y == x && Eval(calls, Var(b), m2).0 == (if b == a then x else Eval(calls, Var(b), m1).0)
  {
  }

  /** A store through the address of a variable is an assignment to it. */
  lemma StoreThroughAddress(calls: Syscalls, a: Word, e: Expr, m: Memory)
    ensures Eval(calls, Store(AddrOf(a), e), m) == Eval(calls, Assign(a, e), m)
    ensures Eval(calls, Deref(AddrOf(a)), m) == Eval(calls, Var(a), m)
  {
  }

  /** What was stored through a pointer is what loading through its value gives. */
  lemma StoreLoads(calls: Syscalls, p: Expr, e: Expr, m: Memory)
    ensures var (a, m1) := Eval(calls, p, m);
            var (x, m2) := Eval(calls, Store(p, e), m);
            x == Eval(calls, e, m1).0 && Eval(calls, Var(a), m2).0 == x
  {
  }

  /** The prefix increments and decrements are assignments. */
  lemma PrefixIsAssignment(calls: Syscalls, a: Word, m: Memory)
    ensures Eval(calls, PreInc(a), m) == Eval(calls, Assign(a, Bin(Add, Var(a), Const(IntLit, 1))), m)
    ensures Eval(calls, PreDec(a), m) == Eval(calls, Assign(a, Bin(Sub, Var(a), Const(IntLit, 1))), m)
  {
    var x: int := Load(m, a);
    assert Alu(Add, x, 1) == ToWord(x + 1) && Alu(Sub, x, 1) == ToWord(x - 1);
    hide Alu;
    assert Eval(calls, Bin(Add, Var(a), Const(IntLit, 1)), m) == (Alu(Add, x, 1), m);
    assert Eval(calls, Bin(Sub, Var(a), Const(IntLit, 1)), m) == (Alu(Sub, x, 1), m);
  }

  /** The postfix ones do the same and yield the old value. */
  lemma PostfixYieldsOld(calls: Syscalls, a: Word, m: Memory)
    ensures Eval(calls, PostInc(a), m) == (Eval(calls, Var(a), m).0, Eval(calls, PreInc(a), m).1)
    ensures Eval(calls, PostDec(a), m) == (Eval(calls, Var(a), m).0, Eval(calls, PreDec(a), m).1)
  {
  }

  /** A call passes the values of its arguments, evaluated from left to right, in their order, and
      a single 0 if there are none. */
  lemma CallPasses(calls: Syscalls, f: Word, args: seq<Expr>, m: Memory)
    ensures var (vs, m1) := EvalArgs(calls, args, m);
            Eval(calls, Call(Func(f), args), m) == calls(f, if args == [] then [0] else vs, m1)
  {
  }

  /** The arguments are evaluated one after the other. */
  lemma {:induction false} ArgumentAt(calls: Syscalls, args: seq<Expr>, i: nat, m: Memory)
    requires i < |args|
    ensures EvalArgs(calls, args, m).0[i] == Eval(calls, args[i], EvalArgs(calls, args[..i], m).1).0
    decreases i
  {
    if i > 0 {
      var m1 := Eval(calls, args[0], m).1;
      assert args[..i][1..] == args[1..][..i - 1];
      ArgumentAt(calls, args[1..], i - 1, m1);
    } else {
      assert args[..0] == [];
    }
  }
}
