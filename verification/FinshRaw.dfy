/** What the code of an expression does when operators are missing from it: the values that it
    leaves on the stack, for expressions of any types. */
module FinshRaw {
  import opened FinshWord
  import opened FinshExpr

  // ----- operations on the top of the stack -----

  function TopBin(op: BinOp, vs: seq<Word>): seq<Word>
    requires |vs| >= 2
  {
    vs[..|vs| - 2] + [Alu(op, vs[|vs| - 2], vs[|vs| - 1])]
  }

  function TopStore(vs: seq<Word>, m: Memory): (seq<Word>, Memory)
    requires |vs| >= 2
  {
    (vs[..|vs| - 2] + [vs[|vs| - 1]], m[vs[|vs| - 2] := vs[|vs| - 1]])
  }

  function TopCall(calls: Syscalls, n: nat, vs: seq<Word>, m: Memory): (seq<Word>, Memory)
    requires |vs| >= n + 1
  {
    var i := |vs| - n - 1;
    var (v, m') := calls(vs[i], Actuals(vs[i + 1..]), m);
    (vs[..i] + [v], m')
  }

  function Top(vs: seq<Word>, v: Word): seq<Word>
    requires vs != []
  {
    vs[..|vs| - 1] + [v]
  }

  // ----- expressions -----

  /** The values that the code of e pushes. An operator whose first operand has no data type is
      not there; the others take what is on top of the stack. */
  function Raw(calls: Syscalls, e: Expr, m: Memory): (r: (seq<Word>, Memory))
    ensures |r.0| >= 1
    decreases e, 1
  {
    match e
    case Bin(op, l, r) =>
      var (a, m1) := Raw(calls, l, m);
      var (b, m2) := Raw(calls, r, m1);
      (if HasType(l) then TopBin(op, a + b) else a + b, m2)
    case Not(e1) =>
      var (a, m1) := Raw(calls, e1, m);
      (if HasType(e1) then Top(a, Complement(a[|a| - 1])) else a, m1)
    case Deref(e1) =>
      var (a, m1) := Raw(calls, e1, m);
      (if HasType(e1) then Top(a, Load(m1, a[|a| - 1])) else a, m1)
    case Assign(x, e1) =>
      var (b, m1) := Raw(calls, e1, m);
      TopStore([x] + b, m1)
    case Store(p, e1) =>
      var (a, m1) := Raw(calls, p, m);
      var (b, m2) := Raw(calls, e1, m1);
      if HasType(p) then TopStore(a + b, m2) else (a + b, m2)
    case Call(fn, args) =>
      var (a, m1) := Raw(calls, fn, m);
      var (b, m2) := RawArgs(calls, args, m1);
      TopCall(calls, |args|, a + b, m2)
    case _ =>
      var (v, m1) := Eval(calls, e, m);
      ([v], m1)
  }

  function RawArgs(calls: Syscalls, args: seq<Expr>, m: Memory): (r: (seq<Word>, Memory))
    ensures |r.0| >= |args|
    decreases args, 0
  {
    if args == [] then ([], m)
    else
      var (a, m1) := Raw(calls, args[0], m);
      var (b, m2) := RawArgs(calls, args[1..], m1);
      (a + b, m2)
  }

  /** A line: every statement but the last loses one value to the pop behind it. */
  function RawLine(calls: Syscalls, prog: seq<Expr>, m: Memory): (r: (seq<Word>, Memory))
    requires prog != []
    ensures |r.0| >= 1
  {
    var (a, m1) := Raw(calls, prog[0], m);
    if |prog| == 1 then (a, m1)
    else
      var (b, m2) := RawLine(calls, prog[1..], m1);
      (a[..|a| - 1] + b, m2)
  }

  // ----- well-typed expressions -----

  lemma {:induction false} RawIsEval(calls: Syscalls, e: Expr, m: Memory)
    requires WellTyped(e)
    ensures var (v, m') := Eval(calls, e, m); Raw(calls, e, m) == ([v], m')
    decreases e, 1
  {
    hide Alu, HasType;
    match e
    case Bin(op, l, r) =>
      RawIsEval(calls, l, m);
      RawIsEval(calls, r, Eval(calls, l, m).1);
      Pair(Eval(calls, l, m).0, Eval(calls, r, Eval(calls, l, m).1).0);
    case Not(e1) =>
      RawIsEval(calls, e1, m);
      OnlyTop(Eval(calls, e1, m).0, Complement(Eval(calls, e1, m).0));
    case Deref(e1) =>
      RawIsEval(calls, e1, m);
      OnlyTop(Eval(calls, e1, m).0, Load(Eval(calls, e1, m).1, Eval(calls, e1, m).0));
    case Assign(x, e1) =>
      RawIsEval(calls, e1, m);
      Pair(x, Eval(calls, e1, m).0);
    case Store(p, e1) =>
      RawIsEval(calls, p, m);
      RawIsEval(calls, e1, Eval(calls, p, m).1);
      Pair(Eval(calls, p, m).0, Eval(calls, e1, Eval(calls, p, m).1).0);
    case Call(fn, args) =>
      var (f, m1) := Eval(calls, fn, m);
      RawIsEval(calls, fn, m);
      RawArgsIsEval(calls, args, m1);
      var (vs, m2) := EvalArgs(calls, args, m1);
      OnlyCall(calls, f, vs, m2);
    case _ =>
  }

  lemma Pair(x: Word, y: Word)
    ensures [x] + [y] == [x, y] && [x, y][..0] == []
    ensures forall v: Word :: [] + [v] == [v]
  {
  }

  lemma OnlyTop(x: Word, v: Word)
    ensures Top([x], v) == [v]
  {
  }

  lemma OnlyCall(calls: Syscalls, f: Word, vs: seq<Word>, m: Memory)
    ensures var (v, m') := calls(f, Actuals(vs), m); TopCall(calls, |vs|, [f] + vs, m) == ([v], m')
  {
    var s := [f] + vs;
    var (v, m') := calls(f, Actuals(vs), m);
    assert s[0] == f && s[1..] == vs && s[..0] + [v] == [v];
  }

  lemma {:induction false} RawArgsIsEval(calls: Syscalls, args: seq<Expr>, m: Memory)
    requires WellTypedAll(args)
    ensures RawArgs(calls, args, m) == EvalArgs(calls, args, m)
    decreases args, 0
  {
    if args != [] {
      RawIsEval(calls, args[0], m);
      RawArgsIsEval(calls, args[1..], Eval(calls, args[0], m).1);
    }
  }

  lemma {:induction false} RawLineIsEval(calls: Syscalls, prog: seq<Expr>, m: Memory)
    requires prog != [] && WellTypedAll(prog)
    ensures var (v, m') := EvalProgram(calls, prog, m); RawLine(calls, prog, m) == ([v], m')
  {
    RawIsEval(calls, prog[0], m);
    if |prog| > 1 {
      var (v, m1) := Eval(calls, prog[0], m);
      RawLineIsEval(calls, prog[1..], m1);
      var (b, _) := RawLine(calls, prog[1..], m1);
      assert [v][..0] + b == b;
    }
  }

  // ----- how many values are left -----

  /** The number of values that the code of e leaves. */
  function Left(e: Expr): (n: nat)
    ensures 1 <= n <= Nodes(e)
    decreases e, 1
  {
    match e
    case Bin(_, l, r) => Left(l) + Left(r) - if HasType(l) then 1 else 0
    case Not(e1) => Left(e1)
    case Deref(e1) => Left(e1)
    case Assign(_, e1) => Left(e1)
    case Store(p, e1) => Left(p) + Left(e1) - if HasType(p) then 1 else 0
    case Call(fn, args) => Left(fn) + LeftAll(args) - |args|
    case _ => 1
  }

  function LeftAll(es: seq<Expr>): (n: nat)
    ensures |es| <= n <= NodesAll(es)
    decreases es, 0
  {
    if es == [] then 0 else Left(es[0]) + LeftAll(es[1..])
  }

  lemma {:induction false} LeftIs(calls: Syscalls, e: Expr, m: Memory)
    ensures |Raw(calls, e, m).0| == Left(e)
    decreases e, 1
  {
    hide Alu, HasType;
    match e
    case Bin(op, l, r) =>
      LeftIs(calls, l, m);
      LeftIs(calls, r, Raw(calls, l, m).1);
    case Not(e1) => LeftIs(calls, e1, m);
    case Deref(e1) => LeftIs(calls, e1, m);
    case Assign(x, e1) => LeftIs(calls, e1, m);
    case Store(p, e1) =>
      LeftIs(calls, p, m);
      LeftIs(calls, e1, Raw(calls, p, m).1);
    case Call(fn, args) =>
      LeftIs(calls, fn, m);
      LeftAllIs(calls, args, Raw(calls, fn, m).1);
    case _ =>
  }

  lemma {:induction false} LeftAllIs(calls: Syscalls, args: seq<Expr>, m: Memory)
    ensures |RawArgs(calls, args, m).0| == LeftAll(args)
    decreases args, 0
  {
    if args != [] {
      LeftIs(calls, args[0], m);
      LeftAllIs(calls, args[1..], Raw(calls, args[0], m).1);
    }
  }

  /** Every operator that takes two values has a typed first operand, at any depth. */
  predicate Paired(e: Expr)
    decreases e, 1
  {
    match e
    case Bin(_, l, r) => HasType(l) && Paired(l) && Paired(r)
    case Not(e1) => Paired(e1)
    case Deref(e1) => Paired(e1)
    case Assign(_, e1) => Paired(e1)
    case Store(p, e1) => HasType(p) && Paired(p) && Paired(e1)
    case Call(fn, args) => Paired(fn) && PairedAll(args)
    case _ => true
  }

  predicate PairedAll(es: seq<Expr>)
    decreases es, 0
  {
    es == [] || (Paired(es[0]) && PairedAll(es[1..]))
  }

  /** One value is left exactly by the expressions without such a gap. */
  lemma {:induction false} LeftOne(e: Expr)
    ensures Left(e) == 1 <==> Paired(e)
    decreases e, 1
  {
    match e
    case Bin(op, l, r) => LeftOne(l); LeftOne(r);
    case Not(e1) => LeftOne(e1);
    case Deref(e1) => LeftOne(e1);
    case Assign(x, e1) => LeftOne(e1);
    case Store(p, e1) => LeftOne(p); LeftOne(e1);
    case Call(fn, args) => LeftOne(fn); LeftOneEach(args);
    case _ =>
  }

  lemma {:induction false} LeftOneEach(es: seq<Expr>)
    ensures LeftAll(es) == |es| <==> PairedAll(es)
    decreases es, 0
  {
    if es != [] {
      LeftOne(es[0]);
      LeftOneEach(es[1..]);
    }
  }

  lemma {:induction false} LeftLineIs(calls: Syscalls, prog: seq<Expr>, m: Memory)
    requires prog != []
    ensures |RawLine(calls, prog, m).0| == LeftAll(prog) - |prog| + 1
    ensures |RawLine(calls, prog, m).0| == 1 <==> PairedAll(prog)
    decreases |prog|
  {
    hide Raw, Left, Paired;
    LeftIs(calls, prog[0], m);
    LeftOneEach(prog);
    if |prog| > 1 { LeftLineIs(calls, prog[1..], Raw(calls, prog[0], m).1); }
  }

  /** The stack slots that a line needs: two more than the nodes of a statement, on top of what
      the earlier ones have left. */
  function Room(prog: seq<Expr>): (n: nat) {
    if prog == [] then 0
    else
      var here, later := Nodes(prog[0]) + 2, Left(prog[0]) - 1 + Room(prog[1..]);
      if here >= later then here else later
  }

  lemma {:induction false} RoomBound(prog: seq<Expr>)
    ensures Room(prog) <= NodesAll(prog) + 2
  {
    if prog != [] { RoomBound(prog[1..]); }
  }
}
