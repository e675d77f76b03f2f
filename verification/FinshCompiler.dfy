/** The compiler as it runs: finsh_type_check and finsh_compiler_run rewrite the node table
    in place, finsh_compile writes the text segment through a moving program counter. */
module FinshCompiler {
  import opened FinshWord
  import opened FinshTree
  import opened FinshExpr
  import opened FinshRaw
  import opened FinshVm
  import opened FinshCorrectness

  const NULL := -1
  const FINSH_NODE_MAX := 16

  /** One entry of global_node_table; links are table indices. */
  datatype Entry = Entry(info: Info, child: int, sibling: int)

  /** The table indices a tree occupies. */
  ghost function Foot(t: Tree): set<int> {
    match t
    case Nil => {}
    case Node(at, _, c, s) => {at} + Foot(c) + Foot(s)
  }

  /** Entry i of the table is the root of tree t, and the nodes of t do not overlap. */
  ghost predicate Rep(nodes: seq<Entry>, i: int, t: Tree)
    decreases t
  {
    match t
    case Nil => i == NULL
    case Node(at, info, c, s) =>
      && i == at < |nodes|
      && nodes[at].info == info
      && Rep(nodes, nodes[at].child, c)
      && Rep(nodes, nodes[at].sibling, s)
      && at !in Foot(c) && at !in Foot(s) && Foot(c) !! Foot(s)
  }

  lemma {:induction false} RepFrame(n1: seq<Entry>, n2: seq<Entry>, i: int, t: Tree)
    requires Rep(n1, i, t) && |n1| == |n2|
    requires forall k :: k in Foot(t) && 0 <= k < |n1| ==> n2[k] == n1[k]
    ensures Rep(n2, i, t)
    decreases t
  {
    match t
    case Nil =>
    case Node(at, _, c, s) =>
      RepFrame(n1, n2, n1[at].child, c);
      RepFrame(n1, n2, n1[at].sibling, s);
  }

  lemma {:induction false} FootOfCheck(t: Tree, isAddr: bool)
    ensures Foot(FinshTree.TypeCheck(t, isAddr)) == Foot(t)
  {
    match t
    case Nil =>
    case Node(_, info, c, s) =>
      FootOfCheck(c, ChildIsAddr(info.kind, isAddr));
      FootOfCheck(s, false);
  }

  ghost function Indices(n: nat): (r: set<int>)
    ensures |r| == n && forall k :: k in r <==> 0 <= k < n
  {
    if n == 0 then {} else Indices(n - 1) + {n - 1}
  }

  lemma {:induction false} FootWithinTable(nodes: seq<Entry>, i: int, t: Tree)
    requires Rep(nodes, i, t)
    ensures Foot(t) <= Indices(|nodes|)
    decreases t
  {
    match t
    case Nil =>
    case Node(at, _, c, s) =>
      FootWithinTable(nodes, nodes[at].child, c);
      FootWithinTable(nodes, nodes[at].sibling, s);
  }

  lemma {:induction false} FootSize(nodes: seq<Entry>, i: int, t: Tree)
    requires Rep(nodes, i, t)
    ensures |Foot(t)| == Count(t)
    decreases t
  {
    match t
    case Nil =>
    case Node(at, _, c, s) =>
      FootSize(nodes, nodes[at].child, c);
      FootSize(nodes, nodes[at].sibling, s);
      var both := Foot(c) + Foot(s);
      assert |both| == |Foot(c)| + |Foot(s)|;
      assert at !in both && Foot(t) == {at} + both;
  }

  lemma {:induction false} SubsetSize<T>(a: set<T>, b: set<T>)
    requires a <= b
    ensures |a| <= |b|
    decreases a
  {
    if a != {} {
      var x :| x in a;
      SubsetSize(a - {x}, b - {x});
    }
  }

  /** A tree in the table has no more nodes than the table has entries. */
  lemma CountWithinTable(nodes: seq<Entry>, i: int, t: Tree)
    requires Rep(nodes, i, t)
    ensures Count(t) <= |nodes|
  {
    FootSize(nodes, i, t);
    FootWithinTable(nodes, i, t);
    SubsetSize(Foot(t), Indices(|nodes|));
  }

  /** The text with code written over it at pc. */
  function Written(text: seq<Byte>, pc: nat, code: seq<Byte>): (r: seq<Byte>)
    requires pc + |code| <= |text|
    ensures |r| == |text|
  {
    text[..pc] + code + text[pc + |code|..]
  }

  lemma WrittenNothing(text: seq<Byte>, pc: nat)
    requires pc <= |text|
    ensures Written(text, pc, []) == text
  {
  }

  lemma WrittenTwice(text: seq<Byte>, pc: nat, a: seq<Byte>, b: seq<Byte>)
    requires pc + |a| + |b| <= |text|
    ensures Written(Written(text, pc, a), pc + |a|, b) == Written(text, pc, a + b)
  {
  }

  /** Writing from the start of a cleared text gives the code followed by zeros. */
  lemma WrittenOnZeros(n: nat, code: seq<Byte>)
    requires |code| <= n
    ensures Written(Zeros(n), 0, []) == Zeros(n) && Written(Zeros(n), 0, code) == Segment(code, n)
  {
  }

  lemma JoinStatement(done: seq<Byte>, code: seq<Byte>, rest: seq<Byte>)
    ensures done + (code + []) == done + code
    ensures done + (code + ([OP_POP] + rest)) == done + code + [OP_POP] + rest
  {
  }

  class Compiler {
    const nodes: array<Entry>
    const text: array<Byte>
    var pc: nat

    constructor (nodes: array<Entry>, text: array<Byte>)
      ensures this.nodes == nodes && this.text == text && pc == 0
    {
      this.nodes := nodes;
      this.text := text;
      pc := 0;
    }

    /** The attributes of one node (finsh_compiler.c:789-898), its child already checked. */
    method SetAttributes(i: int, isAddr: bool)
      requires 0 <= i < nodes.Length && NULL <= nodes[i].child < nodes.Length && nodes[i].child != i
      modifies nodes
      ensures var e := old(nodes[i]);
              var ty := if e.child != NULL then old(nodes[e.child]).info.dataType else LeafType(e.info);
              nodes[..] == old(nodes[..])[i := e.(info := Annotate(e.info, isAddr, ty))]
    {
      var e := nodes[i];
      var info := e.info;
      if !info.idType.SyscallId? {
        info := info.(address := info.address || isAddr);
      }
      if e.child != NULL {
        info := info.(dataType := nodes[e.child].info.dataType);
      } else if info.kind.Id? {
        if info.idType.VarId? { info := info.(dataType := Dword); }
      } else if info.kind.ValueInt? || info.kind.ValueLong? || info.kind.ValueString? || info.kind.ValueNull? {
        info := info.(dataType := Dword);
      }
      nodes[i] := e.(info := info);
    }

    /** finsh_type_check: annotates the tree at i in place and touches no other node. */
    method TypeCheck(i: int, isAddr: bool, ghost t: Tree)
      requires Rep(nodes[..], i, t)
      modifies nodes
      ensures Rep(nodes[..], i, FinshTree.TypeCheck(t, isAddr))
      ensures forall k :: 0 <= k < nodes.Length && k !in Foot(t) ==> nodes[k] == old(nodes[k])
      decreases t
    {
      hide Annotate, LeafType;
      if i != NULL {
        ghost var n0 := nodes[..];
        var kind := nodes[i].info.kind;
        var childIsAddr := isAddr;
        if kind.SysAssign? || kind.SysPreInc? || kind.SysPreDec? || kind.SysGetAddr? {
          childIsAddr := true;
        } else if kind.SysGetValue? && isAddr {
          childIsAddr := false;
        }
        TypeCheck(nodes[i].child, childIsAddr, t.child);
        ghost var n1 := nodes[..];
        RepFrame(n0, n1, n0[i].sibling, t.sibling);
        TypeCheck(nodes[i].sibling, false, t.sibling);
        ghost var n2 := nodes[..];
        FootOfCheck(t.child, childIsAddr);
        FootOfCheck(t.sibling, false);
        ghost var c := FinshTree.TypeCheck(t.child, childIsAddr);
        ghost var s := FinshTree.TypeCheck(t.sibling, false);
        RepFrame(n1, n2, n0[i].child, c);
        SetAttributes(i, isAddr);
        RepFrame(n2, nodes[..], n0[i].child, c);
        RepFrame(n2, nodes[..], n0[i].sibling, s);
      }
    }

    /** finsh_code_byte. */
    method EmitByte(b: Byte)
      requires pc < text.Length
      modifies text, `pc
      ensures pc == old(pc) + 1 && text[..] == Written(old(text[..]), old(pc), [b])
    {
      text[pc] := b;
      pc := pc + 1;
    }

    /** finsh_code_dword. */
    method EmitDword(w: Word)
      requires pc + 4 <= text.Length
      modifies text, `pc
      ensures pc == old(pc) + 4 && text[..] == Written(old(text[..]), old(pc), Put32(w))
    {
      text[pc] := w % 256;
      text[pc + 1] := w / 256 % 256;
      text[pc + 2] := w / 65536 % 256;
      text[pc + 3] := w / 16777216;
      pc := pc + 4;
    }

    /** An opcode followed by a dword operand. */
    method EmitLoad(op: Byte, w: Word)
      requires pc + 5 <= text.Length
      modifies text, `pc
      ensures pc == old(pc) + 5 && text[..] == Written(old(text[..]), old(pc), [op] + Put32(w))
    {
      EmitByte(op);
      EmitDword(w);
      WrittenTwice(old(text[..]), old(pc), [op], Put32(w));
    }

    /** The load, add or subtract, and store of ++ and --. */
    method EmitBump(a: Word, op: BinOp)
      requires pc + 12 <= text.Length
      modifies text, `pc
      ensures pc == old(pc) + 12 && text[..] == Written(old(text[..]), old(pc), Bump(a, op))
    {
      hide Put32, Written;
      ghost var t0, p0 := text[..], pc;
      EmitLoad(OP_LD_VALUE_DWORD, a);
      EmitLoad(OP_LD_DWORD, 1);
      ghost var c1: seq<Byte> := [OP_LD_VALUE_DWORD] + Put32(a);
      ghost var c2: seq<Byte> := [OP_LD_DWORD] + Put32(1);
      WrittenTwice(t0, p0, c1, c2);
      EmitByte(OpCode(op));
      WrittenTwice(t0, p0, c1 + c2, [OpCode(op)]);
      EmitByte(OP_ST_DWORD);
      WrittenTwice(t0, p0, c1 + c2 + [OpCode(op)], [OP_ST_DWORD]);
      assert Bump(a, op) == c1 + c2 + [OpCode(op)] + [OP_ST_DWORD];
    }

    /** The number of arguments of a call: the siblings of the function identifier. */
    method CountSiblings(i: int, ghost t: Tree) returns (n: nat)
      requires Rep(nodes[..], i, t)
      ensures n == ChainLength(t)
    {
      n := 0;
      var j := i;
      ghost var rest := t;
      while j != NULL
        invariant Rep(nodes[..], j, rest)
        invariant n + ChainLength(rest) == ChainLength(t)
        decreases rest
      {
        n := n + 1;
        j := nodes[j].sibling;
        rest := rest.sibling;
      }
    }

    /** ++ and -- before the variable (finsh_compiler.c:373-532): nothing unless the operand
        is an identifier of a known type. */
    method EmitPreBump(i: int, op: BinOp, ghost t: Tree)
      requires t.Node? && Rep(nodes[..], i, t)
      requires pc + |PreBump(t.info, t.child, op)| <= text.Length
      modifies text, `pc
      ensures pc == old(pc) + |PreBump(t.info, t.child, op)|
      ensures text[..] == Written(old(text[..]), old(pc), PreBump(t.info, t.child, op))
    {
      var child := nodes[i].child;
      if child != NULL && nodes[child].info.kind.Id? && nodes[i].info.dataType.Dword? {
        var a := nodes[child].info.value;
        EmitBump(a, op);
        EmitByte(OP_LD_VALUE_DWORD_STACK);
        WrittenTwice(old(text[..]), old(pc), Bump(a, op), [OP_LD_VALUE_DWORD_STACK]);
      }
    }

    /** ++ and -- after the variable (finsh_compiler.c:535-712). */
    method EmitPostBump(i: int, op: BinOp, ghost t: Tree)
      requires t.Node? && Rep(nodes[..], i, t)
      requires pc + |PostBump(t.info, t.child, op)| <= text.Length
      modifies text, `pc
      ensures pc == old(pc) + |PostBump(t.info, t.child, op)|
      ensures text[..] == Written(old(text[..]), old(pc), PostBump(t.info, t.child, op))
    {
      var child := nodes[i].child;
      if child != NULL && nodes[child].info.kind.Id? && nodes[i].info.dataType.Dword? {
        var a := nodes[child].info.value;
        EmitLoad(OP_LD_DWORD, a);
        EmitBump(a, op);
        WrittenTwice(old(text[..]), old(pc), [OP_LD_DWORD] + Put32(a), Bump(a, op));
        EmitByte(OP_POP);
        WrittenTwice(old(text[..]), old(pc), [OP_LD_DWORD] + Put32(a) + Bump(a, op), [OP_POP]);
      }
    }

    method EmitCall(i: int, ghost t: Tree)
      requires t.Node? && t.info.kind.SysFunc? && Rep(nodes[..], i, t)
      requires pc + |Own(t.info, t.child)| <= text.Length
      modifies text, `pc
      ensures pc == old(pc) + |Own(t.info, t.child)|
      ensures text[..] == Written(old(text[..]), old(pc), Own(t.info, t.child))
    {
      var child := nodes[i].child;
      if child != NULL {
        var parameters := CountSiblings(nodes[child].sibling, t.child.sibling);
        EmitByte(OP_SYSCALL);
        EmitByte(parameters % 256);
        WrittenTwice(old(text[..]), old(pc), [OP_SYSCALL], [parameters % 256]);
        assert [OP_SYSCALL] + [parameters % 256] == Own(t.info, t.child);
      }
    }

    method EmitAssign(i: int, ghost t: Tree)
      requires t.Node? && t.info.kind.SysAssign? && Rep(nodes[..], i, t)
      requires pc + |Own(t.info, t.child)| <= text.Length
      modifies text, `pc
      ensures pc == old(pc) + |Own(t.info, t.child)|
      ensures text[..] == Written(old(text[..]), old(pc), Own(t.info, t.child))
    {
      var child := nodes[i].child;
      if child != NULL && (nodes[child].info.kind.Id? || nodes[child].info.kind.SysGetValue?)
         && nodes[child].info.dataType.Dword? {
        EmitByte(OP_ST_DWORD);
        EmitByte(OP_LD_VALUE_DWORD_STACK);
        WrittenTwice(old(text[..]), old(pc), [OP_ST_DWORD], [OP_LD_VALUE_DWORD_STACK]);
        assert [OP_ST_DWORD] + [OP_LD_VALUE_DWORD_STACK] == Own(t.info, t.child);
      }
    }

    /** The switch over node types in finsh_compile. */
    method EmitOwn(i: int, ghost t: Tree)
      requires t.Node? && Rep(nodes[..], i, t)
      requires pc + |Own(t.info, t.child)| <= text.Length
      modifies text, `pc
      ensures pc == old(pc) + |Own(t.info, t.child)|
      ensures text[..] == Written(old(text[..]), old(pc), Own(t.info, t.child))
    {
      hide Put32;
      var info := nodes[i].info;
      match info.kind
      case Id =>
        if info.idType.SyscallId? || info.address {
          EmitLoad(OP_LD_DWORD, info.value);
        } else {
          EmitLoad(OP_LD_VALUE_DWORD, info.value);
        }
      case ValueInt => EmitLoad(OP_LD_DWORD, info.value);
      case ValueLong => EmitLoad(OP_LD_DWORD, info.value);
      case ValueString => EmitLoad(OP_LD_DWORD, info.value);
      case ValueNull => EmitLoad(OP_LD_DWORD, info.value);
      case SysBin(op) => if info.dataType.Dword? { EmitByte(OpCode(op)); }
      case SysBitwise => if info.dataType.Dword? { EmitByte(OP_BITWISE_DWORD); }
      case SysFunc => EmitCall(i, t);
      case SysAssign => EmitAssign(i, t);
      case SysPreInc => EmitPreBump(i, Add, t);
      case SysPreDec => EmitPreBump(i, Sub, t);
      case SysInc => EmitPostBump(i, Add, t);
      case SysDec => EmitPostBump(i, Sub, t);
      case SysNull => EmitDword(0);
      case SysGetValue => if !info.address && info.dataType.Dword? { EmitByte(OP_LD_VALUE_DWORD_STACK); }
      case _ =>
    }

    /** finsh_compile: child, own code, sibling. */
    method Compile(i: int, ghost t: Tree)
      requires Rep(nodes[..], i, t)
      requires pc + |Code(t)| <= text.Length
      modifies text, `pc
      ensures pc == old(pc) + |Code(t)|
      ensures text[..] == Written(old(text[..]), old(pc), Code(t))
      decreases t
    {
      hide Own, Written;
      ghost var t0, p0 := text[..], pc;
      WrittenNothing(t0, p0);
      if i != NULL {
        Compile(nodes[i].child, t.child);
        EmitOwn(i, t);
        WrittenTwice(t0, p0, Code(t.child), Own(t.info, t.child));
        Compile(nodes[i].sibling, t.sibling);
        WrittenTwice(t0, p0, Code(t.child) + Own(t.info, t.child), Code(t.sibling));
      }
    }

    /** One round of the loop in finsh_compiler_run: the statement is compiled without its
        sibling, whose link is cut. */
    method CompileStatement(current: int, ghost t: Tree) returns (sibling: int)
      requires t.Node? && Rep(nodes[..], current, t)
      requires pc + |Code(t.(sibling := Nil))| <= text.Length
      modifies nodes, text, `pc
      ensures Rep(nodes[..], sibling, t.sibling)
      ensures pc == old(pc) + |Code(t.(sibling := Nil))|
      ensures text[..] == Written(old(text[..]), old(pc), Code(t.(sibling := Nil)))
    {
      hide Code, Written;
      sibling := nodes[current].sibling;
      ghost var n0 := nodes[..];
      nodes[current] := nodes[current].(sibling := NULL);
      RepFrame(n0, nodes[..], n0[current].child, t.child);
      RepFrame(n0, nodes[..], sibling, t.sibling);
      assert Rep(nodes[..], NULL, Nil);
      Compile(current, t.(sibling := Nil));
    }

    /** finsh_compiler_run: the text segment ends up holding the program's code and zeros. */
    method Run(root: int, ghost t: Tree)
      requires Rep(nodes[..], root, t)
      requires |ProgramCode(FinshTree.TypeCheck(t, false))| <= text.Length
      modifies nodes, text, `pc
      ensures text[..] == Segment(ProgramCode(FinshTree.TypeCheck(t, false)), text.Length)
    {
      TypeCheck(root, false, t);
      ClearText();
      CompileChain(root, FinshTree.TypeCheck(t, false));
    }

    method CompileChain(root: int, ghost t: Tree)
      requires Rep(nodes[..], root, t) && |ProgramCode(t)| <= text.Length
      requires pc == 0 && text[..] == Zeros(text.Length)
      modifies nodes, text, `pc
      ensures text[..] == Segment(ProgramCode(t), text.Length)
    {
      hide Code, Written, Segment;
      ghost var zeros := text[..];
      var sibling := root;
      ghost var rest, done: seq<Byte> := t, [];
      WrittenOnZeros(text.Length, []);
      while sibling != NULL
        invariant Rep(nodes[..], sibling, rest)
        invariant done + ProgramCode(rest) == ProgramCode(t)
        invariant pc == |done| && text[..] == Written(zeros, 0, done)
        decreases rest
      {
        ghost var code := Code(rest.(sibling := Nil));
        assert ProgramCode(rest) == code + if rest.sibling.Nil? then [] else [OP_POP] + ProgramCode(rest.sibling);
        sibling := CompileStatement(sibling, rest);
        WrittenTwice(zeros, 0, done, code);
        JoinStatement(done, code, ProgramCode(rest.sibling));
        done := done + code;
        if sibling != NULL {
          EmitByte(OP_POP);
          WrittenTwice(zeros, 0, done, [OP_POP]);
          done := done + [OP_POP];
        }
        rest := rest.sibling;
      }
      assert done + [] == done;
      WrittenOnZeros(text.Length, done);
    }

    /** memset of the text segment, and the program counter back to its start. */
    method ClearText()
      modifies text, `pc
      ensures pc == 0
      ensures text[..] == Zeros(text.Length)
    {
      for k := 0 to text.Length
        invariant forall j :: 0 <= j < k ==> text[j] == OP_NOOP
      {
        text[k] := OP_NOOP;
      }
      pc := 0;
    }
  }

  /** The compiled form of a line in the table fits the machine and leaves the line's values. */
  lemma LineInTable(nodes: seq<Entry>, root: int, t: Tree, prog: seq<Expr>, calls: Syscalls, mem: Memory)
    requires |nodes| == FINSH_NODE_MAX && Rep(nodes, root, t) && Strip(t) == EncodeAll(prog)
    requires prog != [] && |StatementsCode(prog)| <= FINSH_TEXT_MAX
    ensures var code := ProgramCode(FinshTree.TypeCheck(t, false));
            var (vs, m) := RawLine(calls, prog, mem);
            && |code| <= FINSH_TEXT_MAX
            && Finish(Segment(code, FINSH_TEXT_MAX), calls, FINSH_STACK_MAX, State(0, [], mem))
               == Ok(State(FINSH_TEXT_MAX, vs, m))
  {
    hide Finish, ExprCode, Raw, RawLine, Nodes, CallsFit, Rep, Segment, Code, StatementsCode, Room;
    CountWithinTable(nodes, root, t);
    StripCount(t);
    NodeLimitBoundsMachine(prog);
    StripTypeCheck(t, false);
    StripProgramCode(FinshTree.TypeCheck(t, false));
    CodeOfProgram(prog);
    CompiledLineLeaves(prog, FINSH_TEXT_MAX, FINSH_STACK_MAX, calls, mem);
  }

  /** A line from the node table to the value that finsh_stack_bottom reports: compile, run.
      Whatever the layout of the nodes in the table and the types in the line, slot 0 of the
      stack holds the first raw value of the line. For a well-typed line that is its value, and
      memory is what evaluating the line leaves. */
  method EvaluateLine(nodes: array<Entry>, text: array<Byte>, root: int, calls: Syscalls, mem: Memory,
                      ghost t: Tree, ghost prog: seq<Expr>)
      returns (bottom: Word, after: Memory)
    requires nodes.Length == FINSH_NODE_MAX && text.Length == FINSH_TEXT_MAX
    requires Rep(nodes[..], root, t) && Strip(t) == EncodeAll(prog)
    requires prog != [] && |StatementsCode(prog)| <= FINSH_TEXT_MAX
    modifies nodes, text
    ensures bottom == RawLine(calls, prog, mem).0[0] && after == RawLine(calls, prog, mem).1
    ensures WellTypedAll(prog) ==> (bottom, after) == EvalProgram(calls, prog, mem)
  {
    hide Finish, Segment, EvalProgram, StatementsCode, WellTypedAll, ProgramCode, FinshTree.TypeCheck, RawLine;
    LineInTable(nodes[..], root, t, prog, calls, mem);
    if WellTypedAll(prog) { RawLineIsEval(calls, prog, mem); }
    var compiler := new Compiler(nodes, text);
    compiler.Run(root, t);
    var vm := new Vm(text, calls, mem);
    vm.Run();
    assert vm.View().stack == vm.stack[..vm.sp];
    bottom := vm.stack[0];
    after := vm.mem;
  }
}
