/** The FinSH stack machine: fetch and execute over the text segment. `Step` and `Finish`
    describe it over values; class `Vm` runs it on its stack array and program counter. */
module FinshVm {
  import opened FinshWord
  import opened FinshTree
  import opened FinshExpr

  const FINSH_STACK_MAX := 64
  const FINSH_TEXT_MAX := 128
  const CALL_PARAMETERS_MAX := 16

  datatype State = State(pc: nat, stack: seq<Word>, mem: Memory)

  /** `Fault` stands for everything the C machine has no check against: running off the
      stack or the text segment, more call parameters than OP_call has room for, and
      opcodes outside the dword subset. */
  datatype Outcome = Fault | Ok(s: State)

  datatype Option<T> = None | Some(value: T)

  function BinOf(code: Byte): Option<BinOp> {
    if code == OP_ADD_DWORD then Some(Add)
    else if code == OP_SUB_DWORD then Some(Sub)
    else if code == OP_MUL_DWORD then Some(Mul)
    else if code == OP_DIV_DWORD then Some(Div)
    else if code == OP_MOD_DWORD then Some(Mod)
    else if code == OP_AND_DWORD then Some(And)
    else if code == OP_OR_DWORD then Some(Or)
    else if code == OP_XOR_DWORD then Some(Xor)
    else if code == OP_SHL_DWORD then Some(Shl)
    else if code == OP_SHR_DWORD then Some(Shr)
    else None
  }

  lemma BinOfOpCode(op: BinOp)
    ensures BinOf(OpCode(op)) == Some(op)
  {
  }

  /** One instruction, the opcode at s.pc already known to be inside the text segment.
      `limit` is the number of stack slots. */
  function Step(text: seq<Byte>, calls: Syscalls, limit: nat, s: State): (r: Outcome)
    requires s.pc < |text|
    ensures r.Ok? ==> s.pc < r.s.pc <= |text|
  {
    var op, pc, d := text[s.pc], s.pc + 1, |s.stack|;
    if op == OP_NOOP then Ok(s.(pc := pc))
    else if BinOf(op).Some? then
      if d < 2 then Fault
      else Ok(State(pc, s.stack[..d - 2] + [Alu(BinOf(op).value, s.stack[d - 2], s.stack[d - 1])], s.mem))
    else if op == OP_BITWISE_DWORD then
      if d < 1 then Fault else Ok(State(pc, s.stack[..d - 1] + [Complement(s.stack[d - 1])], s.mem))
    else if op == OP_LD_DWORD then
      if |text| < pc + 4 || limit <= d then Fault
      else Ok(State(pc + 4, s.stack + [Get32(text[pc..pc + 4])], s.mem))
    else if op == OP_LD_VALUE_DWORD then
      if |text| < pc + 4 || limit <= d then Fault
      else Ok(State(pc + 4, s.stack + [Load(s.mem, Get32(text[pc..pc + 4]))], s.mem))
    else if op == OP_LD_VALUE_DWORD_STACK then
      if d < 1 then Fault else Ok(State(pc, s.stack[..d - 1] + [Load(s.mem, s.stack[d - 1])], s.mem))
    else if op == OP_ST_DWORD then
      if d < 2 then Fault else Ok(State(pc, s.stack[..d - 1], s.mem[s.stack[d - 2] := s.stack[d - 1]]))
    else if op == OP_POP then
      if d < 1 then Fault else Ok(State(pc, s.stack[..d - 1], s.mem))
    else if op == OP_SYSCALL then
      if |text| < pc + 1 || CALL_PARAMETERS_MAX < text[pc] || d < text[pc] + 1 then Fault
      else
        var n := text[pc];
        var (r, m) := calls(s.stack[d - n - 1], Actuals(s.stack[d - n..]), s.mem);
        Ok(State(pc + 1, s.stack[..d - n - 1] + [r], m))
    else Fault
  }

  /** finsh_vm_run from s to the end of the text segment. Every instruction advances the
      program counter, so the machine always stops. */
  function Finish(text: seq<Byte>, calls: Syscalls, limit: nat, s: State): Outcome
    decreases |text| - s.pc
  {
    if s.pc >= |text| then Ok(s)
    else
      var r := Step(text, calls, limit, s);
      if r.Fault? then Fault else Finish(text, calls, limit, r.s)
  }

  // ----- running known code -----

  predicate At(text: seq<Byte>, pc: nat, code: seq<Byte>) {
    pc + |code| <= |text| && text[pc..pc + |code|] == code
  }

  lemma AtSplit(text: seq<Byte>, pc: nat, a: seq<Byte>, b: seq<Byte>)
    requires At(text, pc, a + b)
    ensures At(text, pc, a) && At(text, pc + |a|, b)
  {
    var n := pc + |a| + |b|;
    assert text[pc..pc + |a|] == text[pc..n][..|a|] == a;
    assert text[pc + |a|..n] == text[pc..n][|a|..] == b;
  }

  lemma FinishStep(text: seq<Byte>, calls: Syscalls, limit: nat, s: State, s': State)
    requires s.pc < |text| && Step(text, calls, limit, s) == Ok(s')
    ensures Finish(text, calls, limit, s) == Finish(text, calls, limit, s')
  {
    hide Step;
  }

  /** Pushing a constant. */
  lemma RunLoad(text: seq<Byte>, calls: Syscalls, limit: nat, s: State, w: Word)
    requires At(text, s.pc, [OP_LD_DWORD] + Put32(w)) && |s.stack| < limit
    ensures Finish(text, calls, limit, s) == Finish(text, calls, limit, State(s.pc + 5, s.stack + [w], s.mem))
  {
    hide Finish, Alu;
    AtSplit(text, s.pc, [OP_LD_DWORD], Put32(w));
    assert text[s.pc] == text[s.pc..s.pc + 1][0];
    Get32Put32(w);
    FinishStep(text, calls, limit, s, State(s.pc + 5, s.stack + [w], s.mem));
  }

  /** Pushing a variable's value. */
  lemma RunLoadValue(text: seq<Byte>, calls: Syscalls, limit: nat, s: State, a: Word)
    requires At(text, s.pc, [OP_LD_VALUE_DWORD] + Put32(a)) && |s.stack| < limit
    ensures Finish(text, calls, limit, s)
         == Finish(text, calls, limit, State(s.pc + 5, s.stack + [Load(s.mem, a)], s.mem))
  {
    hide Finish, Alu;
    AtSplit(text, s.pc, [OP_LD_VALUE_DWORD], Put32(a));
    assert text[s.pc] == text[s.pc..s.pc + 1][0];
    Get32Put32(a);
    FinishStep(text, calls, limit, s, State(s.pc + 5, s.stack + [Load(s.mem, a)], s.mem));
  }

  lemma RunBin(text: seq<Byte>, calls: Syscalls, limit: nat, s: State, st: seq<Word>, op: BinOp, x: Word, y: Word)
    requires At(text, s.pc, [OpCode(op)]) && s.stack == st + [x] + [y]
    ensures Finish(text, calls, limit, s)
         == Finish(text, calls, limit, State(s.pc + 1, st + [Alu(op, x, y)], s.mem))
  {
    hide Finish, Alu;
    assert text[s.pc] == text[s.pc..s.pc + 1][0];
    BinOfOpCode(op);
    assert s.stack[..|s.stack| - 2] == st;
    FinishStep(text, calls, limit, s, State(s.pc + 1, st + [Alu(op, x, y)], s.mem));
  }

  /** The instructions without operand that replace or drop the top of the stack. */
  lemma RunTop(text: seq<Byte>, calls: Syscalls, limit: nat, s: State, st: seq<Word>, op: Byte, x: Word)
    requires op in {OP_BITWISE_DWORD, OP_LD_VALUE_DWORD_STACK, OP_POP}
    requires At(text, s.pc, [op]) && s.stack == st + [x]
    ensures Finish(text, calls, limit, s)
         == Finish(text, calls, limit,
                   State(s.pc + 1,
                         if op == OP_POP then st
                         else if op == OP_BITWISE_DWORD then st + [Complement(x)]
                         else st + [Load(s.mem, x)],
                         s.mem))
  {
    hide Finish, Alu;
    assert text[s.pc] == text[s.pc..s.pc + 1][0];
    assert s.stack[..|s.stack| - 1] == st;
    var st' := if op == OP_POP then st
               else if op == OP_BITWISE_DWORD then st + [Complement(x)] else st + [Load(s.mem, x)];
    FinishStep(text, calls, limit, s, State(s.pc + 1, st', s.mem));
  }

  /** Storing leaves the address on the stack. */
  lemma RunStore(text: seq<Byte>, calls: Syscalls, limit: nat, s: State, st: seq<Word>, a: Word, x: Word)
    requires At(text, s.pc, [OP_ST_DWORD]) && s.stack == st + [a] + [x]
    ensures Finish(text, calls, limit, s)
         == Finish(text, calls, limit, State(s.pc + 1, st + [a], s.mem[a := x]))
  {
    hide Finish, Alu;
    assert text[s.pc] == text[s.pc..s.pc + 1][0];
    assert s.stack[..|s.stack| - 1] == st + [a];
    FinishStep(text, calls, limit, s, State(s.pc + 1, st + [a], s.mem[a := x]));
  }

  lemma RunCall(text: seq<Byte>, calls: Syscalls, limit: nat, s: State, st: seq<Word>, f: Word, vs: seq<Word>)
    requires |vs| <= CALL_PARAMETERS_MAX
    requires At(text, s.pc, [OP_SYSCALL, |vs| % 256]) && s.stack == st + [f] + vs
    ensures var (r, m) := calls(f, Actuals(vs), s.mem);
            Finish(text, calls, limit, s) == Finish(text, calls, limit, State(s.pc + 2, st + [r], m))
  {
    hide Finish, Alu;
    assert text[s.pc] == text[s.pc..s.pc + 2][0];
    assert text[s.pc + 1] == text[s.pc..s.pc + 2][1];
    var d, n := |s.stack|, |vs|;
    assert s.stack[d - n..] == vs;
    assert s.stack[..d - n - 1] == st;
    var (r, m) := calls(f, Actuals(vs), s.mem);
    FinishStep(text, calls, limit, s, State(s.pc + 2, st + [r], m));
  }

  // ----- the machine -----

  /** finsh_vm_run over its global stack, text segment and program counter. */
  lemma ActualsAre(vs: seq<Word>)
    ensures Actuals(vs) == if |vs| == 0 then [0] else vs
  {
  }

  class Vm {
    const calls: Syscalls
    const text: array<Byte>
    const stack: array<Word>
    var sp: nat
    var pc: nat
    var mem: Memory

    constructor (text: array<Byte>, calls: Syscalls, mem: Memory)
      ensures this.text == text && this.calls == calls && this.mem == mem
      ensures fresh(stack) && stack.Length == FINSH_STACK_MAX
    {
      this.text := text;
      this.calls := calls;
      this.mem := mem;
      stack := new Word[FINSH_STACK_MAX](_ => 0);
      sp, pc := 0, 0;
    }

    ghost function View(): State
      reads this, stack
      requires sp <= stack.Length
    {
      State(pc, stack[..sp], mem)
    }

    /** The instruction at pc goes through: it is one `Step`, and that step is no fault. */
    ghost predicate Enabled()
      reads this, stack, text
    {
      && sp <= stack.Length && pc < text.Length
      && Step(text[..], calls, stack.Length, View()).Ok?
    }

    /** OP_BIN_DWORD. */
    method BinDword(op: BinOp)
      requires 2 <= sp <= stack.Length
      modifies stack, `sp
      ensures sp == old(sp) - 1
      ensures stack[..sp] == old(stack[..sp - 2]) + [Alu(op, old(stack[sp - 2]), old(stack[sp - 1]))]
    {
      hide Alu;
      stack[sp - 2] := Alu(op, stack[sp - 2], stack[sp - 1]);
      sp := sp - 1;
    }

    /** OP_ld_dword and OP_ld_value_dword. */
    method LoadDword(indirect: bool)
      requires sp < stack.Length && pc + 4 <= text.Length
      modifies stack, `sp, `pc
      ensures sp == old(sp) + 1 && pc == old(pc) + 4
      ensures var w := Get32(old(text[pc..pc + 4]));
              stack[..sp] == old(stack[..sp]) + [if indirect then Load(mem, w) else w]
    {
      var w := Get32([text[pc], text[pc + 1], text[pc + 2], text[pc + 3]]);
      assert [text[pc], text[pc + 1], text[pc + 2], text[pc + 3]] == text[pc..pc + 4];
      stack[sp] := if indirect then Load(mem, w) else w;
      sp := sp + 1;
      pc := pc + 4;
    }

    /** The argument loop of OP_call: from the last argument to the first. */
    method PopArguments(parameters: nat, parameterv: array<Word>)
      requires parameters <= parameterv.Length && parameters <= sp < stack.Length && parameterv != stack
      modifies parameterv, `sp
      ensures sp == old(sp) - parameters
      ensures parameterv[..parameters] == stack[sp + 1..sp + 1 + parameters]
    {
      var i := 0;
      while i < parameters
        invariant 0 <= i <= parameters && sp == old(sp) - i
        invariant forall k :: parameters - i <= k < parameters ==> parameterv[k] == stack[old(sp) - parameters + 1 + k]
      {
        parameterv[parameters - 1 - i] := stack[sp];
        sp := sp - 1;
        i := i + 1;
      }
    }

    /** OP_call. */
    method Call()
      requires pc < text.Length && text[pc] <= CALL_PARAMETERS_MAX && text[pc] + 1 <= sp <= stack.Length
      modifies stack, `sp, `pc, `mem
      ensures var n := old(text[pc]);
              var (r, m) := calls(old(stack[sp - n - 1]), if n == 0 then [0] else old(stack[sp - n..sp]), old(mem));
              pc == old(pc) + 1 && sp == old(sp) - n && mem == m
              && stack[..sp] == old(stack[..sp - n - 1]) + [r]
    {
      var parameterv := new Word[CALL_PARAMETERS_MAX](_ => 0);
      var parameters := text[pc];
      pc := pc + 1;
      sp := sp - 1;
      PopArguments(parameters, parameterv);
      var (r, m) := calls(stack[sp], if parameters == 0 then [0] else parameterv[..parameters], mem);
      mem := m;
      stack[sp] := r;
      sp := sp + 1;
    }

    /** OP_call as a step of the machine. */
    method ExecuteCall()
      requires 0 < pc <= text.Length && text[pc - 1] == OP_SYSCALL && sp <= stack.Length
      requires Step(text[..], calls, stack.Length, View().(pc := pc - 1)).Ok?
      modifies stack, `sp, `pc, `mem
      ensures sp <= stack.Length
      ensures View() == Step(text[..], calls, stack.Length, old(View().(pc := pc - 1))).s
    {
      hide Alu, Get32, Actuals;
      ActualsAre(stack[sp - text[pc]..sp]);
      Call();
    }

    method SetTop(w: Word)
      requires 1 <= sp <= stack.Length
      modifies stack
      ensures stack[..sp] == old(stack[..sp - 1]) + [w]
    {
      stack[sp - 1] := w;
    }

    /** The instructions that only work on the stack and memory. */
    method ExecuteSimple(op: Byte)
      requires 0 < pc <= text.Length && op == text[pc - 1] && sp <= stack.Length
      requires op != OP_LD_DWORD && op != OP_LD_VALUE_DWORD && op != OP_SYSCALL
      requires Step(text[..], calls, stack.Length, View().(pc := pc - 1)).Ok?
      modifies stack, `sp, `mem
      ensures sp <= stack.Length
      ensures View() == Step(text[..], calls, stack.Length, old(View()).(pc := pc - 1)).s
    {
      hide Alu, Get32;
      if op == OP_NOOP {
      } else if BinOf(op).Some? {
        BinDword(BinOf(op).value);
      } else if op == OP_BITWISE_DWORD {
        SetTop(Complement(stack[sp - 1]));
      } else if op == OP_LD_VALUE_DWORD_STACK {
        SetTop(Load(mem, stack[sp - 1]));
      } else if op == OP_ST_DWORD {
        mem := mem[stack[sp - 2] := stack[sp - 1]];
        sp := sp - 1;
      } else {
        sp := sp - 1;
      }
    }

    /** One round of the loop in finsh_vm_run: fetch and dispatch through op_table. */
    method Execute()
      requires Enabled()
      modifies this, stack
      ensures sp <= stack.Length
      ensures View() == Step(text[..], calls, stack.Length, old(View())).s
    {
      hide Alu, Get32, Actuals;
      var op := text[pc];
      pc := pc + 1;
      if op == OP_LD_DWORD || op == OP_LD_VALUE_DWORD {
        LoadDword(op == OP_LD_VALUE_DWORD);
      } else if op == OP_SYSCALL {
        assert View().(pc := pc - 1) == old(View());
        ExecuteCall();
      } else {
        assert View().(pc := pc - 1) == old(View());
        ExecuteSimple(op);
      }
    }

    /** finsh_vm_run. */
    method Run()
      requires Finish(text[..], calls, stack.Length, State(0, [], mem)).Ok?
      modifies this, stack
      ensures sp <= stack.Length
      ensures View() == Finish(text[..], calls, stack.Length, State(0, [], old(mem))).s
    {
      sp := 0;
      pc := 0;
      assert stack[..sp] == [];
      ghost var s0 := View();
      while pc < text.Length
        invariant sp <= stack.Length && text[..] == old(text[..])
        invariant Finish(text[..], calls, stack.Length, View()) == Finish(text[..], calls, stack.Length, s0)
        decreases text.Length - pc
      {
        Execute();
      }
    }
  }
}
