/** Syntax trees as the FinSH compiler sees them: nodes of a fixed table linked by
    `child` and `sibling`, the type check that annotates them and the code that is
    generated from them. The functions here are over the tree value; class
    `FinshCompiler.Compiler` carries them out in place on the node table. */
module FinshTree {
  import opened FinshWord

  const OP_NOOP: Byte := 0x00
  const OP_ADD_DWORD: Byte := 0x03
  const OP_SUB_DWORD: Byte := 0x06
  const OP_DIV_DWORD: Byte := 0x09
  const OP_MOD_DWORD: Byte := 0x0C
  const OP_MUL_DWORD: Byte := 0x0F
  const OP_AND_DWORD: Byte := 0x12
  const OP_OR_DWORD: Byte := 0x15
  const OP_XOR_DWORD: Byte := 0x18
  const OP_BITWISE_DWORD: Byte := 0x1B
  const OP_SHL_DWORD: Byte := 0x1E
  const OP_SHR_DWORD: Byte := 0x21
  const OP_LD_DWORD: Byte := 0x24
  const OP_LD_VALUE_DWORD: Byte := 0x27
  const OP_ST_DWORD: Byte := 0x2A
  const OP_POP: Byte := 0x2B
  const OP_SYSCALL: Byte := 0x2C
  const OP_LD_VALUE_DWORD_STACK: Byte := 0x2F

  function OpCode(op: BinOp): Byte {
    match op
    case Add => OP_ADD_DWORD
    case Sub => OP_SUB_DWORD
    case Mul => OP_MUL_DWORD
    case Div => OP_DIV_DWORD
    case Mod => OP_MOD_DWORD
    case And => OP_AND_DWORD
    case Or => OP_OR_DWORD
    case Xor => OP_XOR_DWORD
    case Shl => OP_SHL_DWORD
    case Shr => OP_SHR_DWORD
  }

  datatype Kind =
    | Unknown | Id
    | ValueInt | ValueLong | ValueString | ValueNull
    | SysBin(op: BinOp) | SysBitwise
    | SysFunc | SysAssign | SysCast
    | SysPreInc | SysPreDec | SysInc | SysDec
    | SysGetValue | SysGetAddr | SysNull

  datatype IdType = NoId | VarId | SyscallId

  datatype DataType = Void | Dword

  /** The fields of `struct finsh_node` other than its links. `value` is the constant of a
      value node, the address of the variable's cell or of the function of an identifier. */
  datatype Info = Info(kind: Kind, idType: IdType, address: bool, dataType: DataType, value: Word)

  /** A node together with everything reachable from it; `at` is its place in the node table. */
  datatype Tree = Nil | Node(at: nat, info: Info, child: Tree, sibling: Tree)

  function Count(t: Tree): nat {
    match t
    case Nil => 0
    case Node(_, _, c, s) => 1 + Count(c) + Count(s)
  }

  /** Number of nodes on the sibling chain that starts at t. */
  function ChainLength(t: Tree): nat {
    match t
    case Nil => 0
    case Node(_, _, _, s) => 1 + ChainLength(s)
  }

  // ----- finsh_type_check -----

  /** The address attribute handed to the child of a node (finsh_compiler.c:764-781). */
  function ChildIsAddr(kind: Kind, isAddr: bool): bool {
    if kind.SysAssign? || kind.SysPreInc? || kind.SysPreDec? || kind.SysGetAddr? then true
    else if kind.SysGetValue? && isAddr then false
    else isAddr
  }

  /** The data type of a node without a child (finsh_compiler.c:797-898). */
  function LeafType(info: Info): DataType {
    if info.kind.Id? then (if info.idType.VarId? then Dword else info.dataType)
    else if info.kind.ValueInt? || info.kind.ValueLong? || info.kind.ValueString? || info.kind.ValueNull? then Dword
    else info.dataType
  }

  function Annotate(info: Info, isAddr: bool, dataType: DataType): Info {
    info.(address := if info.idType.SyscallId? then info.address else info.address || isAddr,
          dataType := dataType)
  }

  function Attributes(info: Info, isAddr: bool, checkedChild: Tree): Info {
    Annotate(info, isAddr, if checkedChild.Node? then checkedChild.info.dataType else LeafType(info))
  }

  function TypeCheck(t: Tree, isAddr: bool): Tree {
    match t
    case Nil => Nil
    case Node(at, info, c, s) =>
      var c' := TypeCheck(c, ChildIsAddr(info.kind, isAddr));
      Node(at, Attributes(info, isAddr, c'), c', TypeCheck(s, false))
  }

  // ----- finsh_compile -----

  /** The bytes that increase or decrease the variable at `a` by one and store it back,
      given that its address is already on the stack. */
  function Bump(a: Word, op: BinOp): seq<Byte> {
    [OP_LD_VALUE_DWORD] + Put32(a) + [OP_LD_DWORD] + Put32(1) + [OpCode(op)] + [OP_ST_DWORD]
  }

  function PreBump(info: Info, child: Tree, op: BinOp): seq<Byte> {
    if child.Node? && child.info.kind.Id? && info.dataType.Dword?
    then Bump(child.info.value, op) + [OP_LD_VALUE_DWORD_STACK]
    else []
  }

  function PostBump(info: Info, child: Tree, op: BinOp): seq<Byte> {
    if child.Node? && child.info.kind.Id? && info.dataType.Dword?
    then [OP_LD_DWORD] + Put32(child.info.value) + Bump(child.info.value, op) + [OP_POP]
    else []
  }

  /** What finsh_compile emits for a node itself, between its child and its sibling. */
  function Own(info: Info, child: Tree): seq<Byte> {
    match info.kind
    case Id =>
      [if info.idType.SyscallId? || info.address then OP_LD_DWORD else OP_LD_VALUE_DWORD] + Put32(info.value)
    case ValueInt => [OP_LD_DWORD] + Put32(info.value)
    case ValueLong => [OP_LD_DWORD] + Put32(info.value)
    case ValueString => [OP_LD_DWORD] + Put32(info.value)
    case ValueNull => [OP_LD_DWORD] + Put32(info.value)
    case SysBin(op) => if info.dataType.Dword? then [OpCode(op)] else []
    case SysBitwise => if info.dataType.Dword? then [OP_BITWISE_DWORD] else []
    case SysFunc =>
      if child.Node? then [OP_SYSCALL, ChainLength(child.sibling) % 256] else []
    case SysAssign =>
      if child.Node? && (child.info.kind.Id? || child.info.kind.SysGetValue?) && child.info.dataType.Dword?
      then [OP_ST_DWORD, OP_LD_VALUE_DWORD_STACK] else []
    case SysPreInc => PreBump(info, child, Add)
    case SysPreDec => PreBump(info, child, Sub)
    case SysInc => PostBump(info, child, Add)
    case SysDec => PostBump(info, child, Sub)
    case SysNull => Put32(0)
    case SysGetValue =>
      if !info.address && info.dataType.Dword? then [OP_LD_VALUE_DWORD_STACK] else []
    case _ => []
  }

  function Code(t: Tree): seq<Byte> {
    match t
    case Nil => []
    case Node(_, info, c, s) => Code(c) + Own(info, c) + Code(s)
  }

  /** finsh_compiler_run on a checked chain of statements: each statement is compiled
      without its sibling, and a pop separates it from the next. */
  function ProgramCode(t: Tree): seq<Byte> {
    match t
    case Nil => []
    case Node(at, info, c, s) =>
      Code(Node(at, info, c, Nil)) + if s.Nil? then [] else [OP_POP] + ProgramCode(s)
  }

  // ----- independence of the place in the table -----

  /** The tree with the table positions forgotten. */
  function Strip(t: Tree): Tree {
    match t
    case Nil => Nil
    case Node(_, info, c, s) => Node(0, info, Strip(c), Strip(s))
  }

  lemma {:induction false} StripTypeCheck(t: Tree, isAddr: bool)
    ensures Strip(TypeCheck(t, isAddr)) == TypeCheck(Strip(t), isAddr)
  {
    match t
    case Nil =>
    case Node(_, info, c, s) =>
      StripTypeCheck(c, ChildIsAddr(info.kind, isAddr));
      StripTypeCheck(s, false);
  }

  lemma {:induction false} StripChain(t: Tree)
    ensures ChainLength(Strip(t)) == ChainLength(t)
  {
    if t.Node? { StripChain(t.sibling); }
  }

  lemma {:induction false} StripCount(t: Tree)
    ensures Count(Strip(t)) == Count(t)
  {
    if t.Node? { StripCount(t.child); StripCount(t.sibling); }
  }

  lemma {:induction false} StripCode(t: Tree)
    ensures Code(Strip(t)) == Code(t)
  {
    match t
    case Nil =>
    case Node(_, info, c, s) =>
      StripCode(c);
      StripCode(s);
      if c.Node? { StripChain(c.sibling); }
      assert Own(info, Strip(c)) == Own(info, c);
  }

  /** The generated code depends on the shape of the tree only, not on how its nodes are
      laid out in the table. */
  lemma {:induction false} StripProgramCode(t: Tree)
    ensures ProgramCode(Strip(t)) == ProgramCode(t)
  {
    match t
    case Nil =>
    case Node(at, info, c, s) =>
      StripCode(Node(at, info, c, Nil));
      StripProgramCode(s);
  }
}
