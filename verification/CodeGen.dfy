/** Emitting bytecode for the parsed nodes (`build_function` of src/compiler/ast_nodes) and the growable
    buffer it is emitted into (src/interpreter/function_definition.c). */
module CodeGen {
  import opened IntMath
  import opened StackSpec
  import opened Words
  import opened Options
  import opened StackVariables
  import opened Language
  import opened Elaboration
  import Operations

  /** The bits of a signed value. */
  function ToWord(v: Int64): (w: Word)
    ensures v >= 0 ==> w == v
    ensures v < 0 ==> w == 0x1_0000_0000_0000_0000 + v
  {
    if v < 0 then v + TWO_64 else v
  }

  function ToInt(w: Word): (v: Int64)
    ensures v == w || v == w - 0x1_0000_0000_0000_0000
  {
    if w > INT64_MAX then w - TWO_64 else w
  }

  lemma WordRoundTrip(v: Int64)
    ensures ToInt(ToWord(v)) == v
  {
  }

  // ---- What is emitted ----

  /** Assertions of the encoders and the code generator that a node must not run into. */
  predicate AtomOk(a: Atom, positions: seq<nat>) {
    a.index < |positions| && positions[a.index] <= MAX_FRAME_LENGTH
  }

  predicate ExprOk(e: ExprNode, positions: seq<nat>) {
    match e
    case Single(a) => a.index < |positions| && (a.IntLit? ==> positions[a.index] <= MAX_FRAME_LENGTH)
    case BinaryExpr(out, l, r) =>
      out < |positions| && out <= MAX_FRAME_LENGTH && AtomOk(l, positions) && AtomOk(r, positions)
  }

  /** "Can only handle variable assignment from int literals": a lone variable as initialiser is refused. */
  predicate NodeOk(n: Node, positions: seq<nat>) {
    match n
    case DeclarationNode(i, Single(a)) => a.IntLit? && i < |positions| && positions[i] <= MAX_FRAME_LENGTH
    case DeclarationNode(i, e) => i < |positions| && ExprOk(e, positions)
    case ReturnNode(None) => true
    case ReturnNode(Some(e)) => ExprOk(e, positions)
  }

  function EmitLoad(dst: nat, v: Int64): (code: seq<Word>)
    requires dst <= MAX_FRAME_LENGTH
    ensures |code| == 2
  {
    Operations.MakeLoadImmediateLong(Operations.VALUE_TAG_INT, dst, ToWord(v))
  }

  /** Operands that are literals are loaded into their variables first. */
  function EmitAtom(a: Atom, positions: seq<nat>): seq<Word>
    requires AtomOk(a, positions)
  {
    if a.IntLit? then EmitLoad(positions[a.index], a.literal) else []
  }

  /** The sum's destination is the variable's index itself, not its position. */
  function EmitAdd(out: nat, l: Atom, r: Atom, positions: seq<nat>): (code: seq<Word>)
    requires ExprOk(BinaryExpr(out, l, r), positions)
    ensures |code| == 1
  {
    [Operations.MakeAddDst(false, out, positions[l.index], positions[r.index])]
  }

  function EmitBinary(out: nat, l: Atom, r: Atom, positions: seq<nat>): seq<Word>
    requires ExprOk(BinaryExpr(out, l, r), positions)
  {
    EmitAtom(l, positions) + (EmitAtom(r, positions) + EmitAdd(out, l, r, positions))
  }

  function EmitReturn(hasReturn: bool, src: nat): (code: seq<Word>)
    ensures |code| == 1
  {
    [Operations.MakeReturn(hasReturn, src)]
  }

  function Emit(n: Node, positions: seq<nat>): seq<Word>
    requires NodeOk(n, positions)
  {
    match n
    case DeclarationNode(i, Single(a)) => EmitLoad(positions[i], a.literal)
    case DeclarationNode(i, BinaryExpr(out, l, r)) => EmitBinary(out, l, r, positions)
    case ReturnNode(None) => EmitReturn(false, 0)
    case ReturnNode(Some(Single(Variable(i)))) => EmitReturn(true, positions[i])
    case ReturnNode(Some(Single(IntLit(v, i)))) => EmitLoad(positions[i], v) + EmitReturn(true, positions[i])
    case ReturnNode(Some(BinaryExpr(out, l, r))) => EmitBinary(out, l, r, positions) + EmitReturn(true, positions[out])
  }

  predicate NodesOk(ns: seq<Node>, positions: seq<nat>) {
    forall i :: 0 <= i < |ns| ==> NodeOk(ns[i], positions)
  }

  function EmitAll(ns: seq<Node>, positions: seq<nat>): seq<Word>
    requires NodesOk(ns, positions)
    decreases ns
  {
    if ns == [] then [] else Emit(ns[0], positions) + EmitAll(ns[1..], positions)
  }

  /** The positions of `n` integer variables. */
  function IntPositions(n: nat): (p: seq<nat>)
    ensures |p| == n && forall i :: 0 <= i < n ==> p[i] == i
  {
    if n == 0 then [] else IntPositions(n - 1) + [n - 1]
  }

  /** A compiled function: its code and how many slots its frame needs. */
  datatype Compiled = Compiled(code: seq<Word>, frameLength: nat, argCount: nat)

  /** `function_node_compile` after parsing; `None` where an assertion fails on the way. */
  function Compile(f: Function): Option<Compiled> {
    match ElabFunction(f)
    case None => None
    case Some(b) =>
      if |b.vars| <= UINT16_MAX && NodesOk(b.node, IntPositions(|b.vars|)) then
        Some(Compiled(EmitAll(b.node, IntPositions(|b.vars|)), |b.vars|, |ElabParams([], f.params)|))
      else None
  }

  lemma {:induction false} EmitAllAppend(ns: seq<Node>, n: Node, positions: seq<nat>)
    requires NodesOk(ns, positions) && NodeOk(n, positions)
    ensures NodesOk(ns + [n], positions)
    ensures EmitAll(ns + [n], positions) == EmitAll(ns, positions) + Emit(n, positions)
    decreases ns
  {
    hide Emit, NodeOk;
    if ns == [] {
      assert (ns + [n])[1..] == [];
    } else {
      EmitAllAppend(ns[1..], n, positions);
      assert (ns + [n])[1..] == ns[1..] + [n];
    }
  }

  // ---- The builder ----

  class FunctionBuilder {
    /** The allocated buffer, of which the first `bytecodeLen` words are in use. */
    var bytecode: seq<Word>
    var bytecodeLen: nat

    ghost predicate Valid()
      reads this
    {
      bytecodeLen <= |bytecode|
    }

    ghost function Code(): seq<Word>
      reads this
      requires Valid()
    {
      bytecode[..bytecodeLen]
    }

    constructor ()
      ensures Valid() && Code() == []
    {
      bytecode, bytecodeLen := [], 0;
    }

    /** `function_builder_add_n`: at least twice the old capacity when the buffer has to grow. */
    method AddN(count: nat)
      requires Valid()
      modifies this`bytecode
      ensures Valid() && Code() == old(Code()) && bytecodeLen + count <= |bytecode|
    {
      var newLen := bytecodeLen + count;
      if |bytecode| >= newLen {
        return;
      }
      var newCapacity := if newLen > |bytecode| * 2 then newLen else |bytecode| * 2;
      bytecode := bytecode[..bytecodeLen] + seq(newCapacity - bytecodeLen, _ => 0);
    }

    method PushBytecode(w: Word)
      requires Valid()
      modifies this
      ensures Valid() && Code() == old(Code()) + [w]
    {
      AddN(1);
      bytecode := bytecode[bytecodeLen := w];
      bytecodeLen := bytecodeLen + 1;
    }

    method PushBytecodeMany(ws: seq<Word>)
      requires Valid()
      modifies this
      ensures Valid() && Code() == old(Code()) + ws
    {
      AddN(|ws|);
      bytecode := Overwrite(bytecode, bytecodeLen, ws);
      bytecodeLen := bytecodeLen + |ws|;
    }

    /** `binary_expr_node_build_function` */
    method BuildBinary(out: nat, l: Atom, r: Atom, positions: seq<nat>)
      requires Valid() && ExprOk(BinaryExpr(out, l, r), positions)
      modifies this
      ensures Valid() && Code() == old(Code()) + EmitBinary(out, l, r, positions)
    {
      hide Operations.MakeLoadImmediateLong, Operations.MakeAddDst;
      if l.IntLit? {
        PushBytecodeMany(EmitLoad(positions[l.index], l.literal));
      }
      if r.IntLit? {
        PushBytecodeMany(EmitLoad(positions[r.index], r.literal));
      }
      PushBytecode(Operations.MakeAddDst(false, out, positions[l.index], positions[r.index]));
    }

    /** `variable_declaration_node_build_function` and `return_node_build_function` */
    method BuildNode(n: Node, positions: seq<nat>)
      requires Valid() && NodeOk(n, positions)
      modifies this
      ensures Valid() && Code() == old(Code()) + Emit(n, positions)
    {
      hide Operations.MakeLoadImmediateLong, Operations.MakeReturn, EmitBinary;
      match n
      case DeclarationNode(i, Single(a)) => PushBytecodeMany(EmitLoad(positions[i], a.literal));
      case DeclarationNode(i, BinaryExpr(out, l, r)) => BuildBinary(out, l, r, positions);
      case ReturnNode(None) => PushBytecode(Operations.MakeReturn(false, 0));
      case ReturnNode(Some(Single(Variable(i)))) => PushBytecode(Operations.MakeReturn(true, positions[i]));
      case ReturnNode(Some(Single(IntLit(v, i)))) =>
        PushBytecodeMany(EmitLoad(positions[i], v));
        PushBytecode(Operations.MakeReturn(true, positions[i]));
      case ReturnNode(Some(BinaryExpr(out, l, r))) =>
        BuildBinary(out, l, r, positions);
        PushBytecode(Operations.MakeReturn(true, positions[out]));
    }
  }

  function IntInfos(names: seq<string>): (vs: seq<Info>)
    ensures |vs| == |names| && forall i :: 0 <= i < |vs| ==> vs[i].name == names[i] && vs[i].sizeOfType == 8
  {
    if names == [] then [] else IntInfos(names[..|names| - 1]) + [Info(names[|names| - 1], false, 8)]
  }

  /** Every variable is an integer, so each gets one slot and its position is its index. */
  method AssignInts(vars: seq<string>) returns (positions: seq<nat>, frameLength: nat)
    requires Distinct(vars) && |vars| <= UINT16_MAX
    ensures positions == IntPositions(|vars|) && frameLength == |vars|
  {
    var infos := IntInfos(vars);
    ghost var sizes := Sizes(infos);
    PositionIsIndex(sizes, |sizes|);
    var assignment := AssignAll(infos);
    forall i | 0 <= i < |vars| ensures assignment.positions[i] == i {
      PositionIsIndex(sizes, i);
    }
    positions, frameLength := assignment.positions, assignment.requiredFrameSize;
  }

  /** Every node emits its code, in order. */
  method EmitNodes(builder: FunctionBuilder, nodes: seq<Node>, positions: seq<nat>)
    requires builder.Valid() && builder.Code() == [] && NodesOk(nodes, positions)
    modifies builder
    ensures builder.Valid() && builder.Code() == EmitAll(nodes, positions)
  {
    hide Emit, EmitAll, NodeOk;
    EmitNone(nodes[..0], positions);
    for i := 0 to |nodes|
      invariant builder.Valid()
      invariant NodesOk(nodes[..i], positions) && builder.Code() == EmitAll(nodes[..i], positions)
    {
      EmitAllAppend(nodes[..i], nodes[i], positions);
      assert nodes[..i + 1] == nodes[..i] + [nodes[i]];
      builder.BuildNode(nodes[i], positions);
    }
    assert nodes[..|nodes|] == nodes;
  }

  /** `function_node_compile`: the slots are assigned, then the nodes emit their code. */
  method CompileNodes(vars: seq<string>, nodes: seq<Node>) returns (code: seq<Word>, frameLength: nat)
    requires Distinct(vars) && |vars| <= UINT16_MAX && NodesOk(nodes, IntPositions(|vars|))
    ensures code == EmitAll(nodes, IntPositions(|vars|)) && frameLength == |vars|
  {
    hide EmitAll, IntPositions, NodesOk, Distinct;
    var positions;
    positions, frameLength := AssignInts(vars);
    var builder := new FunctionBuilder();
    EmitNodes(builder, nodes, positions);
    code := builder.bytecode[..builder.bytecodeLen];
  }

  lemma {:induction false} EmitNone(ns: seq<Node>, positions: seq<nat>)
    requires ns == []
    ensures NodesOk(ns, positions) && EmitAll(ns, positions) == []
  {
  }
}
