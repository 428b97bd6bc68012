/** Compilation preserves meaning: running the emitted code in a frame gives what direct evaluation gives. */
module CompilerCorrect {
  import opened IntMath
  import opened StackSpec
  import opened Words
  import opened Options
  import opened StackVariables
  import opened Language
  import opened Elaboration
  import opened CodeGen
  import opened FrameMachine

  // ---- Elaboration only adds variables, and keeps their names distinct ----

  ghost predicate Extends(vars: seq<string>, more: seq<string>) {
    vars <= more && (Distinct(vars) ==> Distinct(more))
  }

  lemma {:induction false} OperandExtends(vars: seq<string>, o: Operand)
    requires ElabOperand(vars, o).Some?
    ensures var b := ElabOperand(vars, o).value; Extends(vars, b.vars) && b.node.index < |b.vars|
  {
    hide FreshName;
  }

  lemma {:induction false} ExprExtends(vars: seq<string>, e: Expr, destination: Option<nat>)
    requires ElabExpr(vars, e, destination).Some?
    ensures Extends(vars, ElabExpr(vars, e, destination).value.vars)
  {
    hide FreshName, ElabOperand;
    match e
    case One(o) => OperandExtends(vars, o);
    case Sum(l, r) =>
      OperandExtends(vars, l);
      OperandExtends(ElabOutput(ElabOperand(vars, l).value.vars, destination).vars, r);
  }

  lemma {:induction false} StatementExtends(vars: seq<string>, s: Statement)
    requires ElabStatement(vars, s).Some?
    ensures Extends(vars, ElabStatement(vars, s).value.vars)
  {
    hide ElabExpr;
    match s
    case Declare(x, Some(e)) => ExprExtends(vars + [x], e, Some(|vars|));
    case Return(Some(e)) => ExprExtends(vars, e, None);
    case _ =>
  }

  lemma {:induction false} BodyExtends(vars: seq<string>, body: seq<Statement>)
    requires ElabBody(vars, body).Some?
    ensures Extends(vars, ElabBody(vars, body).value.vars)
    decreases body
  {
    if body != [] {
      StatementExtends(vars, body[0]);
      BodyExtends(ElabStatement(vars, body[0]).value.vars, body[1..]);
    }
  }

  // ---- The slots hold the variables' values ----

  ghost predicate HoldsInt(m: Slots, i: nat, v: Int64) {
    WellSized(m) && IsInt(m, i) && m.words[i] == ToWord(v)
  }

  ghost predicate Represents(env: Env, vars: seq<string>, m: Slots) {
    && WellSized(m) && |vars| <= |m.words|
    && forall n :: n in env ==> Find(vars, n).Some? && HoldsInt(m, Find(vars, n).value, env[n])
  }

  ghost predicate SameBelow(m: Slots, r: Slots, k: nat) {
    && WellSized(m) && WellSized(r) && |m.words| == |r.words|
    && forall i :: 0 <= i < k && i < |m.words| ==> r.words[i] == m.words[i] && r.contexts[i] == m.contexts[i]
  }

  /** New variables, and writes to their slots, do not disturb the others. */
  lemma {:induction false} RepresentsExtend(env: Env, vars: seq<string>, more: seq<string>, m: Slots, r: Slots)
    requires Represents(env, vars, m) && vars <= more && |more| <= |m.words| && SameBelow(m, r, |vars|)
    ensures Represents(env, more, r)
  {
    hide Find;
    forall n | n in env ensures Find(more, n).Some? && HoldsInt(r, Find(more, n).value, env[n]) {
      assert more == vars + more[|vars|..];
      FindAppend(vars, more[|vars|..], n);
    }
  }

  ghost predicate IsIdentity(positions: seq<nat>) {
    |positions| <= MAX_FRAME_LENGTH && forall i :: 0 <= i < |positions| ==> positions[i] == i
  }

  // ---- Operands and sums ----

  function AfterAtom(m: Slots, a: Atom): (r: Slots)
    requires WellSized(m) && a.index < |m.words|
    ensures WellSized(r) && |r.words| == |m.words|
  {
    if a.IntLit? then StoreInt(m, a.index, ToWord(a.literal)) else m
  }

  lemma {:induction false} OperandRun(env: Env, vars: seq<string>, o: Operand, positions: seq<nat>, code: seq<Word>,
                                      pc: nat, m: Slots)
    requires Represents(env, vars, m) && OperandScoped(env.Keys, o) && ElabOperand(vars, o).Some?
    requires IsIdentity(positions) && |positions| == |m.words| && |ElabOperand(vars, o).value.vars| <= |m.words|
    requires AtomOk(ElabOperand(vars, o).value.node, positions)
    requires At(code, pc, EmitAtom(ElabOperand(vars, o).value.node, positions))
    ensures var b := ElabOperand(vars, o).value; var r := AfterAtom(m, b.node);
            && SameBelow(m, r, |vars|) && Represents(env, b.vars, r) && HoldsInt(r, b.node.index, ValueOf(env, o))
            && RunCode(code, pc, m) == RunCode(code, pc + |EmitAtom(b.node, positions)|, r)
  {
    hide RunCode, EmitLoad, FreshName, Find, At, ToWord;
    var b := ElabOperand(vars, o).value;
    var r := AfterAtom(m, b.node);
    if o.Lit? {
      RunLoad(code, pc, m, |vars|, o.value);
    }
    RepresentsExtend(env, vars, b.vars, m, r);
  }

  function AfterBinary(m: Slots, out: nat, l: Atom, r: Atom, v: Int64): Slots
    requires WellSized(m) && l.index < |m.words| && r.index < |m.words| && out < |m.words|
  {
    StoreInt(AfterAtom(AfterAtom(m, l), r), out, ToWord(v))
  }

  /** The two operands loaded, the sum or the overflow follows. */
  lemma {:induction false} SumRun(positions: seq<nat>, code: seq<Word>, pc: nat, m: Slots, out: nat, l: Atom, r: Atom,
                                  a: Int64, b: Int64)
    requires IsIdentity(positions) && |positions| == |m.words| && ExprOk(BinaryExpr(out, l, r), positions)
    requires HoldsInt(m, l.index, a) && HoldsInt(m, r.index, b) && At(code, pc, EmitAdd(out, l, r, positions))
    ensures RunCode(code, pc, m) == if Fits(a + b) then RunCode(code, pc + 1, StoreInt(m, out, ToWord(a + b)))
      else OverflowError
  {
    hide RunCode, At;
    WordRoundTrip(a);
    WordRoundTrip(b);
    RunAdd(code, pc, m, out, l.index, r.index);
  }

  lemma RepresentsSized(env: Env, vars: seq<string>, m: Slots)
    requires Represents(env, vars, m)
    ensures WellSized(m)
  {
  }

  /** How the two operands and the output of a sum were built. */
  ghost predicate BuiltSum(vars: seq<string>, l: Operand, r: Operand, destination: Option<nat>,
                           mid: seq<string>, la: Atom, out: nat, ra: Atom, end: seq<string>) {
    && ElabOperand(vars, l) == Some(Built(mid, la))
    && ElabOperand(ElabOutput(mid, destination).vars, r) == Some(Built(end, ra))
    && out == ElabOutput(mid, destination).node
  }

  lemma {:induction false} OperandsRun(env: Env, vars: seq<string>, l: Operand, r: Operand, destination: Option<nat>,
                                       mid: seq<string>, la: Atom, out: nat, ra: Atom, end: seq<string>,
                                       positions: seq<nat>, code: seq<Word>, pc: nat, m: Slots)
    requires Represents(env, vars, m) && OperandScoped(env.Keys, l) && OperandScoped(env.Keys, r)
    requires BuiltSum(vars, l, r, destination, mid, la, out, ra, end)
    requires IsIdentity(positions) && |positions| == |m.words| && |end| <= |m.words|
    requires AtomOk(la, positions) && AtomOk(ra, positions)
    requires At(code, pc, EmitAtom(la, positions)) && At(code, pc + |EmitAtom(la, positions)|, EmitAtom(ra, positions))
    ensures var m2 := AfterAtom(AfterAtom(m, la), ra);
            && SameBelow(m, m2, |vars|)
            && HoldsInt(m2, la.index, ValueOf(env, l)) && HoldsInt(m2, ra.index, ValueOf(env, r))
            && RunCode(code, pc, m) == RunCode(code, pc + |EmitAtom(la, positions)| + |EmitAtom(ra, positions)|, m2)
  {
    hide RunCode, At, EmitAtom, ElabOperand, FreshName, Find, ToWord, ValueOf, Represents, IsIdentity, AtomOk;
    RepresentsSized(env, vars, m);
    var outVars := ElabOutput(mid, destination).vars;
    OperandExtends(vars, l);
    OperandExtends(outVars, r);
    var m1 := AfterAtom(m, la);
    OperandRun(env, vars, l, positions, code, pc, m);
    RepresentsExtend(env, mid, outVars, m1, m1);
    OperandRun(env, outVars, r, positions, code, pc + |EmitAtom(la, positions)|, m1);
  }

  lemma {:induction false} BinaryRun(env: Env, vars: seq<string>, l: Operand, r: Operand, destination: Option<nat>,
                                     mid: seq<string>, la: Atom, out: nat, ra: Atom, end: seq<string>,
                                     positions: seq<nat>, code: seq<Word>, pc: nat, m: Slots)
    requires Represents(env, vars, m) && OperandScoped(env.Keys, l) && OperandScoped(env.Keys, r)
    requires BuiltSum(vars, l, r, destination, mid, la, out, ra, end)
    requires IsIdentity(positions) && |positions| == |m.words| && |end| <= |m.words|
    requires ExprOk(BinaryExpr(out, la, ra), positions)
    requires At(code, pc, EmitBinary(out, la, ra, positions))
    ensures SameBelow(m, AfterAtom(AfterAtom(m, la), ra), |vars|)
    ensures var v := ValueOf(env, l) + ValueOf(env, r);
            if Fits(v) then RunCode(code, pc, m)
              == RunCode(code, pc + |EmitBinary(out, la, ra, positions)|, AfterBinary(m, out, la, ra, v))
            else RunCode(code, pc, m) == OverflowError
  {
    hide RunCode, At, EmitAtom, EmitAdd, ElabOperand, ValueOf, ToWord, Represents, HoldsInt, AfterAtom, IsIdentity;
    var first, second, add := EmitAtom(la, positions), EmitAtom(ra, positions), EmitAdd(out, la, ra, positions);
    AtSplit(code, pc, first, second + add);
    AtSplit(code, pc + |first|, second, add);
    OperandsRun(env, vars, l, r, destination, mid, la, out, ra, end, positions, code, pc, m);
    SumRun(positions, code, pc + |first| + |second|, AfterAtom(AfterAtom(m, la), ra), out, la, ra, ValueOf(env, l),
      ValueOf(env, r));
  }

  // ---- Statements ----

  function ResultOf(o: Outcome): Result {
    match o
    case Returned(v) => Finished(Some(ToWord(v)))
    case ReturnedNothing => Finished(None)
    case AdditionOverflow => OverflowError
  }

  /** A declared variable now holds its value and nothing else changed. */
  lemma {:induction false} RepresentsDeclare(env: Env, vars: seq<string>, x: string, more: seq<string>, m: Slots,
                                             r: Slots, v: Int64)
    requires Represents(env, vars, m) && x !in vars && vars + [x] <= more && |more| <= |m.words|
    requires SameBelow(m, r, |vars|) && HoldsInt(r, |vars|, v)
    ensures Represents(env[x := v], more, r)
  {
    RepresentsExtend(env, vars, more, m, r);
    assert more[|vars|] == (vars + [x])[|vars|];
    forall k | 0 <= k < |vars| ensures more[k] != x {
      assert more[k] == (vars + [x])[k];
    }
    hide Find;
    assert x !in more[..|vars|];
    FindFirst(more, x, |vars|);
  }

  lemma {:induction false} StoredHolds(m: Slots, i: nat, v: Int64)
    requires WellSized(m) && i < |m.words|
    ensures HoldsInt(StoreInt(m, i, ToWord(v)), i, v) && SameBelow(m, StoreInt(m, i, ToWord(v)), i)
  {
  }

  /** What a declaration has to establish for the variables `more` known after it. */
  ghost predicate Declares(env: Env, x: string, value: Option<Int64>, more: seq<string>, code: seq<Word>, pc: nat,
                           m: Slots, next: nat, r: Slots) {
    WellSized(m) &&
    match value
    case None => RunCode(code, pc, m) == OverflowError
    case Some(v) =>
      && Represents(env[x := v], more, r) && |r.words| == |m.words|
      && RunCode(code, pc, m) == RunCode(code, next, r)
  }

  lemma {:induction false} DeclareLiteralRun(env: Env, vars: seq<string>, x: string, v: Int64, more: seq<string>,
                                             code: seq<Word>, pc: nat, m: Slots)
    requires Represents(env, vars, m) && x !in vars && vars + [x] <= more && |more| <= |m.words| <= MAX_FRAME_LENGTH
    requires At(code, pc, EmitLoad(|vars|, v))
    ensures Declares(env, x, Some(v), more, code, pc, m, pc + 2, StoreInt(m, |vars|, ToWord(v)))
  {
    hide RunCode, At, EmitLoad, Find, ToWord;
    StoredHolds(m, |vars|, v);
    RunLoad(code, pc, m, |vars|, v);
    RepresentsDeclare(env, vars, x, more, m, StoreInt(m, |vars|, ToWord(v)), v);
  }

  lemma {:induction false} DeclareSumRun(env: Env, vars: seq<string>, x: string, l: Operand, r: Operand,
                                         mid: seq<string>, la: Atom, ra: Atom, end: seq<string>,
                                         positions: seq<nat>, code: seq<Word>, pc: nat, m: Slots)
    returns (result: Slots)
    requires Represents(env, vars, m) && x !in vars && OperandScoped(env.Keys, l) && OperandScoped(env.Keys, r)
    requires BuiltSum(vars + [x], l, r, Some(|vars|), mid, la, |vars|, ra, end) && vars + [x] <= end
    requires IsIdentity(positions) && |positions| == |m.words| && |end| <= |m.words|
    requires ExprOk(BinaryExpr(|vars|, la, ra), positions)
    requires At(code, pc, EmitBinary(|vars|, la, ra, positions))
    ensures Declares(env, x, Evaluate(env, Sum(l, r)), end, code, pc, m, pc + |EmitBinary(|vars|, la, ra, positions)|,
      result)
  {
    hide RunCode, At, EmitBinary, Find, ToWord, ElabOperand, ValueOf, AfterAtom, Represents, IsIdentity;
    RepresentsSized(env, vars, m);
    RepresentsExtend(env, vars, vars + [x], m, m);
    BinaryRun(env, vars + [x], l, r, Some(|vars|), mid, la, |vars|, ra, end, positions, code, pc, m);
    result := m;
    var sum := ValueOf(env, l) + ValueOf(env, r);
    if Fits(sum) {
      var loaded := AfterAtom(AfterAtom(m, la), ra);
      result := AfterBinary(m, |vars|, la, ra, sum);
      StoredHolds(loaded, |vars|, sum);
      RepresentsDeclare(env, vars, x, end, m, result, sum);
    }
  }

  /** A literal operand becomes a literal node, a name a variable node. */
  lemma SingleNode(vars: seq<string>, o: Operand, destination: Option<nat>)
    requires ElabExpr(vars, One(o), destination).Some?
    ensures var b := ElabExpr(vars, One(o), destination).value;
            && b.node.Single? && ElabOperand(vars, o) == Some(Built(b.vars, b.node.atom))
            && (b.node.atom.IntLit? <==> o.Lit?) && (o.Lit? ==> b.node.atom.literal == o.value)
  {
  }

  lemma SumNode(vars: seq<string>, l: Operand, r: Operand, destination: Option<nat>)
    requires ElabExpr(vars, Sum(l, r), destination).Some?
    ensures ElabOperand(vars, l).Some?
    ensures var b := ElabExpr(vars, Sum(l, r), destination).value; var mid := ElabOperand(vars, l).value.vars;
            && b.node.BinaryExpr? && b.node.output == ElabOutput(mid, destination).node
            && BuiltSum(vars, l, r, destination, mid, b.node.left, b.node.output, b.node.right, b.vars)
  {
    hide ElabOperand, FreshName;
  }

  lemma {:induction false} DeclareOneRun(env: Env, vars: seq<string>, x: string, o: Operand, end: seq<string>,
                                         node: Node,
                                         positions: seq<nat>, code: seq<Word>, pc: nat, m: Slots) returns (r: Slots)
    requires Represents(env, vars, m) && OperandScoped(env.Keys, o)
    requires ElabStatement(vars, Declare(x, Some(One(o)))) == Some(Built(end, node))
    requires IsIdentity(positions) && |positions| == |m.words| && |end| <= |m.words|
    requires NodeOk(node, positions) && At(code, pc, Emit(node, positions))
    ensures Declares(env, x, Some(ValueOf(env, o)), end, code, pc, m, pc + |Emit(node, positions)|, r)
  {
    assert WellSized(m);
    StatementExtends(vars, Declare(x, Some(One(o))));
    hide RunCode, At, EmitBinary, EmitLoad, Find, ToWord, ElabExpr, ValueOf, Represents, Declares, FreshName, BuiltSum;
    ExprExtends(vars + [x], One(o), Some(|vars|));
    SingleNode(vars + [x], o, Some(|vars|));
    DeclareLiteralRun(env, vars, x, o.value, end, code, pc, m);
    r := StoreInt(m, |vars|, ToWord(o.value));
  }

  lemma {:induction false} DeclareBothRun(env: Env, vars: seq<string>, x: string, l: Operand, r: Operand,
                                          end: seq<string>, node: Node,
                                          positions: seq<nat>, code: seq<Word>, pc: nat, m: Slots)
    returns (result: Slots)
    requires Represents(env, vars, m) && ExprScoped(env.Keys, Sum(l, r))
    requires ElabStatement(vars, Declare(x, Some(Sum(l, r)))) == Some(Built(end, node))
    requires IsIdentity(positions) && |positions| == |m.words| && |end| <= |m.words|
    requires NodeOk(node, positions) && At(code, pc, Emit(node, positions))
    ensures Declares(env, x, Evaluate(env, Sum(l, r)), end, code, pc, m, pc + |Emit(node, positions)|, result)
  {
    hide RunCode, At, EmitBinary, EmitLoad, Find, ToWord, ElabExpr, ValueOf, Represents, Declares, FreshName,
      BuiltSum, Evaluate;
    ExprExtends(vars + [x], Sum(l, r), Some(|vars|));
    SumNode(vars + [x], l, r, Some(|vars|));
    var mid := ElabOperand(vars + [x], l).value.vars;
    result := DeclareSumRun(env, vars, x, l, r, mid, node.init.left, node.init.right, end, positions, code, pc, m);
  }

  lemma {:induction false} DeclareRun(env: Env, vars: seq<string>, x: string, init: Option<Expr>, end: seq<string>,
                                      node: Node,
                                      positions: seq<nat>, code: seq<Word>, pc: nat, m: Slots) returns (r: Slots)
    requires Represents(env, vars, m) && StatementScoped(env.Keys, Declare(x, init))
    requires ElabStatement(vars, Declare(x, init)) == Some(Built(end, node))
    requires IsIdentity(positions) && |positions| == |m.words| && |end| <= |m.words|
    requires NodeOk(node, positions) && At(code, pc, Emit(node, positions))
    ensures Declares(env, x, InitialValue(env, init), end, code, pc, m, pc + |Emit(node, positions)|, r)
  {
    RepresentsSized(env, vars, m);
    StatementExtends(vars, Declare(x, init));
    hide RunCode, At, EmitBinary, EmitLoad, Find, ToWord, ElabExpr, ValueOf, Represents, Declares, FreshName;
    match init
    case None =>
      DeclareLiteralRun(env, vars, x, 0, end, code, pc, m);
      r := StoreInt(m, |vars|, ToWord(0));
    case Some(One(o)) => r := DeclareOneRun(env, vars, x, o, end, node, positions, code, pc, m);
    case Some(Sum(a, b)) => r := DeclareBothRun(env, vars, x, a, b, end, node, positions, code, pc, m);
  }

  // ---- Returns ----

  lemma {:induction false} ReturnSingleRun(env: Env, vars: seq<string>, o: Operand, end: seq<string>, a: Atom,
                                           positions: seq<nat>, code: seq<Word>, pc: nat, m: Slots)
    requires Represents(env, vars, m) && OperandScoped(env.Keys, o) && ElabOperand(vars, o) == Some(Built(end, a))
    requires IsIdentity(positions) && |positions| == |m.words| && |end| <= |m.words| && AtomOk(a, positions)
    requires At(code, pc, EmitAtom(a, positions) + EmitReturn(true, positions[a.index]))
    ensures RunCode(code, pc, m) == Finished(Some(ToWord(ValueOf(env, o))))
  {
    hide RunCode, At, EmitAtom, EmitReturn, Find, ToWord, ElabOperand, ValueOf, Represents, AfterAtom;
    AtSplit(code, pc, EmitAtom(a, positions), EmitReturn(true, positions[a.index]));
    OperandRun(env, vars, o, positions, code, pc, m);
    RunReturn(code, pc + |EmitAtom(a, positions)|, AfterAtom(m, a), true, a.index);
  }

  lemma {:induction false} ReturnSumRun(env: Env, vars: seq<string>, l: Operand, r: Operand,
                                        mid: seq<string>, la: Atom, out: nat, ra: Atom, end: seq<string>,
                                        positions: seq<nat>, code: seq<Word>, pc: nat, m: Slots)
    requires Represents(env, vars, m) && OperandScoped(env.Keys, l) && OperandScoped(env.Keys, r)
    requires BuiltSum(vars, l, r, None, mid, la, out, ra, end)
    requires IsIdentity(positions) && |positions| == |m.words| && |end| <= |m.words|
    requires ExprOk(BinaryExpr(out, la, ra), positions)
    requires At(code, pc, EmitBinary(out, la, ra, positions) + EmitReturn(true, positions[out]))
    ensures RunCode(code, pc, m) == ResultOf(ReturnOutcome(env, Some(Sum(l, r))))
  {
    hide RunCode, At, EmitBinary, EmitReturn, Find, ToWord, BuiltSum, ValueOf, Represents, AfterAtom;
    var binary := EmitBinary(out, la, ra, positions);
    AtSplit(code, pc, binary, EmitReturn(true, positions[out]));
    BinaryRun(env, vars, l, r, None, mid, la, out, ra, end, positions, code, pc, m);
    var sum := ValueOf(env, l) + ValueOf(env, r);
    if Fits(sum) {
      StoredHolds(AfterAtom(AfterAtom(m, la), ra), out, sum);
      RunReturn(code, pc + |binary|, AfterBinary(m, out, la, ra, sum), true, out);
    }
  }

  lemma {:induction false} ReturnRun(env: Env, vars: seq<string>, e: Option<Expr>, end: seq<string>, node: Node,
                                     positions: seq<nat>, code: seq<Word>, pc: nat, m: Slots)
    requires Represents(env, vars, m) && StatementScoped(env.Keys, Return(e))
    requires ElabStatement(vars, Return(e)) == Some(Built(end, node))
    requires IsIdentity(positions) && |positions| == |m.words| && |end| <= |m.words|
    requires NodeOk(node, positions) && At(code, pc, Emit(node, positions))
    ensures RunCode(code, pc, m) == ResultOf(ReturnOutcome(env, e))
  {
    hide RunCode, At, EmitBinary, EmitReturn, ToWord, ElabExpr, ElabOperand, ValueOf, Represents, BuiltSum, WellSized;
    RepresentsSized(env, vars, m);
    match e
    case None => RunReturn(code, pc, m, false, 0);
    case Some(One(o)) =>
      SingleNode(vars, o, None);
      var a := node.value.value.atom;
      assert EmitAtom(a, positions) + EmitReturn(true, positions[a.index]) == Emit(node, positions);
      ReturnSingleRun(env, vars, o, end, a, positions, code, pc, m);
    case Some(Sum(l, r)) =>
      SumNode(vars, l, r, None);
      var b := node.value.value;
      ReturnSumRun(env, vars, l, r, ElabOperand(vars, l).value.vars, b.left, b.output, b.right, end, positions, code,
        pc, m);
  }

  // ---- Whole functions ----

  /** The first statement's node and code, and those of the rest. */
  lemma {:induction false} BodySplit(vars: seq<string>, body: seq<Statement>, end: seq<string>, nodes: seq<Node>,
                                     positions: seq<nat>, code: seq<Word>, pc: nat)
    requires body != [] && ElabBody(vars, body) == Some(Built(end, nodes))
    requires NodesOk(nodes, positions) && At(code, pc, EmitAll(nodes, positions))
    ensures nodes != [] && NodeOk(nodes[0], positions) && NodesOk(nodes[1..], positions)
      && ElabStatement(vars, body[0]).Some?
    ensures var first := ElabStatement(vars, body[0]).value; var fragment := Emit(nodes[0], positions);
            && first.node == nodes[0] && ElabBody(first.vars, body[1..]) == Some(Built(end, nodes[1..]))
            && |first.vars| <= |end|
            && At(code, pc, fragment) && At(code, pc + |fragment|, EmitAll(nodes[1..], positions))
  {
    hide At, Emit, ElabStatement, NodeOk;
    BodyExtends(ElabStatement(vars, body[0]).value.vars, body[1..]);
    AtSplit(code, pc, Emit(nodes[0], positions), EmitAll(nodes[1..], positions));
  }

  lemma PerformFirst(env: Env, body: seq<Statement>)
    requires Scoped(env.Keys, body) && body != []
    ensures StatementScoped(env.Keys, body[0])
    ensures body[0].Return? ==> Perform(env, body) == ReturnOutcome(env, body[0].result)
    ensures body[0].Declare? ==>
      var v := InitialValue(env, body[0].init);
      if v.None? then Perform(env, body) == AdditionOverflow
      else Scoped(env[body[0].name := v.value].Keys, body[1..])
           && Perform(env, body) == Perform(env[body[0].name := v.value], body[1..])
  {
    if body[0].Declare? && InitialValue(env, body[0].init).Some? {
      assert env[body[0].name := InitialValue(env, body[0].init).value].Keys == env.Keys + {body[0].name};
    }
  }

  lemma {:induction false} BodyRun(env: Env, vars: seq<string>, body: seq<Statement>, end: seq<string>,
                                   nodes: seq<Node>, positions: seq<nat>, code: seq<Word>, pc: nat, m: Slots)
    requires Represents(env, vars, m) && Scoped(env.Keys, body) && body != [] && body[|body| - 1].Return?
    requires ElabBody(vars, body) == Some(Built(end, nodes))
    requires IsIdentity(positions) && |positions| == |m.words| && |end| <= |m.words|
    requires NodesOk(nodes, positions) && At(code, pc, EmitAll(nodes, positions))
    ensures RunCode(code, pc, m) == ResultOf(Perform(env, body))
    decreases body, 1
  {
    hide RunCode, Represents, NodeOk, NodesOk, IsIdentity, EmitAll, Emit, At, ElabBody, ElabStatement, ReturnOutcome,
      ResultOf,
         Perform, Scoped, InitialValue, StatementScoped;
    PerformFirst(env, body);
    BodySplit(vars, body, end, nodes, positions, code, pc);
    var first, rest := ElabStatement(vars, body[0]).value.vars, body[1..];
    assert body[0].Declare? ==> rest != [] && rest[|rest| - 1] == body[|body| - 1];
    OverflowResult();
    match body[0]
    case Return(e) => ReturnRun(env, vars, e, first, nodes[0], positions, code, pc, m);
    case Declare(x, init) =>
      DeclaredRun(env, vars, x, init, rest, first, end, nodes[0], nodes[1..], positions, code, pc, m);
  }

  /** A declaration, and then the rest of the body with the variable bound. */
  lemma {:induction false} DeclaredRun(env: Env, vars: seq<string>, x: string, init: Option<Expr>, rest: seq<Statement>,
                                       first: seq<string>, end: seq<string>, node: Node, nodes: seq<Node>,
                                       positions: seq<nat>, code: seq<Word>, pc: nat, m: Slots)
    requires Represents(env, vars, m) && StatementScoped(env.Keys, Declare(x, init))
    requires ElabStatement(vars, Declare(x, init)) == Some(Built(first, node))
    requires rest != [] && rest[|rest| - 1].Return? && ElabBody(first, rest) == Some(Built(end, nodes))
    requires InitialValue(env, init).Some? ==> Scoped(env[x := InitialValue(env, init).value].Keys, rest)
    requires IsIdentity(positions) && |positions| == |m.words| && |first| <= |end| <= |m.words|
    requires NodeOk(node, positions) && NodesOk(nodes, positions)
    requires At(code, pc, Emit(node, positions)) && At(code, pc + |Emit(node, positions)|, EmitAll(nodes, positions))
    ensures RunCode(code, pc, m) == match InitialValue(env, init)
                                case None => OverflowError
                                case Some(v) => ResultOf(Perform(env[x := v], rest))
    decreases rest, 2
  {
    hide RunCode, Represents, NodeOk, NodesOk, IsIdentity, EmitAll, Emit, At, ElabBody, ElabStatement, InitialValue,
      Perform, Scoped, ResultOf;
    var r := DeclareRun(env, vars, x, init, first, node, positions, code, pc, m);
    var v := InitialValue(env, init);
    if v.Some? {
      BodyRun(env[x := v.value], first, rest, end, nodes, positions, code, pc + |Emit(node, positions)|, r);
    }
  }

  lemma OverflowResult()
    ensures ResultOf(AdditionOverflow) == OverflowError
  {
  }

  /** The arguments are in the first slots; whatever is in the others does not matter. */
  ghost predicate StartsWith(m: Slots, args: seq<Int64>) {
    WellSized(m) && |args| <= |m.words| && forall i :: 0 <= i < |args| ==> HoldsInt(m, i, args[i])
  }

  lemma {:induction false} BindAt(params: seq<string>, args: seq<Int64>, i: nat)
    requires |params| == |args| && i < |params| && Distinct(params)
    ensures Bind(params, args)[params[i]] == args[i]
  {
    var n := |params| - 1;
    if i < n {
      BindAt(params[..n], args[..n], i);
      assert params[..n][i] == params[i];
    }
  }

  lemma {:induction false} BindRepresents(params: seq<string>, args: seq<Int64>, m: Slots)
    requires |params| == |args| && Distinct(params) && StartsWith(m, args)
    ensures Represents(Bind(params, args), params, m)
  {
    hide Find, Bind;
    forall n | n in Bind(params, args)
      ensures Find(params, n).Some? && HoldsInt(m, Find(params, n).value, Bind(params, args)[n])
    {
      var i := Find(params, n).value;
      BindAt(params, args, i);
      assert HoldsInt(m, i, args[i]);
    }
  }

  lemma {:induction false} ElabFunctionOf(f: Function)
    requires Distinct(f.params) && Compile(f).Some?
    ensures ElabBody(f.params, Complete(f.body)).Some?
    ensures var b := ElabBody(f.params, Complete(f.body)).value;
            && f.params <= b.vars && Distinct(b.vars)
            && NodesOk(b.node, IntPositions(|b.vars|))
            && Compile(f) == Some(Compiled(EmitAll(b.node, IntPositions(|b.vars|)), |b.vars|, |f.params|))
  {
    hide ElabBody, NodesOk, EmitAll;
    assert [] + f.params == f.params;
    ElabDistinctParams([], f.params);
    BodyExtends(f.params, Complete(f.body));
  }

  /** For every function whose names are used only after their declarations and that the compiler accepts,
      and for all arguments: running the emitted code in a frame of the computed length returns what direct
      evaluation returns, returns nothing where it does, and stops with the overflow error exactly where an
      addition on the way leaves the 64-bit range. */
  lemma {:induction false} CompilationPreservesMeaning(f: Function, args: seq<Int64>, m: Slots)
    requires FunctionScoped(f) && |args| == |f.params| && Compile(f).Some?
    requires Compile(f).value.frameLength <= MAX_FRAME_LENGTH
    requires |m.words| == Compile(f).value.frameLength && StartsWith(m, args)
    ensures RunCode(Compile(f).value.code, 0, m) == ResultOf(Meaning(f, args))
    ensures Compile(f).value.argCount == |f.params|
  {
    hide Compile, ElabBody, EmitAll, NodesOk, RunCode, Perform;
    ElabFunctionOf(f);
    var b := ElabBody(f.params, Complete(f.body)).value;
    var env := Bind(f.params, args);
    var code := EmitAll(b.node, IntPositions(|b.vars|));
    assert env.Keys == (set n | n in f.params);
    CompleteKeepsMeaning(env, f.body);
    BindRepresents(f.params, args, m);
    assert code[0..0 + |code|] == code;
    BodyRun(env, f.params, Complete(f.body), b.vars, b.node, IntPositions(|b.vars|), code, 0, m);
  }
}
