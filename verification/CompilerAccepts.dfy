/** Which functions the compiler accepts: the assertions on the way from a parsed function to its code
    (src/compiler/ast_nodes) fail exactly for a declaration of a name that is taken, by the program or by
    a temporary, for a use of a name that is not, and for a declaration initialised by a lone variable.
    Which names the temporaries take can be read off the text. */
module CompilerAccepts {
  import opened StackSpec
  import opened Options
  import opened StackVariables
  import opened Language
  import opened Elaboration
  import opened CodeGen
  import opened CompilerCorrect

  // ---- The names temporaries take ----

  /** The temporaries created for a statement: one for each literal, and one for a returned sum. */
  function LiteralTemporaries(s: Statement): nat {
    match s
    case Declare(_, Some(e)) => ExprLiterals(e)
    case Return(Some(e)) => ExprLiterals(e)
    case _ => 0
  }

  function SumTemporaries(s: Statement): nat {
    if s.Return? && s.result.Some? && s.result.value.Sum? then 1 else 0
  }

  function ExprLiterals(e: Expr): nat {
    match e
    case One(o) => LiteralCount(o)
    case Sum(l, r) => LiteralCount(l) + LiteralCount(r)
  }

  function LiteralCount(o: Operand): nat {
    if o.Lit? then 1 else 0
  }

  /** How many of the names are `base` with fewer than `n` underscores behind it. */
  function Shorter(names: set<string>, base: string, n: nat): nat {
    if n == 0 then 0 else Shorter(names, base, n - 1) + (if base + Underscores(n - 1) in names then 1 else 0)
  }

  predicate IsNamed(x: string, base: string) {
    |base| <= |x| && x == base + Underscores(|x| - |base|)
  }

  /** `x` is the temporaries' name with so few underscores that one of the `created` ones has it already:
      they take the shortest names that the program has not declared. */
  predicate TakenByTemporary(names: set<string>, base: string, created: nat, x: string) {
    IsNamed(x, base) && created + Shorter(names, base, |x| - |base|) > |x| - |base|
  }

  /** A name that can be declared after `lits` literals and `sums` returned sums. */
  predicate Declarable(names: set<string>, lits: nat, sums: nat, x: string) {
    x !in names && !TakenByTemporary(names, TMP_INT_LIT, lits, x) && !TakenByTemporary(names, TMP_BIN_EXPR_OUT, sums, x)
  }

  /** A name finds a variable if it could not be declared any more: also one of a temporary. */
  predicate OperandKnown(names: set<string>, lits: nat, sums: nat, o: Operand) {
    o.Name? ==> !Declarable(names, lits, sums, o.name)
  }

  /** The right operand is looked up when the left one's temporary and the `outputs` for the sum exist. */
  predicate ExprKnown(names: set<string>, lits: nat, sums: nat, e: Expr, outputs: nat) {
    match e
    case One(o) => OperandKnown(names, lits, sums, o)
    case Sum(l, r) =>
      OperandKnown(names, lits, sums, l) && OperandKnown(names, lits + LiteralCount(l), sums + outputs, r)
  }

  /** A declared name is free, and known from then on, in its own initialiser too; a name used is known. */
  predicate StatementOk(names: set<string>, lits: nat, sums: nat, s: Statement) {
    match s
    case Declare(x, init) =>
      Declarable(names, lits, sums, x) && (init.Some? ==> ExprKnown(names + {x}, lits, sums, init.value, 0))
    case Return(e) => e.Some? ==> ExprKnown(names, lits, sums, e.value, 1)
  }

  /** No statement declares a name that is taken by then or uses one that is not. */
  predicate NoneRefused(names: set<string>, lits: nat, sums: nat, body: seq<Statement>)
    decreases body
  {
    body == [] ||
    (&& StatementOk(names, lits, sums, body[0])
     && NoneRefused(names + DeclaredBy(body[0]), lits + LiteralTemporaries(body[0]), sums + SumTemporaries(body[0]),
       body[1..]))
  }

  predicate InitOk(s: Statement) {
    s.Declare? && s.init.Some? && s.init.value.One? ==> s.init.value.operand.Lit?
  }

  predicate InitsOk(body: seq<Statement>) {
    forall i :: 0 <= i < |body| ==> InitOk(body[i])
  }

  // ---- How many variables a function gets ----

  /** A declared variable and the temporaries. */
  function StatementCount(s: Statement): nat {
    (if s.Declare? then 1 else 0) + LiteralTemporaries(s) + SumTemporaries(s)
  }

  function VariableCount(body: seq<Statement>): nat
    decreases body
  {
    if body == [] then 0 else StatementCount(body[0]) + VariableCount(body[1..])
  }

  // ---- The underscores in use ----

  /** Of the names with this base, the variables have those of the program and all with fewer than `m`
      underscores, and `created` is the number of those that are temporaries. */
  ghost predicate FilledTo(names: set<string>, vars: seq<string>, base: string, created: nat, m: nat) {
    && created + Shorter(names, base, m) == m
    && forall k: nat :: base + Underscores(k) in vars <==> k < m || base + Underscores(k) in names
  }

  ghost predicate Filled(names: set<string>, vars: seq<string>, base: string, created: nat) {
    exists m: nat :: FilledTo(names, vars, base, created, m)
  }

  /** The variables are the program's names and the temporaries. */
  ghost predicate Knows(names: set<string>, vars: seq<string>, lits: nat, sums: nat) {
    && (forall n :: n in names ==> n in vars)
    && (forall v :: v in vars ==> v in names || IsNamed(v, TMP_INT_LIT) || IsNamed(v, TMP_BIN_EXPR_OUT))
    && Filled(names, vars, TMP_INT_LIT, lits) && Filled(names, vars, TMP_BIN_EXPR_OUT, sums)
  }

  lemma SameName(base: string, k: nat)
    ensures IsNamed(base + Underscores(k), base) && |base + Underscores(k)| - |base| == k
  {
  }

  lemma BasesDiffer(k: nat, l: nat)
    ensures TMP_INT_LIT + Underscores(k) != TMP_BIN_EXPR_OUT + Underscores(l)
  {
    assert (TMP_INT_LIT + Underscores(k))[4] == 'I' && (TMP_BIN_EXPR_OUT + Underscores(l))[4] == 'B';
  }

  /** Between two counts lie at most as many of the program's names as counts, and that many only if all are. */
  lemma {:induction false} ShorterBetween(names: set<string>, base: string, k: nat, m: nat)
    requires k <= m
    ensures Shorter(names, base, k) <= Shorter(names, base, m) <= Shorter(names, base, k) + (m - k)
    ensures (forall j: nat :: k <= j < m ==> base + Underscores(j) in names)
      ==> Shorter(names, base, m) == Shorter(names, base, k) + (m - k)
    ensures k < m && base + Underscores(k) !in names ==> Shorter(names, base, m) < Shorter(names, base, k) + (m - k)
    decreases m
  {
    if k < m {
      ShorterBetween(names, base, k, m - 1);
    }
  }

  /** Shorter names are not affected by a longer one, or by one that is not of this base. */
  lemma {:induction false} ShorterAdd(names: set<string>, base: string, x: string, m: nat)
    requires forall k: nat :: k < m ==> x != base + Underscores(k)
    ensures Shorter(names + {x}, base, m) == Shorter(names, base, m)
  {
    if m > 0 {
      ShorterAdd(names, base, x, m - 1);
    }
  }

  /** Exactly the names of which the rule says so are taken by a temporary. */
  lemma {:induction false} TakenExactly(names: set<string>, vars: seq<string>, base: string, created: nat, x: string)
    requires Filled(names, vars, base, created) && x !in names && IsNamed(x, base)
    ensures x in vars <==> TakenByTemporary(names, base, created, x)
  {
    var m: nat :| FilledTo(names, vars, base, created, m);
    var n := |x| - |base|;
    if n < m {
      ShorterBetween(names, base, n, m);
    } else {
      ShorterBetween(names, base, m, n);
    }
  }

  lemma {:induction false} DeclarableExactly(names: set<string>, vars: seq<string>, lits: nat, sums: nat, x: string)
    requires Knows(names, vars, lits, sums)
    ensures x in vars <==> !Declarable(names, lits, sums, x)
  {
    hide Filled, IsNamed;
    if x !in names {
      if IsNamed(x, TMP_INT_LIT) {
        TakenExactly(names, vars, TMP_INT_LIT, lits, x);
      }
      if IsNamed(x, TMP_BIN_EXPR_OUT) {
        TakenExactly(names, vars, TMP_BIN_EXPR_OUT, sums, x);
      }
    }
  }

  lemma {:induction false} FilledDeclare(names: set<string>, vars: seq<string>, base: string, created: nat, x: string)
    requires Filled(names, vars, base, created) && x !in vars
    ensures Filled(names + {x}, vars + [x], base, created)
  {
    var m: nat :| FilledTo(names, vars, base, created, m);
    ShorterAdd(names, base, x, m);
    assert FilledTo(names + {x}, vars + [x], base, created, m);
  }

  lemma {:induction false} DeclareKnows(names: set<string>, vars: seq<string>, lits: nat, sums: nat, x: string)
    requires Knows(names, vars, lits, sums) && x !in vars
    ensures Knows(names + {x}, vars + [x], lits, sums)
  {
    hide Filled, IsNamed;
    FilledDeclare(names, vars, TMP_INT_LIT, lits, x);
    FilledDeclare(names, vars, TMP_BIN_EXPR_OUT, sums, x);
  }

  /** A new temporary takes the first free count. */
  lemma {:induction false} FilledTemporary(names: set<string>, vars: seq<string>, base: string, created: nat)
    returns (n: nat)
    requires Filled(names, vars, base, created)
    ensures FreshName(vars, base) == base + Underscores(n)
    ensures Filled(names, AddTemporary(vars, base), base, created + 1)
  {
    var m: nat :| FilledTo(names, vars, base, created, m);
    FreshNameIsShortest(vars, base);
    n :| FreshName(vars, base) == base + Underscores(n) && Taken(vars, base, 0, n);
    hide FreshName;
    assert base + Underscores(n) !in vars;
    assert n >= m;
    forall j: nat | m <= j < n ensures base + Underscores(j) in names {
      assert base + Underscores(j) in vars;
    }
    ShorterBetween(names, base, m, n);
    FilledMore(names, vars, base, created, m, n);
  }

  lemma {:induction false} FilledMore(names: set<string>, vars: seq<string>, base: string, created: nat, m: nat, n: nat)
    requires FilledTo(names, vars, base, created, m) && n >= m && base + Underscores(n) !in vars
    requires forall j: nat :: m <= j < n ==> base + Underscores(j) in names
    requires Shorter(names, base, n) == Shorter(names, base, m) + (n - m)
    ensures Filled(names, vars + [base + Underscores(n)], base, created + 1)
  {
    var more := vars + [base + Underscores(n)];
    forall k: nat ensures base + Underscores(k) in more <==> k < n + 1 || base + Underscores(k) in names {
      SameName(base, k);
      SameName(base, n);
    }
    assert FilledTo(names, more, base, created + 1, n + 1);
  }

  lemma {:induction false} FilledOther(names: set<string>, vars: seq<string>, base: string, created: nat, x: string)
    requires Filled(names, vars, base, created) && forall k: nat :: x != base + Underscores(k)
    ensures Filled(names, vars + [x], base, created)
  {
    var m: nat :| FilledTo(names, vars, base, created, m);
    assert FilledTo(names, vars + [x], base, created, m);
  }

  lemma {:induction false} LiteralKnows(names: set<string>, vars: seq<string>, lits: nat, sums: nat)
    requires Knows(names, vars, lits, sums)
    ensures Knows(names, AddTemporary(vars, TMP_INT_LIT), lits + 1, sums)
  {
    hide Filled, FreshName, IsNamed, Underscores;
    var n := FilledTemporary(names, vars, TMP_INT_LIT, lits);
    SameName(TMP_INT_LIT, n);
    var x := FreshName(vars, TMP_INT_LIT);
    forall k: nat ensures x != TMP_BIN_EXPR_OUT + Underscores(k) {
      BasesDiffer(n, k);
    }
    FilledOther(names, vars, TMP_BIN_EXPR_OUT, sums, x);
  }

  lemma {:induction false} SumKnows(names: set<string>, vars: seq<string>, lits: nat, sums: nat)
    requires Knows(names, vars, lits, sums)
    ensures Knows(names, AddTemporary(vars, TMP_BIN_EXPR_OUT), lits, sums + 1)
  {
    hide Filled, FreshName, IsNamed, Underscores;
    var n := FilledTemporary(names, vars, TMP_BIN_EXPR_OUT, sums);
    SameName(TMP_BIN_EXPR_OUT, n);
    var x := FreshName(vars, TMP_BIN_EXPR_OUT);
    forall k: nat ensures x != TMP_INT_LIT + Underscores(k) {
      BasesDiffer(k, n);
    }
    FilledOther(names, vars, TMP_INT_LIT, lits, x);
  }

  // ---- Statements ----

  lemma {:induction false} OperandAccepted(names: set<string>, vars: seq<string>, lits: nat, sums: nat, o: Operand)
    requires Knows(names, vars, lits, sums)
    ensures ElabOperand(vars, o).Some? <==> OperandKnown(names, lits, sums, o)
    ensures ElabOperand(vars, o).Some? ==>
      var b := ElabOperand(vars, o).value;
      && Knows(names, b.vars, lits + LiteralCount(o), sums)
      && |b.vars| == |vars| + LiteralCount(o) && b.node.index < |b.vars|
  {
    hide FreshName, Knows, Declarable;
    match o
    case Lit(_) => LiteralKnows(names, vars, lits, sums);
    case Name(n) => DeclarableExactly(names, vars, lits, sums, n);
  }

  /** What is known once an expression is built, `outputs` temporaries for its sum included. */
  ghost predicate ExprBuilt(names: set<string>, count: nat, lits: nat, sums: nat, e: Expr, outputs: nat,
                            b: Built<ExprNode>, frame: nat) {
    && Knows(names, b.vars, lits + ExprLiterals(e), sums + outputs)
    && |b.vars| == count + ExprLiterals(e) + outputs
    && (|b.vars| <= frame <= MAX_FRAME_LENGTH ==> ExprOk(b.node, IntPositions(frame)))
  }

  lemma {:induction false} SumAccepted(names: set<string>, vars: seq<string>, lits: nat, sums: nat, l: Operand,
                                       r: Operand, destination: Option<nat>, frame: nat)
    requires Knows(names, vars, lits, sums) && (destination.Some? ==> destination.value < |vars|)
    ensures var outputs := if destination.None? then 1 else 0;
      var built := ElabExpr(vars, Sum(l, r), destination);
      && (built.Some? <==> ExprKnown(names, lits, sums, Sum(l, r), outputs))
      && (built.Some? ==> ExprBuilt(names, |vars|, lits, sums, Sum(l, r), outputs, built.value, frame))
  {
    hide FreshName, ElabOperand, Knows, OperandKnown;
    OperandAccepted(names, vars, lits, sums, l);
    if ElabOperand(vars, l).Some? {
      var left := ElabOperand(vars, l).value.vars;
      var lits' := lits + LiteralCount(l);
      SumKnows(names, left, lits', sums);
      OperandAccepted(names, ElabOutput(left, destination).vars, lits', sums + if destination.None? then 1 else 0, r);
    }
  }

  function Outputs(e: Expr, destination: Option<nat>): nat {
    if e.Sum? && destination.None? then 1 else 0
  }

  lemma {:induction false} ExprAccepted(names: set<string>, vars: seq<string>, lits: nat, sums: nat, e: Expr,
                                        destination: Option<nat>, frame: nat)
    requires Knows(names, vars, lits, sums) && (destination.Some? ==> destination.value < |vars|)
    ensures ElabExpr(vars, e, destination).Some? <==> ExprKnown(names, lits, sums, e, Outputs(e, destination))
    ensures ElabExpr(vars, e, destination).Some? ==>
      ExprBuilt(names, |vars|, lits, sums, e, Outputs(e, destination), ElabExpr(vars, e, destination).value, frame)
  {
    hide FreshName, ElabOperand, Knows, OperandKnown;
    match e
    case One(o) => OperandAccepted(names, vars, lits, sums, o);
    case Sum(l, r) => SumAccepted(names, vars, lits, sums, l, r, destination, frame);
  }

  ghost predicate StatementBuilt(names: set<string>, count: nat, lits: nat, sums: nat, s: Statement, b: Built<Node>,
                                 frame: nat) {
    && Knows(names + DeclaredBy(s), b.vars, lits + LiteralTemporaries(s), sums + SumTemporaries(s))
    && |b.vars| == count + StatementCount(s)
    && (|b.vars| <= frame <= MAX_FRAME_LENGTH ==> (NodeOk(b.node, IntPositions(frame)) <==> InitOk(s)))
  }

  lemma {:induction false} DeclareAccepted(names: set<string>, vars: seq<string>, lits: nat, sums: nat, x: string,
                                           init: Option<Expr>, frame: nat)
    requires Knows(names, vars, lits, sums) && x !in vars
    ensures var built := ElabStatement(vars, Declare(x, init));
      && (built.Some? <==> (init.Some? ==> ExprKnown(names + {x}, lits, sums, init.value, 0)))
      && (built.Some? ==> StatementBuilt(names, |vars|, lits, sums, Declare(x, init), built.value, frame))
  {
    hide FreshName, ElabExpr, IntPositions, Knows, ExprLiterals, Declarable, ElabOperand, ExprKnown;
    DeclareKnows(names, vars, lits, sums, x);
    if init.Some? {
      ExprAccepted(names + {x}, vars + [x], lits, sums, init.value, Some(|vars|), frame);
      if ElabExpr(vars + [x], init.value, Some(|vars|)).Some? {
        if init.value.One? {
          SingleNode(vars + [x], init.value.operand, Some(|vars|));
        } else {
          SumNode(vars + [x], init.value.left, init.value.right, Some(|vars|));
        }
      }
    }
  }

  lemma {:induction false} StatementAccepted(names: set<string>, vars: seq<string>, lits: nat, sums: nat,
                                             s: Statement, frame: nat)
    requires Knows(names, vars, lits, sums)
    ensures ElabStatement(vars, s).Some? <==> StatementOk(names, lits, sums, s)
    ensures ElabStatement(vars, s).Some? ==>
      StatementBuilt(names, |vars|, lits, sums, s, ElabStatement(vars, s).value, frame)
  {
    hide FreshName, ElabExpr, IntPositions, Knows, Declarable, OperandKnown;
    match s
    case Declare(x, init) =>
      DeclarableExactly(names, vars, lits, sums, x);
      if x !in vars {
        DeclareAccepted(names, vars, lits, sums, x, init, frame);
      }
    case Return(e) =>
      assert names + {} == names;
      if e.Some? {
        ExprAccepted(names, vars, lits, sums, e.value, None, frame);
      }
  }

  lemma {:induction false} BodyAccepted(names: set<string>, vars: seq<string>, lits: nat, sums: nat,
                                        body: seq<Statement>, frame: nat)
    requires Knows(names, vars, lits, sums)
    ensures ElabBody(vars, body).Some? <==> NoneRefused(names, lits, sums, body)
    ensures ElabBody(vars, body).Some? ==>
      var b := ElabBody(vars, body).value;
      && |b.vars| == |vars| + VariableCount(body)
      && (|b.vars| <= frame <= MAX_FRAME_LENGTH ==> (NodesOk(b.node, IntPositions(frame)) <==> InitsOk(body)))
    decreases body
  {
    hide Knows, StatementOk, NodeOk, NodesOk, IntPositions, ElabStatement, InitOk, InitsOk, StatementCount,
      LiteralTemporaries, SumTemporaries;
    if body == [] {
      EmptyOk(frame);
    } else {
      StatementAccepted(names, vars, lits, sums, body[0], frame);
      if ElabStatement(vars, body[0]).Some? {
        var first := ElabStatement(vars, body[0]).value;
        BodyAccepted(names + DeclaredBy(body[0]), first.vars, lits + LiteralTemporaries(body[0]),
                     sums + SumTemporaries(body[0]), body[1..], frame);
        if ElabBody(first.vars, body[1..]).Some? {
          SplitOk(ElabBody(vars, body).value.node, body, IntPositions(frame));
        }
      }
    }
  }

  lemma EmptyOk(frame: nat)
    ensures NodesOk([], IntPositions(frame)) && InitsOk([])
  {
  }

  lemma SplitOk(nodes: seq<Node>, body: seq<Statement>, positions: seq<nat>)
    requires nodes != [] && body != []
    ensures NodesOk(nodes, positions) <==> NodeOk(nodes[0], positions) && NodesOk(nodes[1..], positions)
    ensures InitsOk(body) <==> InitOk(body[0]) && InitsOk(body[1..])
  {
    hide NodeOk, InitOk;
    assert nodes == [nodes[0]] + nodes[1..] && body == [body[0]] + body[1..];
  }

  // ---- Functions ----

  lemma {:induction false} CompleteKeepsChecks(names: set<string>, lits: nat, sums: nat, body: seq<Statement>)
    ensures NoneRefused(names, lits, sums, Complete(body)) == NoneRefused(names, lits, sums, body)
    ensures VariableCount(Complete(body)) == VariableCount(body)
    ensures InitsOk(Complete(body)) == InitsOk(body)
  {
    var more := body + [Return(None)];
    AppendKeepsChecks(names, lits, sums, body);
    assert InitsOk(more) ==> InitsOk(body) by {
      assert forall i :: 0 <= i < |body| ==> more[i] == body[i];
    }
  }

  lemma {:induction false} AppendKeepsChecks(names: set<string>, lits: nat, sums: nat, body: seq<Statement>)
    ensures NoneRefused(names, lits, sums, body + [Return(None)]) == NoneRefused(names, lits, sums, body)
    ensures VariableCount(body + [Return(None)]) == VariableCount(body)
    decreases body
  {
    hide Declarable, ExprKnown;
    var more := body + [Return(None)];
    if body == [] {
      assert more[1..] == [];
    } else {
      assert more[1..] == body[1..] + [Return(None)];
      AppendKeepsChecks(names + DeclaredBy(body[0]), lits + LiteralTemporaries(body[0]),
        sums + SumTemporaries(body[0]), body[1..]);
    }
  }

  lemma {:induction false} NoTemporaries(names: set<string>, vars: seq<string>, base: string)
    requires forall n :: n in names <==> n in vars
    ensures Filled(names, vars, base, 0)
  {
    assert FilledTo(names, vars, base, 0, 0);
  }

  /** The names of the parameters; repeated ones are dropped. */
  function ParamNames(f: Function): set<string> {
    set n | n in f.params
  }

  lemma {:induction false} ParamsBuilt(vars: seq<string>, params: seq<string>)
    requires Distinct(vars)
    ensures var all := ElabParams(vars, params);
      Distinct(all) && forall n :: n in all <==> n in vars || n in params
    decreases params
  {
    if params != [] {
      assert params == [params[0]] + params[1..];
      ParamsBuilt(if params[0] in vars then vars else vars + [params[0]], params[1..]);
    }
  }

  lemma {:induction false} DistinctCount(vars: seq<string>)
    requires Distinct(vars)
    ensures |set n | n in vars| == |vars|
    decreases vars
  {
    if vars == [] {
      assert (set n | n in vars) == {};
    } else {
      var rest := vars[..|vars| - 1];
      assert vars == rest + [vars[|vars| - 1]];
      DistinctCount(rest);
      assert (set n | n in vars) == (set n | n in rest) + {vars[|vars| - 1]};
    }
  }

  lemma {:induction false} ParamsKnown(f: Function)
    ensures var vars := ElabParams([], f.params);
      Knows(ParamNames(f), vars, 0, 0) && |vars| == |ParamNames(f)|
  {
    var vars := ElabParams([], f.params);
    ParamsBuilt([], f.params);
    DistinctCount(vars);
    assert (set n | n in vars) == ParamNames(f);
    NoTemporaries(ParamNames(f), vars, TMP_INT_LIT);
    NoTemporaries(ParamNames(f), vars, TMP_BIN_EXPR_OUT);
  }

  /** A function whose variables fit a frame is accepted if and only if every name it declares is free, of
      the program's names and of the temporaries so far, every name it uses is not, and it initialises no
      variable by a lone name; and then its frame has one slot for each name among the parameters, each
      declared variable and each temporary. */
  lemma {:induction false} CompileAcceptsExactly(f: Function)
    requires |ParamNames(f)| + VariableCount(f.body) <= MAX_FRAME_LENGTH
    ensures Compile(f).Some? <==> NoneRefused(ParamNames(f), 0, 0, f.body) && InitsOk(f.body)
    ensures Compile(f).Some? ==> Compile(f).value.frameLength == |ParamNames(f)| + VariableCount(f.body)
  {
    hide ElabBody, NodesOk, EmitAll, InitsOk, NoneRefused, VariableCount, IntPositions, Knows, Complete, ElabParams,
      ParamNames;
    var names := ParamNames(f);
    CompleteKeepsChecks(names, 0, 0, f.body);
    ParamsKnown(f);
    BodyAccepted(names, ElabParams([], f.params), 0, 0, Complete(f.body), |names| + VariableCount(f.body));
  }

  /** A well-scoped body uses no unknown name: what is left to check are its declarations. */
  lemma {:induction false} ScopedIsKnown(names: set<string>, lits: nat, sums: nat, s: Statement)
    requires StatementScoped(names, s)
    ensures StatementOk(names, lits, sums, s) <==> (s.Declare? ==> Declarable(names, lits, sums, s.name))
  {
    hide TakenByTemporary;
  }

  /** A name no temporary can have is refused only as one of the program's own. */
  lemma {:induction false} OtherNames(names: set<string>, lits: nat, sums: nat, x: string)
    requires !IsNamed(x, TMP_INT_LIT) && !IsNamed(x, TMP_BIN_EXPR_OUT)
    ensures Declarable(names, lits, sums, x) <==> x !in names
  {
  }

  /** A variable is known in its own initialiser, though its declaration is not complete: the sum is computed
      from the slot that is to receive it. */
  lemma {:induction false} OwnInitialiser(f: Function)
    requires f == Function([], [Declare("x", Some(Sum(Name("x"), Name("x"))))])
    ensures Compile(f).Some? && !FunctionScoped(f)
  {
    var body := f.body;
    assert body[1..] == [];
    assert ParamNames(f) == {} == (set n: string | n in f.params);
    assert Shorter({}, TMP_INT_LIT, 0) == 0;
    assert VariableCount(body) == 1;
    assert !IsNamed("x", TMP_INT_LIT) && !IsNamed("x", TMP_BIN_EXPR_OUT);
    assert NoneRefused({}, 0, 0, body);
    CompileAcceptsExactly(f);
    assert !Scoped({}, body);
  }

  /** A variable with the value of another alone is refused. */
  lemma {:induction false} LoneVariable(f: Function)
    requires f == Function(["a"], [Declare("b", Some(One(Name("a"))))])
    ensures FunctionScoped(f) && Compile(f) == None
  {
    var body := f.body;
    assert body[1..] == [] && "a" in f.params;
    assert ParamNames(f) == {"a"} == (set n: string | n in f.params);
    assert VariableCount(body) == 1;
    assert !InitOk(body[0]) && !InitsOk(body);
    CompileAcceptsExactly(f);
    assert Scoped({"a"}, body);
  }

  /** A variable named like the temporary of an earlier literal is refused though nothing in the function is
      declared twice. */
  lemma {:induction false} TemporaryNameClash(f: Function)
    requires f == Function([], [Declare("a", Some(One(Lit(1)))), Declare("_tmpIntLit", None)])
    ensures FunctionScoped(f) && InitsOk(f.body) && f.body[0].name != f.body[1].name
    ensures Compile(f) == None
  {
    var body := f.body;
    assert body[1..][1..] == [] && body[1..][0] == body[1];
    SameName(TMP_INT_LIT, 0);
    assert TMP_INT_LIT + Underscores(0) == TMP_INT_LIT;
    assert ParamNames(f) == {} == (set n: string | n in f.params);
    assert TakenByTemporary({"a"}, TMP_INT_LIT, 1, TMP_INT_LIT);
    assert {} + {"a"} == {"a"};
    assert !NoneRefused({"a"}, 1, 0, body[1..]);
    assert LiteralTemporaries(body[0]) == 1 && SumTemporaries(body[0]) == 0;
    assert Scoped({"a"}, body[1..]) && Scoped({}, body);
    assert VariableCount(body[1..]) == 1 && VariableCount(body) == 3;
    assert !NoneRefused({}, 0, 0, body);
    CompileAcceptsExactly(f);
  }
}
