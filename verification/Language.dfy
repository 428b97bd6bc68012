/** The part of the script language the compiler accepts so far, with its direct meaning: integer
    parameters, declarations without initialiser, with a literal or with one `+`, and returns
    (src/compiler/ast_nodes). */
module Language {
  import opened IntMath
  import opened Options
  import opened StackVariables

  datatype Operand = Lit(value: Int64) | Name(name: string)
  datatype Expr = One(operand: Operand) | Sum(left: Operand, right: Operand)
  datatype Statement = Declare(name: string, init: Option<Expr>) | Return(result: Option<Expr>)
  datatype Function = Function(params: seq<string>, body: seq<Statement>)

  /** How a call ends. */
  datatype Outcome = Returned(value: Int64) | ReturnedNothing | AdditionOverflow

  type Env = map<string, Int64>

  // ---- Scoping ----

  predicate OperandScoped(names: set<string>, o: Operand) {
    o.Name? ==> o.name in names
  }

  predicate ExprScoped(names: set<string>, e: Expr) {
    match e
    case One(o) => OperandScoped(names, o)
    case Sum(l, r) => OperandScoped(names, l) && OperandScoped(names, r)
  }

  function DeclaredBy(s: Statement): set<string> {
    if s.Declare? then {s.name} else {}
  }

  predicate StatementScoped(names: set<string>, s: Statement) {
    match s
    case Declare(_, Some(e)) => ExprScoped(names, e)
    case Return(Some(e)) => ExprScoped(names, e)
    case _ => true
  }

  /** Every name is used only after its declaration is complete. */
  predicate Scoped(names: set<string>, body: seq<Statement>)
    decreases body
  {
    body == [] || (StatementScoped(names, body[0]) && Scoped(names + DeclaredBy(body[0]), body[1..]))
  }

  // ---- Meaning ----

  function ValueOf(env: Env, o: Operand): Int64
    requires OperandScoped(env.Keys, o)
  {
    if o.Lit? then o.value else env[o.name]
  }

  /** Addition is checked: no value when the sum is no int64. */
  function Evaluate(env: Env, e: Expr): Option<Int64>
    requires ExprScoped(env.Keys, e)
  {
    match e
    case One(o) => Some(ValueOf(env, o))
    case Sum(l, r) =>
      var sum := ValueOf(env, l) + ValueOf(env, r);
      if Fits(sum) then Some(sum) else None
  }

  function ReturnOutcome(env: Env, e: Option<Expr>): Outcome
    requires StatementScoped(env.Keys, Return(e))
  {
    match e
    case None => ReturnedNothing
    case Some(x) => (match Evaluate(env, x) case None => AdditionOverflow case Some(v) => Returned(v))
  }

  /** The value a declaration gives its variable: zero without initialiser, none on overflow. */
  function InitialValue(env: Env, init: Option<Expr>): Option<Int64>
    requires StatementScoped(env.Keys, Declare("", init))
  {
    if init.None? then Some(0) else Evaluate(env, init.value)
  }

  /** Statements run in order up to the first return or overflow; a body that ends without a return
      returns nothing. */
  function Perform(env: Env, body: seq<Statement>): Outcome
    requires Scoped(env.Keys, body)
    decreases body
  {
    if body == [] then ReturnedNothing
    else
      match body[0]
      case Return(e) => ReturnOutcome(env, e)
      case Declare(x, init) =>
        (match InitialValue(env, init)
         case None => AdditionOverflow
         case Some(v) =>
           assert env[x := v].Keys == env.Keys + {x};
           Perform(env[x := v], body[1..]))
  }

  function Bind(params: seq<string>, args: seq<Int64>): (env: Env)
    requires |params| == |args|
    ensures forall n :: n in env.Keys <==> n in params
  {
    if params == [] then map[]
    else
      var n := |params| - 1;
      Bind(params[..n], args[..n])[params[n] := args[n]]
  }

  ghost predicate FunctionScoped(f: Function) {
    Distinct(f.params) && Scoped((set n | n in f.params), f.body)
  }

  function Meaning(f: Function, args: seq<Int64>): Outcome
    requires FunctionScoped(f) && |args| == |f.params|
  {
    var env := Bind(f.params, args);
    assert env.Keys == (set n | n in f.params);
    Perform(env, f.body)
  }

  /** The parser closes a body that does not end with a return by an empty one
      (src/compiler/ast_nodes/function_node.c:226-229). */
  function Complete(body: seq<Statement>): seq<Statement> {
    if body != [] && body[|body| - 1].Return? then body else body + [Return(None)]
  }

  lemma {:induction false} ScopedAppend(names: set<string>, body: seq<Statement>)
    requires Scoped(names, body)
    ensures Scoped(names, body + [Return(None)])
    decreases body
  {
    if body != [] {
      ScopedAppend(names + DeclaredBy(body[0]), body[1..]);
      assert (body + [Return(None)])[1..] == body[1..] + [Return(None)];
    }
  }

  lemma {:induction false} PerformAppend(env: Env, body: seq<Statement>)
    requires Scoped(env.Keys, body)
    ensures Scoped(env.Keys, body + [Return(None)])
    ensures Perform(env, body + [Return(None)]) == Perform(env, body)
    decreases body
  {
    ScopedAppend(env.Keys, body);
    if body != [] {
      assert (body + [Return(None)])[1..] == body[1..] + [Return(None)];
      if body[0].Declare? && InitialValue(env, body[0].init).Some? {
        var v := InitialValue(env, body[0].init).value;
        assert env[body[0].name := v].Keys == env.Keys + {body[0].name};
        PerformAppend(env[body[0].name := v], body[1..]);
      }
    }
  }

  /** The added return changes nothing. */
  lemma CompleteKeepsMeaning(env: Env, body: seq<Statement>)
    requires Scoped(env.Keys, body)
    ensures Scoped(env.Keys, Complete(body)) && Perform(env, Complete(body)) == Perform(env, body)
  {
    PerformAppend(env, body);
  }
}
