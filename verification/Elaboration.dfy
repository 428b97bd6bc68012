/** What the parser builds (src/compiler/ast_nodes): nodes that refer to variables by index, and the list of
    all variables of the function, declared ones and temporaries, in the order in which they were met.
    `None` stands for a failed assertion of the parser. */
module Elaboration {
  import opened IntMath
  import opened Options
  import opened StackVariables
  import opened Language

  const TMP_INT_LIT: string := "_tmpIntLit"
  const TMP_BIN_EXPR_OUT: string := "_tmpBinExprOut"

  /** `ExprValue` for a single operand: a literal has a variable of its own to be loaded into. */
  datatype Atom = IntLit(literal: Int64, index: nat) | Variable(index: nat)

  datatype ExprNode = Single(atom: Atom) | BinaryExpr(output: nat, left: Atom, right: Atom)

  datatype Node = DeclarationNode(index: nat, init: ExprNode) | ReturnNode(value: Option<ExprNode>)

  /** A result together with the variables known afterwards. */
  datatype Built<T> = Built(vars: seq<string>, node: T)

  function AddTemporary(vars: seq<string>, name: string): seq<string> {
    vars + [FreshName(vars, name)]
  }

  /** `parse_expression_value` */
  function ElabOperand(vars: seq<string>, o: Operand): Option<Built<Atom>> {
    match o
    case Lit(v) => Some(Built(AddTemporary(vars, TMP_INT_LIT), IntLit(v, |vars|)))
    case Name(n) => (match Find(vars, n) case None => None case Some(i) => Some(Built(vars, Variable(i))))
  }

  /** The variable that receives the sum: the given destination or a new temporary. */
  function ElabOutput(vars: seq<string>, destination: Option<nat>): Built<nat> {
    match destination
    case Some(d) => Built(vars, d)
    case None => Built(AddTemporary(vars, TMP_BIN_EXPR_OUT), |vars|)
  }

  /** `cubs_parse_expression` */
  function ElabExpr(vars: seq<string>, e: Expr, destination: Option<nat>): Option<Built<ExprNode>> {
    match e
    case One(o) =>
      (match ElabOperand(vars, o)
       case None => None
       case Some(a) => Some(Built(a.vars, Single(a.node))))
    case Sum(l, r) =>
      (match ElabOperand(vars, l)
       case None => None
       case Some(left) =>
         var out := ElabOutput(left.vars, destination);
         match ElabOperand(out.vars, r)
         case None => None
         case Some(right) => Some(Built(right.vars, BinaryExpr(out.node, left.node, right.node))))
  }

  /** `cubs_variable_declaration_node_init` and `cubs_return_node_init` */
  function ElabStatement(vars: seq<string>, s: Statement): Option<Built<Node>> {
    match s
    case Declare(x, init) =>
      if x in vars then None
      else (match init
            case None => Some(Built(vars + [x], DeclarationNode(|vars|, Single(IntLit(0, 0)))))
            case Some(e) =>
              (match ElabExpr(vars + [x], e, Some(|vars|))
               case None => None
               case Some(b) => Some(Built(b.vars, DeclarationNode(|vars|, b.node)))))
    case Return(None) => Some(Built(vars, ReturnNode(None)))
    case Return(Some(e)) =>
      (match ElabExpr(vars, e, None)
       case None => None
       case Some(b) => Some(Built(b.vars, ReturnNode(Some(b.node)))))
  }

  function ElabBody(vars: seq<string>, body: seq<Statement>): Option<Built<seq<Node>>>
    decreases body
  {
    if body == [] then Some(Built(vars, []))
    else
      match ElabStatement(vars, body[0])
      case None => None
      case Some(first) =>
        match ElabBody(first.vars, body[1..])
        case None => None
        case Some(rest) => Some(Built(rest.vars, [first.node] + rest.node))
  }

  /** `parse_function_args` does not look at what the push says, so a repeated name is dropped. */
  function ElabParams(vars: seq<string>, params: seq<string>): seq<string>
    decreases params
  {
    if params == [] then vars
    else ElabParams(if params[0] in vars then vars else vars + [params[0]], params[1..])
  }

  /** `cubs_function_node_init` */
  function ElabFunction(f: Function): Option<Built<seq<Node>>> {
    ElabBody(ElabParams([], f.params), Complete(f.body))
  }

  lemma {:induction false} ElabDistinctParams(vars: seq<string>, params: seq<string>)
    requires Distinct(vars + params)
    ensures ElabParams(vars, params) == vars + params
    decreases params
  {
    if params == [] {
      assert vars + params == vars;
    } else {
      assert (vars + params)[|vars|] == params[0];
      forall i | 0 <= i < |vars| ensures vars[i] != params[0] {
        assert (vars + params)[i] == vars[i];
      }
      assert vars + [params[0]] + params[1..] == vars + params;
      ElabDistinctParams(vars + [params[0]], params[1..]);
    }
  }
}
