/** The abstract syntax of the s-expression language (s-expression/src/expression.rs).
    Rust's `From<i64>`, `From<bool>` and `From<String>` for `Atom` are the
    constructors `Int`, `Bool` and `Var` themselves. */
module SExprExpression {
  /** The seven operators: four arithmetic, three relational. */
  datatype Operator = Add | Subtract | Multiply | Divide | Eq | Lt | Gt

  predicate IsArithmetic(op: Operator) {
    op.Add? || op.Subtract? || op.Multiply? || op.Divide?
  }

  predicate IsRelational(op: Operator) {
    op.Eq? || op.Lt? || op.Gt?
  }

  const Operators: seq<Operator> := [Add, Subtract, Multiply, Divide, Eq, Lt, Gt]

  /** `Operators` lists every operator exactly once, and each is arithmetic or
      relational but not both. */
  lemma OperatorKinds(op: Operator)
    ensures op in Operators && |Operators| == 7
    ensures forall i, j :: 0 <= i < j < |Operators| ==> Operators[i] != Operators[j]
    ensures IsArithmetic(op) != IsRelational(op)
  {
  }

  /** An integer is unbounded here; the parser only ever builds values in the
      i64 range. */
  datatype Atom = Int(i: int) | Bool(b: bool) | Var(id: string)

  /** `Let` stores its bindings unevaluated: an `Env` maps a name to an
      expression, not to a value. */
  datatype Expression =
    | Atom(atom: Atom)
    | Oper(oper: Operator, lhs: Expression, rhs: Expression)
    | If(pred: Expression, thenExp: Expression, orElse: Expression)
    | Let(env: Env, exp: Expression)

  type Env = map<string, Expression>
}
