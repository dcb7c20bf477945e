/** The interpreter of s-expression/src/evaluator.rs. A variable is looked up
    in the environment of its use and its stored expression evaluated there, so
    an evaluation can run forever (`(let (x x) x)`); every lookup spends one
    unit of fuel and `OutOfFuel` stands for a run that has not finished. */
module SExprEvaluator {
  import opened RustResult
  import opened SExprExpression
  import opened SExprResult

  datatype Evaluation = Done(result: Result<Val, Error>) | OutOfFuel

  function Abs(n: int): nat {
    if n < 0 then -n else n
  }

  /** Rust's `/` on integers: the quotient rounded toward zero, so the remainder
      takes the dividend's sign. */
  function TruncDiv(a: int, b: int): (q: int)
    requires b != 0
    ensures Abs(a - q * b) < Abs(b)
    ensures a - q * b == 0 || (a - q * b < 0 <==> a < 0)
  {
    var m := Abs(a) / Abs(b);
    var q := if (a < 0) == (b < 0) then m else -m;
    TruncDivRemainder(a, b, m, Abs(a) % Abs(b), q);
    q
  }

  /** The remainder of the quotient rounded toward zero is the remainder of
      the magnitudes, with the dividend's sign. */
  lemma TruncDivRemainder(a: int, b: int, m: int, r: int, q: int)
    requires b != 0 && m == Abs(a) / Abs(b) && r == Abs(a) % Abs(b)
    requires q == if (a < 0) == (b < 0) then m else -m
    ensures 0 <= r < Abs(b) && a - q * b == if a < 0 then -r else r
  {
    var n := m * Abs(b);
    assert Abs(a) == n + r;
    if (a < 0) == (b < 0) {
      assert q * b == (if b < 0 then -n else n);
    } else {
      assert q * b == (if b < 0 then n else -n);
    }
  }

  lemma TruncDivExamples()
    ensures TruncDiv(-7, 2) == -3 && TruncDiv(7, -2) == -3 && TruncDiv(-7, -2) == 3 && TruncDiv(7, 2) == 3
  {
    assert Abs(-7) / Abs(2) == 3;
  }

  /** `eval_oper` after both operands gave integers. */
  function ApplyOper(op: Operator, x: int, y: int): (r: Result<Val, Error>)
    ensures r.Err? <==> op == Divide && y == 0
    ensures r.Err? ==> r.error == DivisionByZero
    ensures r.Ok? ==> (r.value.Int? <==> IsArithmetic(op))
  {
    match op
    case Add => Ok(Val.Int(x + y))
    case Subtract => Ok(Val.Int(x - y))
    case Multiply => Ok(Val.Int(x * y))
    case Divide => if y == 0 then Err(DivisionByZero) else Ok(Val.Int(TruncDiv(x, y)))
    case Eq => Ok(Val.Bool(x == y))
    case Lt => Ok(Val.Bool(x < y))
    case Gt => Ok(Val.Bool(x > y))
  }

  /** `evaluator::eval`: evaluation starts in the empty environment. */
  function Eval(e: Expression, fuel: nat): Evaluation {
    EvalExpression(e, map[], fuel)
  }

  /** `Expression::eval`. */
  function EvalExpression(e: Expression, env: Env, fuel: nat): Evaluation
    decreases fuel, e, 1
  {
    match e
    case Atom(a) => EvalAtom(a, env, fuel)
    case Oper(op, lhs, rhs) => EvalOper(op, env, lhs, rhs, fuel)
    case If(p, t, o) => EvalIf(env, p, t, o, fuel)
    case Let(selfEnv, body) => EvalLet(env, selfEnv, body, fuel)
  }

  /** `eval_atom`: literals are their own values; a variable's stored expression
      is evaluated in the environment of the use. */
  function EvalAtom(a: Atom, env: Env, fuel: nat): (r: Evaluation)
    ensures a.Int? ==> r == Done(Ok(Val.Int(a.i)))
    ensures a.Bool? ==> r == Done(Ok(Val.Bool(a.b)))
    ensures a.Var? && a.id !in env ==> r == Done(Err(UnboundIdentifier))
    decreases fuel, Expression.Atom(a), 0
  {
    match a
    case Int(i) => Done(Ok(Val.Int(i)))
    case Bool(b) => Done(Ok(Val.Bool(b)))
    case Var(id) =>
      if id !in env then Done(Err(UnboundIdentifier))
      else if fuel == 0 then OutOfFuel
      else EvalExpression(env[id], env, fuel - 1)
  }

  /** A bound variable evaluates as the expression it is bound to, in the
      same environment, with one unit of fuel spent on the lookup. */
  lemma VarLookup(x: string, env: Env, fuel: nat)
    requires x in env
    ensures EvalExpression(Expression.Atom(Var(x)), env, fuel)
         == if fuel == 0 then OutOfFuel else EvalExpression(env[x], env, fuel - 1)
  {
  }

  /** `eval_oper`: `lhs`, then `rhs`, each error returned as soon as it
      appears; only then are the operand types checked. */
  function EvalOper(op: Operator, env: Env, lhs: Expression, rhs: Expression, fuel: nat): Evaluation
    decreases fuel, Oper(op, lhs, rhs), 0
  {
    match EvalExpression(lhs, env, fuel)
    case OutOfFuel => OutOfFuel
    case Done(Err(x)) => Done(Err(x))
    case Done(Ok(a)) =>
      match EvalExpression(rhs, env, fuel)
      case OutOfFuel => OutOfFuel
      case Done(Err(x)) => Done(Err(x))
      case Done(Ok(b)) =>
        if a.Int? && b.Int? then Done(ApplyOper(op, a.i, b.i)) else Done(Err(TypeMismatch))
  }

  /** `eval_if`: only the chosen branch is evaluated. */
  function EvalIf(env: Env, pred: Expression, thenExp: Expression, orElse: Expression, fuel: nat): Evaluation
    decreases fuel, If(pred, thenExp, orElse), 0
  {
    match EvalExpression(pred, env, fuel)
    case OutOfFuel => OutOfFuel
    case Done(Err(x)) => Done(Err(x))
    case Done(Ok(v)) =>
      if !v.Bool? then Done(Err(TypeMismatch))
      else if v.b then EvalExpression(thenExp, env, fuel)
      else EvalExpression(orElse, env, fuel)
  }

  /** `eval_let`: a copy of the outer environment extended by the let's own
      bindings, which override outer ones of the same name. */
  function EvalLet(parentEnv: Env, selfEnv: Env, body: Expression, fuel: nat): Evaluation
    decreases fuel, Let(selfEnv, body), 0
  {
    EvalExpression(body, parentEnv + selfEnv, fuel)
  }

  // ---------------------------------------------------------------------------
  // What evaluation promises

  /** At the top level nothing is bound. */
  lemma TopLevelUnbound(x: string, fuel: nat)
    ensures Eval(Atom(Var(x)), fuel) == Done(Err(UnboundIdentifier))
  {
  }

  /** Operands are evaluated left to right and an operand's error is returned
      before any type check: an error of `lhs` is the answer whatever `rhs` is,
      and so is an error of `rhs` after any value of `lhs`. */
  lemma OperandErrorsFirst(op: Operator, lhs: Expression, rhs: Expression, env: Env, fuel: nat)
    ensures var l := EvalExpression(lhs, env, fuel);
      l.Done? && l.result.Err? ==> EvalExpression(Oper(op, lhs, rhs), env, fuel) == l
    ensures var l, r := EvalExpression(lhs, env, fuel), EvalExpression(rhs, env, fuel);
      l.Done? && l.result.Ok? && r.Done? && r.result.Err? ==> EvalExpression(Oper(op, lhs, rhs), env, fuel) == r
  {
  }

  /** Two integer operands give the operator's result; any other pair of values
      gives TypeMismatch. */
  lemma OperOperandTypes(op: Operator, lhs: Expression, rhs: Expression, env: Env, fuel: nat, a: Val, b: Val)
    requires EvalExpression(lhs, env, fuel) == Done(Ok(a)) && EvalExpression(rhs, env, fuel) == Done(Ok(b))
    ensures a.Int? && b.Int? ==> EvalExpression(Oper(op, lhs, rhs), env, fuel) == Done(ApplyOper(op, a.i, b.i))
    ensures !(a.Int? && b.Int?) ==> EvalExpression(Oper(op, lhs, rhs), env, fuel) == Done(Err(TypeMismatch))
  {
  }

  /** The arithmetic operators compute in the integers, the relational ones
      compare, and division truncates toward zero. */
  lemma ApplyOperLaw(op: Operator, x: int, y: int)
    ensures op == Add ==> ApplyOper(op, x, y) == Ok(Val.Int(x + y))
    ensures op == Subtract ==> ApplyOper(op, x, y) == Ok(Val.Int(x - y))
    ensures op == Multiply ==> ApplyOper(op, x, y) == Ok(Val.Int(x * y))
    ensures op == Divide && y != 0 ==>
      ApplyOper(op, x, y).Ok? && ApplyOper(op, x, y).value.Int? &&
      var q := ApplyOper(op, x, y).value.i; Abs(x - q * y) < Abs(y) && (x - q * y == 0 || (x - q * y < 0 <==> x < 0))
    ensures op == Eq ==> ApplyOper(op, x, y) == Ok(Val.Bool(x == y))
    ensures op == Lt ==> ApplyOper(op, x, y) == Ok(Val.Bool(x < y))
    ensures op == Gt ==> ApplyOper(op, x, y) == Ok(Val.Bool(x > y))
  {
  }

  /** `if`: a predicate that is not a boolean gives TypeMismatch; otherwise the
      value is the chosen branch's, and the other branch plays no part. */
  lemma IfLaw(p: Expression, t: Expression, o: Expression, other: Expression, env: Env, fuel: nat, v: Val)
    requires EvalExpression(p, env, fuel) == Done(Ok(v))
    ensures !v.Bool? ==> EvalExpression(If(p, t, o), env, fuel) == Done(Err(TypeMismatch))
    ensures v == Val.Bool(true) ==>
      EvalExpression(If(p, t, o), env, fuel) == EvalExpression(t, env, fuel) == EvalExpression(If(p, t, other), env, fuel)
    ensures v == Val.Bool(false) ==>
      EvalExpression(If(p, t, o), env, fuel) == EvalExpression(o, env, fuel) == EvalExpression(If(p, other, o), env, fuel)
  {
    assert EvalExpression(If(p, t, o), env, fuel) == EvalIf(env, p, t, o, fuel);
    assert EvalExpression(If(p, t, other), env, fuel) == EvalIf(env, p, t, other, fuel);
    assert EvalExpression(If(p, other, o), env, fuel) == EvalIf(env, p, other, o, fuel);
  }

  /** `let`: the body sees the let's own bindings first and the outer ones
      otherwise; with nested lets the innermost binding of a name wins. */
  lemma LetLaw(selfEnv: Env, body: Expression, env: Env, fuel: nat)
    ensures EvalExpression(Let(selfEnv, body), env, fuel) == EvalExpression(body, env + selfEnv, fuel)
    ensures forall x :: x in selfEnv ==> x in env + selfEnv && (env + selfEnv)[x] == selfEnv[x]
    ensures forall x :: x !in selfEnv && x in env ==> x in env + selfEnv && (env + selfEnv)[x] == env[x]
    ensures forall x :: x !in selfEnv && x !in env ==> x !in env + selfEnv
  {
  }

  /** `(let (x 1) (let (x 2) x))` is 2. */
  lemma ShadowingExample(fuel: nat)
    requires fuel >= 1
    ensures Eval(Let(map["x" := Atom(Atom.Int(1))], Let(map["x" := Atom(Atom.Int(2))], Atom(Var("x")))), fuel)
         == Done(Ok(Val.Int(2)))
  {
    var x := Atom(Var("x"));
    var one, two: Env := map["x" := Atom(Atom.Int(1))], map["x" := Atom(Atom.Int(2))];
    var env := map[] + one + two;
    assert env["x"] == Atom(Atom.Int(2));
    assert EvalExpression(x, env, fuel) == EvalExpression(Atom(Atom.Int(2)), env, fuel - 1);
    assert EvalExpression(Let(two, x), map[] + one, fuel) == EvalExpression(x, env, fuel);
    assert EvalExpression(Let(one, Let(two, x)), map[], fuel) == EvalExpression(Let(two, x), map[] + one, fuel);
  }

  /** A binding is evaluated where the variable is used, not where it is bound:
      in `(let (y 1) (let (x y) (let (y 2) x)))` the `y` behind `x` is 2. */
  lemma DynamicScopeExample(fuel: nat)
    requires fuel >= 2
    ensures Eval(Let(map["y" := Atom(Atom.Int(1))],
                     Let(map["x" := Atom(Var("y"))],
                         Let(map["y" := Atom(Atom.Int(2))], Atom(Var("x"))))), fuel)
         == Done(Ok(Val.Int(2)))
  {
    var x, y := Atom(Var("x")), Atom(Var("y"));
    var b1, b2, b3: Env := map["y" := Atom(Atom.Int(1))], map["x" := y], map["y" := Atom(Atom.Int(2))];
    var env := map[] + b1 + b2 + b3;
    assert env["x"] == y && env["y"] == Atom(Atom.Int(2));
    assert EvalExpression(y, env, fuel - 1) == EvalExpression(Atom(Atom.Int(2)), env, fuel - 2);
    assert EvalExpression(x, env, fuel) == EvalExpression(y, env, fuel - 1);
    assert EvalExpression(Let(b3, x), map[] + b1 + b2, fuel) == EvalExpression(x, env, fuel);
    assert EvalExpression(Let(b2, Let(b3, x)), map[] + b1, fuel) == EvalExpression(Let(b3, x), map[] + b1 + b2, fuel);
    assert EvalExpression(Let(b1, Let(b2, Let(b3, x))), map[], fuel)
        == EvalExpression(Let(b2, Let(b3, x)), map[] + b1, fuel);
  }

  lemma {:induction false} SelfBoundVariable(x: string, env: Env, fuel: nat)
    requires x in env && env[x] == Atom(Var(x))
    ensures EvalExpression(Atom(Var(x)), env, fuel) == OutOfFuel
    decreases fuel
  {
    if fuel > 0 {
      SelfBoundVariable(x, env, fuel - 1);
    }
  }

  /** `(let (x x) x)` never finishes, whatever fuel it is given. */
  lemma SelfReferenceDiverges(x: string, env: Env, fuel: nat)
    ensures EvalExpression(Let(map[x := Atom(Var(x))], Atom(Var(x))), env, fuel) == OutOfFuel
  {
    SelfBoundVariable(x, env + map[x := Atom(Var(x))], fuel);
  }

  /** A finished evaluation is the evaluation: more fuel gives the same result. */
  lemma {:induction false} FuelMonotone(e: Expression, env: Env, fuel: nat, more: nat)
    requires fuel <= more
    requires EvalExpression(e, env, fuel).Done?
    ensures EvalExpression(e, env, more) == EvalExpression(e, env, fuel)
    decreases fuel, e
  {
    match e
    case Atom(a) =>
      if a.Var? && a.id in env {
        FuelMonotone(env[a.id], env, fuel - 1, more - 1);
      }
    case Oper(op, l, r) =>
      FuelMonotone(l, env, fuel, more);
      if EvalExpression(l, env, fuel).result.Ok? {
        FuelMonotone(r, env, fuel, more);
      }
    case If(p, t, o) =>
      FuelMonotone(p, env, fuel, more);
      var v := EvalExpression(p, env, fuel).result;
      if v.Ok? && v.value.Bool? {
        if v.value.b {
          FuelMonotone(t, env, fuel, more);
        } else {
          FuelMonotone(o, env, fuel, more);
        }
      }
    case Let(b, body) =>
      FuelMonotone(body, env + b, fuel, more);
  }

  /** Evaluation raises only its own errors, never a parser error. */
  lemma {:induction false} EvalOwnErrors(e: Expression, env: Env, fuel: nat)
    ensures var r := EvalExpression(e, env, fuel);
      r.Done? && r.result.Err? ==> r.result.error in {TypeMismatch, UnboundIdentifier, DivisionByZero}
    decreases fuel, e
  {
    match e
    case Atom(a) =>
      if a.Var? && a.id in env && fuel > 0 {
        EvalOwnErrors(env[a.id], env, fuel - 1);
      }
    case Oper(op, l, r) =>
      EvalOwnErrors(l, env, fuel);
      EvalOwnErrors(r, env, fuel);
    case If(p, t, o) =>
      EvalOwnErrors(p, env, fuel);
      EvalOwnErrors(t, env, fuel);
      EvalOwnErrors(o, env, fuel);
    case Let(b, body) =>
      EvalOwnErrors(body, env + b, fuel);
  }
}
