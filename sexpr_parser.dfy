/** The concrete grammar of s-expression/src/parser.rs, built from the engine's
    parsers. Each call of `exp()` inside a `flat_map` closure, which builds the
    expression parser afresh, is the grammar-rule reference `Ref(ExpRule)`. */
module SExprParser {
  import opened RustResult
  import opened Numerals
  import opened ParsecResult
  import opened ParsecSemantics
  import opened ParsecLaws
  import Consumers = ParsecConsumers
  import opened SExprParserExt
  import opened SExprExpression

  // ---------------------------------------------------------------------------
  // Values the grammar builds

  /** The values of the grammar's own parsers: an atom, an expression, an
      operator, or the environment a `let` collects. */
  datatype Syntax =
    | AtomSyntax(atom: Atom)
    | ExpSyntax(exp: Expression)
    | OpSyntax(op: Operator)
    | EnvSyntax(env: Env)

  function ExpValue(e: Expression): Value<Syntax> {
    Custom(ExpSyntax(e))
  }

  /** The expression a sub-parser produced. Every parser below hands its
      mappers values of the expected shape; another shape reads as `0`. */
  function ExpOf(v: Value<Syntax>): Expression {
    if v.Custom? && v.u.ExpSyntax? then v.u.exp else Expression.Atom(Atom.Int(0))
  }

  function OperOf(v: Value<Syntax>): Operator {
    if v.Custom? && v.u.OpSyntax? then v.u.op else Add
  }

  function EnvValueOf(v: Value<Syntax>): Env {
    if v.Custom? && v.u.EnvSyntax? then v.u.env else map[]
  }

  // ---------------------------------------------------------------------------
  // The grammar

  /** The only grammar rule a `Ref` calls: `exp()`. */
  const ExpRule: nat := 0

  function Rules(): Grammar<Syntax> {
    (k: nat) => Exp()
  }

  /** What a recursive `exp().map_box()` stands for. */
  function SubExp(): Parser<Syntax> {
    MapBox(Ref(ExpRule))
  }

  /** `l.or(r).or(...)`: the alternatives of a choice, in order. */
  function Alternatives(ps: seq<Parser<Syntax>>): Parser<Syntax>
    requires |ps| >= 1
  {
    if |ps| == 1 then ps[0] else Or(Alternatives(ps[..|ps| - 1]), ps[|ps| - 1])
  }

  /** `exp()`: let, if, operator and atom forms in that order, else
      "syntax error"; all with optional white space around. */
  function Exp(): Parser<Syntax> {
    TrimWhitespaces(Alternatives(ExpForms()))
  }

  function ExpForms(): seq<Parser<Syntax>> {
    [LetExp(), IfExp(), OperExp(), AtomExp(), Fail(() => "syntax error")]
  }

  // Atom

  function IntAtom(v: Value<Syntax>): Value<Syntax> {
    if v.Num? then Custom(AtomSyntax(Atom.Int(v.n))) else v
  }

  function BoolAtom(v: Value<Syntax>): Value<Syntax> {
    if v.Flag? then Custom(AtomSyntax(Atom.Bool(v.b))) else v
  }

  function VarAtom(v: Value<Syntax>): Value<Syntax> {
    if v.Text? then Custom(AtomSyntax(Var(v.s))) else v
  }

  function AtomExpression(v: Value<Syntax>): Value<Syntax> {
    if v.Custom? && v.u.AtomSyntax? then ExpValue(Expression.Atom(v.u.atom)) else v
  }

  /** `number().map(Atom::Int).or(bool().map(Atom::Bool)).or(identifier().map(Atom::Var))`. */
  function AtomToken(): Parser<Syntax> {
    Or(Or(Map(Consumers.Number(), IntAtom), Map(Consumers.Bool(), BoolAtom)), Map(Consumers.Identifier(), VarAtom))
  }

  function AtomExp(): Parser<Syntax> {
    Or(TrimWhitespaces(Map(AtomToken(), AtomExpression)), Fail(() => "atom expression syntax error"))
  }

  // Operator

  /** The character `oper()` reads for each operator. */
  function Symbol(op: Operator): char {
    match op
    case Add => '+'
    case Subtract => '-'
    case Multiply => '*'
    case Divide => '/'
    case Eq => '='
    case Lt => '<'
    case Gt => '>'
  }

  /** The closure of `oper()`'s `and_then`. */
  function OperatorOf(c: char): (r: Result<Operator, string>)
    ensures r.Ok? ==> Symbol(r.value) == c
    ensures r.Err? ==> r.error == "expect operator" && forall op: Operator :: Symbol(op) != c
  {
    match c
    case '+' => Ok(Add)
    case '-' => Ok(Subtract)
    case '*' => Ok(Multiply)
    case '/' => Ok(Divide)
    case '=' => Ok(Eq)
    case '<' => Ok(Lt)
    case '>' => Ok(Gt)
    case _ => Err("expect operator")
  }

  function ReadOperator(v: Value<Syntax>): Result<Value<Syntax>, string> {
    if v.Chr? then
      match OperatorOf(v.c)
      case Ok(op) => Ok(Custom(OpSyntax(op)))
      case Err(m) => Err(m)
    else Err("expect operator")
  }

  function OperatorToken(): Parser<Syntax> {
    AndThen(AnyChar, ReadOperator)
  }

  function MkOper(v: Value<Syntax>, w: Value<Syntax>): Value<Syntax> {
    ExpValue(Oper(OperOf(v), ExpOf(First(w)), ExpOf(Second(w))))
  }

  /** The `flat_map` closure of `oper_exp()`: two sub-expressions. */
  function OperBody(v: Value<Syntax>): Parser<Syntax> {
    Map(Pair(SubExp(), SubExp()), (w: Value<Syntax>) => MkOper(v, w))
  }

  /** An operator and its operands, between the parentheses. */
  function OperCore(): Parser<Syntax> {
    FlatMap(OperatorToken(), OperBody)
  }

  function OperExp(): Parser<Syntax> {
    Or(InParentheses(OperCore()), Fail(() => "operator expression syntax error"))
  }

  // If

  function MkIf(v: Value<Syntax>): Value<Syntax> {
    ExpValue(If(ExpOf(First(First(v))), ExpOf(Second(First(v))), ExpOf(Second(v))))
  }

  function IfBody(): Parser<Syntax> {
    Pair(Pair(SubExp(), SubExp()), SubExp())
  }

  function IfCore(): Parser<Syntax> {
    Map(FlatMap(Str("if"), (_: Value<Syntax>) => IfBody()), MkIf)
  }

  function IfExp(): Parser<Syntax> {
    Or(InParentheses(IfCore()), Fail(() => "if expression syntax error"))
  }

  // Let

  /** A binding's value: the identifier's text with the bound expression. */
  predicate IsBinding(v: Value<Syntax>) {
    v.Tuple? && v.fst.Text?
  }

  /** `collect::<Env>()`: the bindings inserted in order, so that a later
      binding of a name replaces an earlier one. */
  function EnvOf(items: seq<Value<Syntax>>): (env: Env)
    ensures forall k :: k in env <==> exists i :: 0 <= i < |items| && Names(items[i], k)
  {
    if items == [] then map[]
    else
      var m, b := EnvOf(items[..|items| - 1]), items[|items| - 1];
      assert forall i :: 0 <= i < |items| - 1 ==> items[..|items| - 1][i] == items[i];
      if IsBinding(b) then m[b.fst.s := ExpOf(b.snd)] else m
  }

  predicate Names(v: Value<Syntax>, k: string) {
    IsBinding(v) && v.fst.s == k
  }

  function CollectEnv(v: Value<Syntax>): Value<Syntax> {
    Custom(EnvSyntax(EnvOf(if v.List? then v.items else [])))
  }

  function MkLet(v: Value<Syntax>): Value<Syntax> {
    ExpValue(Let(EnvValueOf(First(v)), ExpOf(Second(v))))
  }

  /** `binding()`: `(identifier exp)`. */
  function BindingCore(): Parser<Syntax> {
    Pair(Consumers.Identifier(), SubExp())
  }

  function Binding(): Parser<Syntax> {
    Or(InParentheses(BindingCore()), Fail(() => "expect binding"))
  }

  function LetBody(): Parser<Syntax> {
    Pair(Map(Many(Binding()), CollectEnv), SubExp())
  }

  function LetCore(): Parser<Syntax> {
    Map(FlatMap(Str("let"), (_: Value<Syntax>) => LetBody()), MkLet)
  }

  function LetExp(): Parser<Syntax> {
    Or(InParentheses(LetCore()), Fail(() => "let expression syntax error"))
  }

  // ---------------------------------------------------------------------------
  // parse

  /** The result of `parse`; `Unfinished` when the fuel runs out first. */
  datatype ParseOutcome = Parsed(exp: Expression) | Rejected(error: Error) | Unfinished

  /** `parse`: `exp()` from offset 0 of a fresh context. Text after the
      expression is not looked at. */
  function Parse(input: seq<char>, fuel: nat): ParseOutcome {
    var s := Run(Rules(), Exp(), input, 0, fuel);
    match s.reply
    case Success(v) => Parsed(ExpOf(v))
    case Failure(e) => Rejected(e)
    case Diverged => Unfinished
  }

  // ---------------------------------------------------------------------------
  // Laws: bindings

  /** A later binding of a name is the one the environment keeps. */
  lemma {:induction false} EnvOfLastWins(items: seq<Value<Syntax>>, i: nat, k: string)
    requires i < |items| && Names(items[i], k)
    requires forall j :: i < j < |items| ==> !Names(items[j], k)
    ensures k in EnvOf(items) && EnvOf(items)[k] == ExpOf(items[i].snd)
  {
    var n := |items|;
    var pre, last := items[..n - 1], items[n - 1];
    var m := EnvOf(pre);
    assert EnvOf(items) == if IsBinding(last) then m[last.fst.s := ExpOf(last.snd)] else m;
    if i < n - 1 {
      assert pre[i] == items[i];
      forall j | i < j < |pre| ensures !Names(pre[j], k) {
        assert pre[j] == items[j];
      }
      EnvOfLastWins(pre, i, k);
      assert !Names(last, k);
    }
  }

  // ---------------------------------------------------------------------------
  // Laws: choice

  /** The error `or` keeps of two: the further one, ties going right. */
  function Further(le: Error, re: Error): (e: Error)
    ensures e == le || e == re
    ensures e.pos >= le.pos && e.pos >= re.pos
    ensures le.pos == re.pos ==> e == re
  {
    if le.pos > re.pos then le else re
  }

  /** What a chain of `or` makes of its alternatives' steps from `pos`. */
  function Choice<U>(steps: seq<Step<U>>, pos: nat): (s: Step<U>)
    requires |steps| >= 1
    ensures s in steps || s.pos == pos
  {
    if |steps| == 1 then steps[0]
    else
      var a, b := Choice(steps[..|steps| - 1], pos), steps[|steps| - 1];
      if !a.reply.Failure? then a
      else if !b.reply.Failure? then b
      else Step(Failure(Further(a.reply.error, b.reply.error)), pos)
  }

  /** The first alternative that does not fail decides the choice. */
  lemma {:induction false} ChoiceFirstSuccess<U>(steps: seq<Step<U>>, pos: nat, i: nat)
    requires i < |steps| && !steps[i].reply.Failure?
    requires forall j :: 0 <= j < i ==> steps[j].reply.Failure?
    ensures Choice(steps, pos) == steps[i]
  {
    var n := |steps|;
    if n > 1 {
      var pre := steps[..n - 1];
      if i < n - 1 {
        assert pre[i] == steps[i];
        forall j | 0 <= j < i ensures pre[j].reply.Failure? {
          assert pre[j] == steps[j];
        }
        ChoiceFirstSuccess(pre, pos, i);
      } else {
        forall j | 0 <= j < |pre| ensures pre[j].reply.Failure? {
          assert pre[j] == steps[j];
        }
        ChoiceAllFail(pre, pos);
        assert Choice(pre, pos).reply.Failure?;
      }
    }
  }

  predicate AllFail<U>(steps: seq<Step<U>>) {
    forall j :: 0 <= j < |steps| ==> steps[j].reply.Failure?
  }

  /** The last of the failures whose error is furthest. */
  function LastFurthest<U>(steps: seq<Step<U>>): (i: nat)
    requires |steps| >= 1 && AllFail(steps)
    ensures i < |steps|
    ensures forall j :: 0 <= j < |steps| ==> steps[j].reply.error.pos <= steps[i].reply.error.pos
    ensures forall j :: i < j < |steps| ==> steps[j].reply.error.pos < steps[i].reply.error.pos
  {
    var n := |steps|;
    if n == 1 then 0
    else
      var pre := steps[..n - 1];
      assert forall j :: 0 <= j < n - 1 ==> pre[j] == steps[j];
      var k := LastFurthest(pre);
      if steps[k].reply.error.pos > steps[n - 1].reply.error.pos then k else n - 1
  }

  /** When every alternative fails, the choice fails with the error of the
      last alternative among those whose error is furthest. */
  lemma {:induction false} ChoiceAllFail<U>(steps: seq<Step<U>>, pos: nat)
    requires |steps| >= 1 && AllFail(steps)
    ensures Choice(steps, pos).reply == steps[LastFurthest(steps)].reply
    ensures |steps| > 1 ==> Choice(steps, pos).pos == pos
  {
    var n := |steps|;
    if n > 1 {
      var pre := steps[..n - 1];
      assert forall j :: 0 <= j < n - 1 ==> pre[j] == steps[j];
      ChoiceAllFail(pre, pos);
    }
  }

  /** The steps of all alternatives, each run from `pos`. */
  ghost function Runs<U>(g: Grammar<U>, ps: seq<Parser<U>>, input: seq<char>, pos: nat, fuel: nat): (r: seq<Step<U>>)
    requires pos <= |input|
    ensures |r| == |ps| && forall i :: 0 <= i < |ps| ==> r[i] == Run(g, ps[i], input, pos, fuel)
  {
    seq(|ps|, i requires 0 <= i < |ps| => Run(g, ps[i], input, pos, fuel))
  }

  /** A chain of `or` is the `Choice` of its alternatives, each tried from
      the same offset. */
  lemma {:induction false} ChoiceLaw(g: Grammar<Syntax>, ps: seq<Parser<Syntax>>, input: seq<char>, pos: nat, fuel: nat)
    requires |ps| >= 1 && pos <= |input|
    ensures Run(g, Alternatives(ps), input, pos, fuel) == Choice(Runs(g, ps, input, pos, fuel), pos)
  {
    var n := |ps|;
    if n > 1 {
      var pre := ps[..n - 1];
      ChoiceLaw(g, pre, input, pos, fuel);
      assert Runs(g, ps, input, pos, fuel)[..n - 1] == Runs(g, pre, input, pos, fuel);
      OrLaw(g, Alternatives(pre), ps[n - 1], input, pos, fuel);
    }
  }

  // ---------------------------------------------------------------------------
  // Laws: sub-expressions

  /** A sub-expression `exp().map_box()` with `fuel` calls `exp()` with one
      unit less. */
  ghost function SubStep(input: seq<char>, pos: nat, fuel: nat): (s: Step<Syntax>)
    requires pos <= |input|
    ensures pos <= s.pos <= |input|
  {
    if fuel == 0 then Step(Diverged, pos) else Run(Rules(), Exp(), input, pos, fuel - 1)
  }

  lemma SubExpLaw(input: seq<char>, pos: nat, fuel: nat)
    requires pos <= |input|
    ensures Run(Rules(), SubExp(), input, pos, fuel) == SubStep(input, pos, fuel)
  {
    RefLaw(Rules(), ExpRule, input, pos, fuel);
    MapLaw(Rules(), Ref(ExpRule), (v: Value<Syntax>) => v, input, pos, fuel);
    AnyLaw(Rules(), Map(Ref(ExpRule), (v: Value<Syntax>) => v), input, pos, fuel);
  }

  // ---------------------------------------------------------------------------
  // Laws: operators

  /** `oper()` reads back every operator's character. */
  lemma OperatorSymbols(op: Operator)
    ensures OperatorOf(Symbol(op)) == Ok(op)
  {
  }

  /** `oper()`: one character, read as an operator; another character fails
      with "expect operator" past it, the end of input with "end of stream". */
  lemma OperatorTokenLaw(g: Grammar<Syntax>, input: seq<char>, pos: nat, fuel: nat)
    requires pos <= |input|
    ensures pos < |input| && OperatorOf(input[pos]).Ok? ==>
      Run(g, OperatorToken(), input, pos, fuel) == Step(Success(Custom(OpSyntax(OperatorOf(input[pos]).value))), pos + 1)
    ensures pos < |input| && OperatorOf(input[pos]).Err? ==>
      Run(g, OperatorToken(), input, pos, fuel) == Step(Failure(Error(pos + 1, "expect operator")), pos)
    ensures pos == |input| ==>
      Run(g, OperatorToken(), input, pos, fuel) == Step(Failure(Eos(pos)), pos)
  {
    AnyCharLaw(g, input, pos, fuel);
    AndThenLaw(g, AnyChar, ReadOperator, input, pos, fuel);
  }

  // ---------------------------------------------------------------------------
  // Laws: the forms between parentheses

  /** `p.in_parentheses().or(fail(m))`: the bracketed parse, or, when it fails
      no further than where it started, the form's own message. */
  ghost function FormStep(g: Grammar<Syntax>, p: Parser<Syntax>, msg: string, input: seq<char>, pos: nat, fuel: nat): Step<Syntax>
    requires pos <= |input|
  {
    var s := BracketStep(g, p, WsEnd(input), input, SkipWhitespace(input, pos), fuel, pos, true);
    if !s.reply.Failure? then s else Step(Failure(Further(s.reply.error, Error(pos, msg))), pos)
  }

  lemma FormLaw(g: Grammar<Syntax>, p: Parser<Syntax>, m: () -> string, input: seq<char>, pos: nat, fuel: nat)
    requires pos <= |input|
    ensures Run(g, Or(InParentheses(p), Fail(m)), input, pos, fuel) == FormStep(g, p, m(), input, pos, fuel)
  {
    InParenthesesLaw(g, p, input, pos, fuel);
    OrLaw(g, InParentheses(p), Fail(m), input, pos, fuel);
  }

  /** The operator form: an operator, then two sub-expressions. */
  lemma OperCoreLaw(input: seq<char>, b: nat, fuel: nat, op: Operator, l: Expression, r: Expression, c: nat, d: nat)
    requires b < |input| && OperatorOf(input[b]) == Ok(op) && fuel >= 1
    requires SubStep(input, b + 1, fuel - 1) == Step(Success(ExpValue(l)), c)
    requires SubStep(input, c, fuel - 1) == Step(Success(ExpValue(r)), d)
    ensures Run(Rules(), OperCore(), input, b, fuel) == Step(Success(ExpValue(Oper(op, l, r))), d)
  {
    var v := Custom(OpSyntax(op));
    OperatorTokenLaw(Rules(), input, b, fuel);
    assert Run(Rules(), OperatorToken(), input, b, fuel) == Step(Success(v), b + 1);
    OperBodyLaw(input, b + 1, fuel - 1, v, l, r, c, d);
    FlatMapSucceeds(Rules(), OperatorToken(), OperBody, input, b, fuel, v, b + 1, ExpValue(Oper(op, l, r)), d);
  }

  lemma OperBodyLaw(input: seq<char>, b: nat, fuel: nat, v: Value<Syntax>, l: Expression, r: Expression, c: nat, d: nat)
    requires b <= |input| && v.Custom? && v.u.OpSyntax?
    requires SubStep(input, b, fuel) == Step(Success(ExpValue(l)), c)
    requires SubStep(input, c, fuel) == Step(Success(ExpValue(r)), d)
    ensures Run(Rules(), OperBody(v), input, b, fuel) == Step(Success(ExpValue(Oper(v.u.op, l, r))), d)
  {
    SubExpLaw(input, b, fuel);
    SubExpLaw(input, c, fuel);
    PairSucceeds(Rules(), SubExp(), SubExp(), input, b, fuel, ExpValue(l), c, ExpValue(r), d);
    MapSucceeds(Rules(), Pair(SubExp(), SubExp()), (w: Value<Syntax>) => MkOper(v, w), input, b, fuel,
                Tuple(ExpValue(l), ExpValue(r)), d);
  }

  /** Without an operator character the operator form fails past it. */
  lemma OperCoreNoOperator(input: seq<char>, b: nat, fuel: nat)
    requires b <= |input|
    requires b == |input| || OperatorOf(input[b]).Err?
    ensures Run(Rules(), OperCore(), input, b, fuel).reply.Failure?
    ensures b < |input| ==> Run(Rules(), OperCore(), input, b, fuel).reply == Failure(Error(b + 1, "expect operator"))
  {
    OperatorTokenLaw(Rules(), input, b, fuel);
    FlatMapLaw(Rules(), OperatorToken(), OperBody, input, b, fuel);
  }

  /** The if form: the word `if`, then three sub-expressions: predicate,
      then-branch and else-branch. */
  lemma IfCoreLaw(input: seq<char>, b: nat, fuel: nat, p: Expression, t: Expression, e: Expression,
                  c1: nat, c2: nat, c3: nat)
    requires b <= |input| && StartsWith(input, b, "if") && fuel >= 1
    requires SubStep(input, b + 2, fuel - 1) == Step(Success(ExpValue(p)), c1)
    requires SubStep(input, c1, fuel - 1) == Step(Success(ExpValue(t)), c2)
    requires SubStep(input, c2, fuel - 1) == Step(Success(ExpValue(e)), c3)
    ensures Run(Rules(), IfCore(), input, b, fuel) == Step(Success(ExpValue(If(p, t, e))), c3)
  {
    var k := (_: Value<Syntax>) => IfBody();
    var x := Tuple(Tuple(ExpValue(p), ExpValue(t)), ExpValue(e));
    StringLaw(Rules(), "if", input, b, fuel);
    assert Run(Rules(), Str("if"), input, b, fuel) == Step(Success(Text("if")), b + 2);
    IfBodyLaw(input, b + 2, fuel - 1, p, t, e, c1, c2, c3);
    FlatMapSucceeds(Rules(), Str("if"), k, input, b, fuel, Text("if"), b + 2, x, c3);
    MapSucceeds(Rules(), FlatMap(Str("if"), k), MkIf, input, b, fuel, x, c3);
  }

  lemma IfBodyLaw(input: seq<char>, b: nat, fuel: nat, p: Expression, t: Expression, e: Expression,
                  c1: nat, c2: nat, c3: nat)
    requires b <= |input|
    requires SubStep(input, b, fuel) == Step(Success(ExpValue(p)), c1)
    requires SubStep(input, c1, fuel) == Step(Success(ExpValue(t)), c2)
    requires SubStep(input, c2, fuel) == Step(Success(ExpValue(e)), c3)
    ensures Run(Rules(), IfBody(), input, b, fuel) == Step(Success(Tuple(Tuple(ExpValue(p), ExpValue(t)), ExpValue(e))), c3)
  {
    var pt := Tuple(ExpValue(p), ExpValue(t));
    SubExpLaw(input, b, fuel);
    SubExpLaw(input, c1, fuel);
    SubExpLaw(input, c2, fuel);
    PairSucceeds(Rules(), SubExp(), SubExp(), input, b, fuel, ExpValue(p), c1, ExpValue(t), c2);
    PairSucceeds(Rules(), Pair(SubExp(), SubExp()), SubExp(), input, b, fuel, pt, c2, ExpValue(e), c3);
  }

  /** A binding: an identifier, then a sub-expression. */
  lemma BindingCoreLaw(input: seq<char>, b: nat, fuel: nat, x: Expression, d: nat)
    requires b < |input| && Consumers.IsIdentifierStart(input[b])
    requires SubStep(input, Consumers.SpanEnd(input, b + 1, Consumers.IsIdentifierChar), fuel) == Step(Success(ExpValue(x)), d)
    ensures var f := Consumers.SpanEnd(input, b + 1, Consumers.IsIdentifierChar);
      Run(Rules(), BindingCore(), input, b, fuel) == Step(Success(Tuple(Text(input[b..f]), ExpValue(x))), d)
  {
    var f := Consumers.SpanEnd(input, b + 1, Consumers.IsIdentifierChar);
    Consumers.IdentifierLaw(Rules(), input, b, fuel);
    SubExpLaw(input, f, fuel);
    PairLaw(Rules(), Consumers.Identifier(), SubExp(), input, b, fuel);
  }

  /** The let form: the word `let`, the bindings `many` collects, then the
      body; the bindings become the environment, a later one of a name
      replacing an earlier one. */
  lemma LetCoreLaw(input: seq<char>, b: nat, fuel: nat, vs: seq<Value<Syntax>>, m: nat, body: Expression, d: nat)
    requires b <= |input| && StartsWith(input, b, "let") && fuel >= 1
    requires Run(Rules(), Many(Binding()), input, b + 3, fuel - 1) == Step(Success(List(vs)), m)
    requires SubStep(input, m, fuel - 1) == Step(Success(ExpValue(body)), d)
    ensures Run(Rules(), LetCore(), input, b, fuel) == Step(Success(ExpValue(Let(EnvOf(vs), body))), d)
  {
    var k := (_: Value<Syntax>) => LetBody();
    var x := Tuple(Custom(EnvSyntax(EnvOf(vs))), ExpValue(body));
    StringLaw(Rules(), "let", input, b, fuel);
    assert Run(Rules(), Str("let"), input, b, fuel) == Step(Success(Text("let")), b + 3);
    LetBodyLaw(input, b + 3, fuel - 1, vs, m, body, d);
    FlatMapSucceeds(Rules(), Str("let"), k, input, b, fuel, Text("let"), b + 3, x, d);
    MapSucceeds(Rules(), FlatMap(Str("let"), k), MkLet, input, b, fuel, x, d);
  }

  lemma LetBodyLaw(input: seq<char>, b: nat, fuel: nat, vs: seq<Value<Syntax>>, m: nat, body: Expression, d: nat)
    requires b <= |input|
    requires Run(Rules(), Many(Binding()), input, b, fuel) == Step(Success(List(vs)), m)
    requires SubStep(input, m, fuel) == Step(Success(ExpValue(body)), d)
    ensures Run(Rules(), LetBody(), input, b, fuel) == Step(Success(Tuple(Custom(EnvSyntax(EnvOf(vs))), ExpValue(body))), d)
  {
    SubExpLaw(input, m, fuel);
    MapSucceeds(Rules(), Many(Binding()), CollectEnv, input, b, fuel, List(vs), m);
    PairSucceeds(Rules(), Map(Many(Binding()), CollectEnv), SubExp(), input, b, fuel,
                 Custom(EnvSyntax(EnvOf(vs))), m, ExpValue(body), d);
  }

  // ---------------------------------------------------------------------------
  // Laws: atoms

  function AtomValue(a: Atom): Value<Syntax> {
    ExpValue(Expression.Atom(a))
  }

  /** What the atom alternatives make of the input at `a`: a number if there
      are digits that fit an i64, else `true` or `false` if the input
      continues so, else an identifier; otherwise the furthest of the three
      errors, ties going to the later one. */
  ghost function AtomTokenStep(input: seq<char>, a: nat): (s: Step<Syntax>)
    requires a <= |input|
    ensures a <= s.pos <= |input|
    ensures s.reply.Failure? ==> s.pos == a
  {
    var e := Consumers.SpanEnd(input, a, IsDigit);
    var d := input[a..e];
    if d != [] && DigitsValue(d) <= MaxI64 then Step(Success(AtomValue(Atom.Int(DigitsValue(d)))), e)
    else if StartsWith(input, a, "true") then Step(Success(AtomValue(Atom.Bool(true))), a + 4)
    else if StartsWith(input, a, "false") then Step(Success(AtomValue(Atom.Bool(false))), a + 5)
    else if a < |input| && Consumers.IsIdentifierStart(input[a]) then
      var f := Consumers.SpanEnd(input, a + 1, Consumers.IsIdentifierChar);
      Step(Success(AtomValue(Var(input[a..f]))), f)
    else
      var numberError := Error(if d == [] then a else e, "expect number");
      var boolError := Error(a, "expect bool");
      var identifierError := Error(if a < |input| then a + 1 else a, "expect identifier");
      Step(Failure(Further(Further(numberError, boolError), identifierError)), a)
  }

  lemma NumberAtom(g: Grammar<Syntax>, input: seq<char>, a: nat, fuel: nat)
    requires a <= |input|
    ensures var e := Consumers.SpanEnd(input, a, IsDigit); var d := input[a..e];
      var s := Run(g, Map(Consumers.Number(), IntAtom), input, a, fuel);
      (d != [] && DigitsValue(d) <= MaxI64 ==> s == Step(Success(Custom(AtomSyntax(Atom.Int(DigitsValue(d))))), e)) &&
      (!(d != [] && DigitsValue(d) <= MaxI64) ==> s == Step(Failure(Error(if d == [] then a else e, "expect number")), a))
  {
    Consumers.NumberLaw(g, input, a, fuel);
    MapLaw(g, Consumers.Number(), IntAtom, input, a, fuel);
  }

  lemma BoolAtomLaw(g: Grammar<Syntax>, input: seq<char>, a: nat, fuel: nat)
    requires a <= |input|
    ensures var s := Run(g, Map(Consumers.Bool(), BoolAtom), input, a, fuel);
      (StartsWith(input, a, "true") ==> s == Step(Success(Custom(AtomSyntax(Atom.Bool(true)))), a + 4)) &&
      (!StartsWith(input, a, "true") && StartsWith(input, a, "false") ==>
         s == Step(Success(Custom(AtomSyntax(Atom.Bool(false)))), a + 5)) &&
      (!StartsWith(input, a, "true") && !StartsWith(input, a, "false") ==>
         s == Step(Failure(Error(a, "expect bool")), a))
  {
    Consumers.BoolLaw(g, input, a, fuel);
    MapLaw(g, Consumers.Bool(), BoolAtom, input, a, fuel);
  }

  lemma VarAtomLaw(g: Grammar<Syntax>, input: seq<char>, a: nat, fuel: nat)
    requires a <= |input|
    ensures var s := Run(g, Map(Consumers.Identifier(), VarAtom), input, a, fuel);
      (a < |input| && Consumers.IsIdentifierStart(input[a]) ==>
         var f := Consumers.SpanEnd(input, a + 1, Consumers.IsIdentifierChar);
         s == Step(Success(Custom(AtomSyntax(Var(input[a..f])))), f)) &&
      (!(a < |input| && Consumers.IsIdentifierStart(input[a])) ==>
         s == Step(Failure(Error(if a < |input| then a + 1 else a, "expect identifier")), a))
  {
    Consumers.IdentifierLaw(g, input, a, fuel);
    MapLaw(g, Consumers.Identifier(), VarAtom, input, a, fuel);
  }

  /** A number that fits an i64 is the atom. */
  lemma AtomTokenNumber(g: Grammar<Syntax>, input: seq<char>, a: nat, fuel: nat)
    requires a <= |input|
    requires var d := input[a..Consumers.SpanEnd(input, a, IsDigit)]; d != [] && DigitsValue(d) <= MaxI64
    ensures Run(g, Map(AtomToken(), AtomExpression), input, a, fuel) == AtomTokenStep(input, a)
  {
    var n := Map(Consumers.Number<Syntax>(), IntAtom);
    var b := Map(Consumers.Bool<Syntax>(), BoolAtom);
    NumberAtom(g, input, a, fuel);
    OrLeftStands(g, n, b, input, a, fuel);
    OrLeftStands(g, Or(n, b), Map(Consumers.Identifier<Syntax>(), VarAtom), input, a, fuel);
    MapLaw(g, AtomToken(), AtomExpression, input, a, fuel);
  }

  /** Failing the number, `true` or `false` is the atom. */
  lemma AtomTokenBool(g: Grammar<Syntax>, input: seq<char>, a: nat, fuel: nat)
    requires a <= |input|
    requires var d := input[a..Consumers.SpanEnd(input, a, IsDigit)]; !(d != [] && DigitsValue(d) <= MaxI64)
    requires StartsWith(input, a, "true") || StartsWith(input, a, "false")
    ensures Run(g, Map(AtomToken(), AtomExpression), input, a, fuel) == AtomTokenStep(input, a)
  {
    var n := Map(Consumers.Number<Syntax>(), IntAtom);
    var b := Map(Consumers.Bool<Syntax>(), BoolAtom);
    NumberAtom(g, input, a, fuel);
    BoolAtomLaw(g, input, a, fuel);
    OrRightStands(g, n, b, input, a, fuel);
    OrLeftStands(g, Or(n, b), Map(Consumers.Identifier<Syntax>(), VarAtom), input, a, fuel);
    MapLaw(g, AtomToken(), AtomExpression, input, a, fuel);
  }

  /** Number and bool both fail there. */
  lemma AtomTokenNoLiteral(g: Grammar<Syntax>, input: seq<char>, a: nat, fuel: nat)
    requires a <= |input|
    requires var d := input[a..Consumers.SpanEnd(input, a, IsDigit)]; !(d != [] && DigitsValue(d) <= MaxI64)
    requires !StartsWith(input, a, "true") && !StartsWith(input, a, "false")
    ensures var e := Consumers.SpanEnd(input, a, IsDigit);
      Run(g, Or(Map(Consumers.Number(), IntAtom), Map(Consumers.Bool(), BoolAtom)), input, a, fuel)
      == Step(Failure(Further(Error(if input[a..e] == [] then a else e, "expect number"), Error(a, "expect bool"))), a)
  {
    var e := Consumers.SpanEnd(input, a, IsDigit);
    NumberAtom(g, input, a, fuel);
    BoolAtomLaw(g, input, a, fuel);
    OrBothFail(g, Map(Consumers.Number(), IntAtom), Map(Consumers.Bool(), BoolAtom), input, a, fuel,
               Error(if input[a..e] == [] then a else e, "expect number"), Error(a, "expect bool"));
  }

  /** Failing number and bool, the identifier decides. */
  lemma AtomTokenVar(g: Grammar<Syntax>, input: seq<char>, a: nat, fuel: nat)
    requires a <= |input|
    requires var d := input[a..Consumers.SpanEnd(input, a, IsDigit)]; !(d != [] && DigitsValue(d) <= MaxI64)
    requires !StartsWith(input, a, "true") && !StartsWith(input, a, "false")
    ensures Run(g, Map(AtomToken(), AtomExpression), input, a, fuel) == AtomTokenStep(input, a)
  {
    var nb := Or(Map(Consumers.Number<Syntax>(), IntAtom), Map(Consumers.Bool<Syntax>(), BoolAtom));
    var x := Map(Consumers.Identifier<Syntax>(), VarAtom);
    var e := Consumers.SpanEnd(input, a, IsDigit);
    AtomTokenNoLiteral(g, input, a, fuel);
    VarAtomLaw(g, input, a, fuel);
    if a < |input| && Consumers.IsIdentifierStart(input[a]) {
      OrRightStands(g, nb, x, input, a, fuel);
    } else {
      OrBothFail(g, nb, x, input, a, fuel,
                 Further(Error(if input[a..e] == [] then a else e, "expect number"), Error(a, "expect bool")),
                 Error(if a < |input| then a + 1 else a, "expect identifier"));
    }
    MapLaw(g, AtomToken(), AtomExpression, input, a, fuel);
  }

  /** The atom alternatives before white space is trimmed. */
  lemma AtomTokenLaw(g: Grammar<Syntax>, input: seq<char>, a: nat, fuel: nat)
    requires a <= |input|
    ensures Run(g, Map(AtomToken(), AtomExpression), input, a, fuel) == AtomTokenStep(input, a)
  {
    var d := input[a..Consumers.SpanEnd(input, a, IsDigit)];
    if d != [] && DigitsValue(d) <= MaxI64 {
      AtomTokenNumber(g, input, a, fuel);
    } else if StartsWith(input, a, "true") || StartsWith(input, a, "false") {
      AtomTokenBool(g, input, a, fuel);
    } else {
      AtomTokenVar(g, input, a, fuel);
    }
  }

  /** `atom_exp()`: the atom alternatives after white space, with the white
      space after them; a failure no further than `pos` is reported as
      "atom expression syntax error". */
  ghost function AtomStep(input: seq<char>, pos: nat): Step<Syntax>
    requires pos <= |input|
  {
    var t := AtomTokenStep(input, SkipWhitespace(input, pos));
    if t.reply.Success? then Step(t.reply, SkipWhitespace(input, t.pos))
    else Step(Failure(Further(t.reply.error, Error(pos, "atom expression syntax error"))), pos)
  }

  lemma AtomExpLaw(g: Grammar<Syntax>, input: seq<char>, pos: nat, fuel: nat)
    requires pos <= |input|
    ensures Run(g, AtomExp(), input, pos, fuel) == AtomStep(input, pos)
  {
    AtomTokenLaw(g, input, SkipWhitespace(input, pos), fuel);
    TrimWhitespacesLaw(g, Map(AtomToken(), AtomExpression), input, pos, fuel);
    OrLaw(g, TrimWhitespaces(Map(AtomToken(), AtomExpression)), AtomExp().right, input, pos, fuel);
  }

  // ---------------------------------------------------------------------------
  // Laws: exp

  /** The steps of the five alternatives of `exp()` from `a`. */
  ghost function ExpFormSteps(input: seq<char>, a: nat, fuel: nat): seq<Step<Syntax>>
    requires a <= |input|
  {
    [FormStep(Rules(), LetCore(), "let expression syntax error", input, a, fuel),
     FormStep(Rules(), IfCore(), "if expression syntax error", input, a, fuel),
     FormStep(Rules(), OperCore(), "operator expression syntax error", input, a, fuel),
     AtomStep(input, a),
     Step(Failure(Error(a, "syntax error")), a)]
  }

  /** `exp()`: the alternatives after white space, then white space; what
      the alternatives do is `ExpChoice`. */
  ghost function ExpStep(input: seq<char>, pos: nat, fuel: nat): Step<Syntax>
    requires pos <= |input|
  {
    var a := SkipWhitespace(input, pos);
    var c := Run(Rules(), Alternatives(ExpForms()), input, a, fuel);
    if c.reply.Success? then Step(c.reply, SkipWhitespace(input, c.pos))
    else if c.reply.Failure? then Step(c.reply, pos)
    else c
  }

  lemma LetExpLaw(input: seq<char>, a: nat, fuel: nat)
    requires a <= |input|
    ensures Run(Rules(), LetExp(), input, a, fuel) == ExpFormSteps(input, a, fuel)[0]
  {
    FormLaw(Rules(), LetCore(), LetExp().right.message, input, a, fuel);
  }

  lemma IfExpLaw(input: seq<char>, a: nat, fuel: nat)
    requires a <= |input|
    ensures Run(Rules(), IfExp(), input, a, fuel) == ExpFormSteps(input, a, fuel)[1]
  {
    FormLaw(Rules(), IfCore(), IfExp().right.message, input, a, fuel);
  }

  lemma OperExpLaw(input: seq<char>, a: nat, fuel: nat)
    requires a <= |input|
    ensures Run(Rules(), OperExp(), input, a, fuel) == ExpFormSteps(input, a, fuel)[2]
  {
    FormLaw(Rules(), OperCore(), OperExp().right.message, input, a, fuel);
  }

  lemma ExpRuns(input: seq<char>, a: nat, fuel: nat)
    requires a <= |input|
    ensures Runs(Rules(), ExpForms(), input, a, fuel) == ExpFormSteps(input, a, fuel)
  {
    var rs, steps := Runs(Rules(), ExpForms(), input, a, fuel), ExpFormSteps(input, a, fuel);
    assert rs[0] == steps[0] by { LetExpLaw(input, a, fuel); }
    assert rs[1] == steps[1] by { IfExpLaw(input, a, fuel); }
    assert rs[2] == steps[2] by { OperExpLaw(input, a, fuel); }
    assert rs[3] == steps[3] by { AtomExpLaw(Rules(), input, a, fuel); }
    assert rs[4] == steps[4] by { FailLaw(Rules(), ExpForms()[4].message, input, a, fuel); }
  }

  /** The alternatives of `exp()` are tried in order: the let, if, operator
      and atom forms and the "syntax error" fallback. */
  lemma ExpChoice(input: seq<char>, a: nat, fuel: nat)
    requires a <= |input|
    ensures Run(Rules(), Alternatives(ExpForms()), input, a, fuel) == Choice(ExpFormSteps(input, a, fuel), a)
  {
    ChoiceLaw(Rules(), ExpForms(), input, a, fuel);
    ExpRuns(input, a, fuel);
  }

  lemma ExpLaw(input: seq<char>, pos: nat, fuel: nat)
    requires pos <= |input|
    ensures Run(Rules(), Exp(), input, pos, fuel) == ExpStep(input, pos, fuel)
  {
    TrimWhitespacesLaw(Rules(), Alternatives(ExpForms()), input, pos, fuel);
  }

  /** A parenthesised form fails with its error at `a` when the input ends at
      `a`, and past `a` when another character stands there. */
  lemma FormNeedsParenthesis(g: Grammar<Syntax>, p: Parser<Syntax>, msg: string, input: seq<char>, a: nat, fuel: nat)
    requires a <= |input| && SkipWhitespace(input, a) == a
    requires a == |input| || input[a] != '('
    ensures FormStep(g, p, msg, input, a, fuel).reply.Failure?
    ensures a == |input| ==> FormStep(g, p, msg, input, a, fuel).reply.error == Error(a, msg)
    ensures a < |input| ==> FormStep(g, p, msg, input, a, fuel).reply.error == Error(a + 1, "expect '('")
  {
  }

  /** With nothing but white space left, `exp()` fails with "syntax error" at
      the end of the input. */
  lemma ExpAtEnd(input: seq<char>, pos: nat, fuel: nat)
    requires pos <= |input| && SkipWhitespace(input, pos) == |input|
    ensures Run(Rules(), Exp(), input, pos, fuel) == Step(Failure(Error(|input|, "syntax error")), pos)
  {
    var a := |input|;
    SkipWhitespaceIdempotent(input, pos);
    ExpLaw(input, pos, fuel);
    ExpChoice(input, a, fuel);
    FormNeedsParenthesis(Rules(), LetCore(), "let expression syntax error", input, a, fuel);
    FormNeedsParenthesis(Rules(), IfCore(), "if expression syntax error", input, a, fuel);
    FormNeedsParenthesis(Rules(), OperCore(), "operator expression syntax error", input, a, fuel);
    var steps := ExpFormSteps(input, a, fuel);
    assert AllFail(steps);
    ChoiceAllFail(steps, a);
  }

  /** Where no parenthesis opens, `exp()` is the atom, if there is one. */
  lemma ExpOfAtom(input: seq<char>, pos: nat, fuel: nat)
    requires pos <= |input|
    requires var a := SkipWhitespace(input, pos); a < |input| && input[a] != '(' && AtomTokenStep(input, a).reply.Success?
    ensures var t := AtomTokenStep(input, SkipWhitespace(input, pos));
      Run(Rules(), Exp(), input, pos, fuel) == Step(t.reply, SkipWhitespace(input, t.pos))
  {
    var a := SkipWhitespace(input, pos);
    var t := AtomTokenStep(input, a);
    SkipWhitespaceIdempotent(input, pos);
    SkipWhitespaceIdempotent(input, t.pos);
    ExpLaw(input, pos, fuel);
    ExpChoice(input, a, fuel);
    FormNeedsParenthesis(Rules(), LetCore(), "let expression syntax error", input, a, fuel);
    FormNeedsParenthesis(Rules(), IfCore(), "if expression syntax error", input, a, fuel);
    FormNeedsParenthesis(Rules(), OperCore(), "operator expression syntax error", input, a, fuel);
    ChoiceFirstSuccess(ExpFormSteps(input, a, fuel), a, 3);
  }

  // ---------------------------------------------------------------------------
  // Laws: whole forms

  /** Without the word `let` the let form fails. */
  lemma LetCoreNoWord(input: seq<char>, b: nat, fuel: nat)
    requires b <= |input| && !StartsWith(input, b, "let")
    ensures Run(Rules(), LetCore(), input, b, fuel).reply.Failure?
  {
    StringLaw(Rules(), "let", input, b, fuel);
    FlatMapLaw(Rules(), Str("let"), LetCore().parent.next, input, b, fuel);
    MapLaw(Rules(), LetCore().parent, MkLet, input, b, fuel);
  }

  /** Without the word `if` the if form fails. */
  lemma IfCoreNoWord(input: seq<char>, b: nat, fuel: nat)
    requires b <= |input| && !StartsWith(input, b, "if")
    ensures Run(Rules(), IfCore(), input, b, fuel).reply.Failure?
  {
    StringLaw(Rules(), "if", input, b, fuel);
    FlatMapLaw(Rules(), Str("if"), IfCore().parent.next, input, b, fuel);
    MapLaw(Rules(), IfCore().parent, MkIf, input, b, fuel);
  }

  /** A form whose inside fails after its `(` fails. */
  lemma FormInnerFails(g: Grammar<Syntax>, p: Parser<Syntax>, msg: string, input: seq<char>, pos: nat, fuel: nat)
    requires pos <= |input|
    requires var a := SkipWhitespace(input, pos);
      a < |input| && input[a] == '(' && Run(g, p, input, SkipWhitespace(input, a + 1), fuel).reply.Failure?
    ensures FormStep(g, p, msg, input, pos, fuel).reply.Failure?
  {
    var a := SkipWhitespace(input, pos);
    assert WsEnd(input)(a + 1) == SkipWhitespace(input, a + 1);
  }

  /** A form whose inside succeeds and is closed by `)`: the inside's value,
      the cursor past the white space after the `)`. */
  lemma FormSucceeds(g: Grammar<Syntax>, p: Parser<Syntax>, msg: string, input: seq<char>, pos: nat, fuel: nat,
                     v: Value<Syntax>, j: nat)
    requires pos <= |input|
    requires var a := SkipWhitespace(input, pos);
      a < |input| && input[a] == '(' && Run(g, p, input, SkipWhitespace(input, a + 1), fuel) == Step(Success(v), j)
    requires var c := SkipWhitespace(input, j); c < |input| && input[c] == ')'
    ensures FormStep(g, p, msg, input, pos, fuel) == Step(Success(v), SkipWhitespace(input, SkipWhitespace(input, j) + 1))
  {
    var a := SkipWhitespace(input, pos);
    var t := Run(g, p, input, SkipWhitespace(input, a + 1), fuel);
    assert WsEnd(input)(a + 1) == SkipWhitespace(input, a + 1);
    assert BracketStep(g, p, WsEnd(input), input, a, fuel, pos, true) == CloseStep(t, WsEnd(input), input, pos, true);
    CloseSucceeds(t, input, pos, v, j);
  }

  /** A successful inside followed by white space and `)`. */
  lemma CloseSucceeds(t: Step<Syntax>, input: seq<char>, start: nat, v: Value<Syntax>, j: nat)
    requires j <= |input| && t == Step(Success(v), j)
    requires var c := SkipWhitespace(input, j); c < |input| && input[c] == ')'
    ensures CloseStep(t, WsEnd(input), input, start, true) == Step(Success(v), SkipWhitespace(input, SkipWhitespace(input, j) + 1))
  {
    var c := SkipWhitespace(input, j);
    assert WsEnd(input)(j) == c;
    assert WsEnd(input)(c + 1) == SkipWhitespace(input, c + 1);
  }

  /** The alternatives of `exp()` take the first one that succeeds. */
  lemma ExpTakes(input: seq<char>, a: nat, fuel: nat, i: nat)
    requires a <= |input| && i < 5
    requires var steps := ExpFormSteps(input, a, fuel);
      steps[i].reply.Success? && forall j :: 0 <= j < i ==> steps[j].reply.Failure?
    ensures Run(Rules(), Alternatives(ExpForms()), input, a, fuel) == ExpFormSteps(input, a, fuel)[i]
  {
    ExpChoice(input, a, fuel);
    ChoiceFirstSuccess(ExpFormSteps(input, a, fuel), a, i);
  }

  /** After `(`, a form that does not start with `let` is not a let form. */
  lemma LetFormFails(input: seq<char>, a: nat, fuel: nat)
    requires a < |input| && input[a] == '(' && SkipWhitespace(input, a) == a
    requires SkipWhitespace(input, a + 1) < |input| && input[SkipWhitespace(input, a + 1)] != 'l'
    ensures ExpFormSteps(input, a, fuel)[0].reply.Failure?
  {
    var b := SkipWhitespace(input, a + 1);
    if b + 3 <= |input| { assert input[b..b + 3][0] == input[b]; }
    LetCoreNoWord(input, b, fuel);
    FormInnerFails(Rules(), LetCore(), "let expression syntax error", input, a, fuel);
  }

  /** After `(`, a form that does not start with `if` is not an if form. */
  lemma IfFormFails(input: seq<char>, a: nat, fuel: nat)
    requires a < |input| && input[a] == '(' && SkipWhitespace(input, a) == a
    requires SkipWhitespace(input, a + 1) < |input| && input[SkipWhitespace(input, a + 1)] != 'i'
    ensures ExpFormSteps(input, a, fuel)[1].reply.Failure?
  {
    var b := SkipWhitespace(input, a + 1);
    if b + 2 <= |input| { assert input[b..b + 2][0] == input[b]; }
    IfCoreNoWord(input, b, fuel);
    FormInnerFails(Rules(), IfCore(), "if expression syntax error", input, a, fuel);
  }

  /** After `(`, an operator and two sub-expressions closed by `)` make the
      operator form succeed. */
  lemma OperFormSucceeds(input: seq<char>, a: nat, b: nat, fuel: nat, op: Operator, l: Expression, r: Expression,
                         c: nat, d: nat, e: nat)
    requires a < |input| && input[a] == '(' && SkipWhitespace(input, a) == a && fuel >= 1
    requires b == SkipWhitespace(input, a + 1) && b < |input| && OperatorOf(input[b]) == Ok(op)
    requires SubStep(input, b + 1, fuel - 1) == Step(Success(ExpValue(l)), c)
    requires SubStep(input, c, fuel - 1) == Step(Success(ExpValue(r)), d)
    requires e == SkipWhitespace(input, d) && e < |input| && input[e] == ')'
    ensures ExpFormSteps(input, a, fuel)[2] == Step(Success(ExpValue(Oper(op, l, r))), SkipWhitespace(input, e + 1))
  {
    var v := ExpValue(Oper(op, l, r));
    assert Run(Rules(), OperCore(), input, b, fuel) == Step(Success(v), d) by {
      OperCoreLaw(input, b, fuel, op, l, r, c, d);
    }
    FormSucceeds(Rules(), OperCore(), "operator expression syntax error", input, a, fuel, v, d);
  }

  /** After `(`, a form that starts with neither `l` nor `i` is neither a
      let form nor an if form. */
  lemma NeitherLetNorIf(input: seq<char>, a: nat, fuel: nat)
    requires a < |input| && input[a] == '(' && SkipWhitespace(input, a) == a
    requires SkipWhitespace(input, a + 1) < |input|
    requires input[SkipWhitespace(input, a + 1)] != 'l' && input[SkipWhitespace(input, a + 1)] != 'i'
    ensures forall j :: 0 <= j < 2 ==> ExpFormSteps(input, a, fuel)[j].reply.Failure?
  {
    LetFormFails(input, a, fuel);
    IfFormFails(input, a, fuel);
  }

  /** At a `(` that neither `let` nor `if` follows, the alternatives of
      `exp()` take what the operator form does when it succeeds. */
  lemma OperAlternative(input: seq<char>, a: nat, fuel: nat)
    requires a < |input| && input[a] == '(' && SkipWhitespace(input, a) == a
    requires SkipWhitespace(input, a + 1) < |input|
    requires input[SkipWhitespace(input, a + 1)] != 'l' && input[SkipWhitespace(input, a + 1)] != 'i'
    requires ExpFormSteps(input, a, fuel)[2].reply.Success?
    ensures Run(Rules(), Alternatives(ExpForms()), input, a, fuel) == ExpFormSteps(input, a, fuel)[2]
  {
    NeitherLetNorIf(input, a, fuel);
    ExpTakes(input, a, fuel, 2);
  }

  /** An operator form `( op lhs rhs )`, white space allowed around its
      parts, is `Oper(op, lhs, rhs)`; `a`, `b` and `e` are where the `(`, the
      operator and the `)` stand. */
  lemma ExpOfOper(input: seq<char>, pos: nat, fuel: nat, op: Operator, l: Expression, r: Expression,
                  a: nat, b: nat, c: nat, d: nat, e: nat)
    requires pos <= |input| && fuel >= 1
    requires a == SkipWhitespace(input, pos) && a < |input| && input[a] == '('
    requires b == SkipWhitespace(input, a + 1) && b < |input| && OperatorOf(input[b]) == Ok(op)
    requires SubStep(input, b + 1, fuel - 1) == Step(Success(ExpValue(l)), c)
    requires SubStep(input, c, fuel - 1) == Step(Success(ExpValue(r)), d)
    requires e == SkipWhitespace(input, d) && e < |input| && input[e] == ')'
    ensures Run(Rules(), Exp(), input, pos, fuel) == Step(Success(ExpValue(Oper(op, l, r))), SkipWhitespace(input, e + 1))
  {
    SkipWhitespaceIdempotent(input, pos);
    assert input[b] != 'l' && input[b] != 'i' by { assert input[b] == Symbol(op); }
    OperFormSucceeds(input, a, b, fuel, op, l, r, c, d, e);
    OperAlternative(input, a, fuel);
    ExpLaw(input, pos, fuel);
    SkipWhitespaceIdempotent(input, e + 1);
  }

  /** After `(`, the word `if` and three sub-expressions closed by `)` make
      the if form succeed. */
  lemma IfFormSucceeds(input: seq<char>, a: nat, b: nat, fuel: nat, p: Expression, t: Expression, o: Expression,
                       c1: nat, c2: nat, c3: nat, e: nat)
    requires a < |input| && input[a] == '(' && SkipWhitespace(input, a) == a && fuel >= 1
    requires b == SkipWhitespace(input, a + 1) && StartsWith(input, b, "if")
    requires SubStep(input, b + 2, fuel - 1) == Step(Success(ExpValue(p)), c1)
    requires SubStep(input, c1, fuel - 1) == Step(Success(ExpValue(t)), c2)
    requires SubStep(input, c2, fuel - 1) == Step(Success(ExpValue(o)), c3)
    requires e == SkipWhitespace(input, c3) && e < |input| && input[e] == ')'
    ensures ExpFormSteps(input, a, fuel)[1] == Step(Success(ExpValue(If(p, t, o))), SkipWhitespace(input, e + 1))
  {
    var v := ExpValue(If(p, t, o));
    assert Run(Rules(), IfCore(), input, b, fuel) == Step(Success(v), c3) by {
      IfCoreLaw(input, b, fuel, p, t, o, c1, c2, c3);
    }
    FormSucceeds(Rules(), IfCore(), "if expression syntax error", input, a, fuel, v, c3);
  }

  /** At a `(` that `if` follows, the alternatives of `exp()` take what the
      if form does when it succeeds. */
  lemma IfAlternative(input: seq<char>, a: nat, fuel: nat)
    requires a < |input| && input[a] == '(' && SkipWhitespace(input, a) == a
    requires SkipWhitespace(input, a + 1) < |input| && input[SkipWhitespace(input, a + 1)] == 'i'
    requires ExpFormSteps(input, a, fuel)[1].reply.Success?
    ensures Run(Rules(), Alternatives(ExpForms()), input, a, fuel) == ExpFormSteps(input, a, fuel)[1]
  {
    LetFormFails(input, a, fuel);
    ExpTakes(input, a, fuel, 1);
  }

  /** An if form `( if cond then else )`, white space allowed around its
      parts, is `If(cond, then, else)`; `a`, `b` and `e` are where the `(`,
      the word `if` and the `)` stand. */
  lemma ExpOfIf(input: seq<char>, pos: nat, fuel: nat, p: Expression, t: Expression, o: Expression,
                a: nat, b: nat, c1: nat, c2: nat, c3: nat, e: nat)
    requires pos <= |input| && fuel >= 1
    requires a == SkipWhitespace(input, pos) && a < |input| && input[a] == '('
    requires b == SkipWhitespace(input, a + 1) && StartsWith(input, b, "if")
    requires SubStep(input, b + 2, fuel - 1) == Step(Success(ExpValue(p)), c1)
    requires SubStep(input, c1, fuel - 1) == Step(Success(ExpValue(t)), c2)
    requires SubStep(input, c2, fuel - 1) == Step(Success(ExpValue(o)), c3)
    requires e == SkipWhitespace(input, c3) && e < |input| && input[e] == ')'
    ensures Run(Rules(), Exp(), input, pos, fuel) == Step(Success(ExpValue(If(p, t, o))), SkipWhitespace(input, e + 1))
  {
    SkipWhitespaceIdempotent(input, pos);
    assert input[b] == 'i' by { assert input[b..b + 2][0] == input[b]; }
    IfFormSucceeds(input, a, b, fuel, p, t, o, c1, c2, c3, e);
    IfAlternative(input, a, fuel);
    ExpLaw(input, pos, fuel);
    SkipWhitespaceIdempotent(input, e + 1);
  }

  /** After `(`, the word `let`, the bindings `many` collects and a body
      closed by `)` make the let form succeed. */
  lemma LetFormSucceeds(input: seq<char>, a: nat, b: nat, fuel: nat, vs: seq<Value<Syntax>>, m: nat, body: Expression,
                        d: nat, e: nat)
    requires a < |input| && input[a] == '(' && SkipWhitespace(input, a) == a && fuel >= 1
    requires b == SkipWhitespace(input, a + 1) && StartsWith(input, b, "let")
    requires Run(Rules(), Many(Binding()), input, b + 3, fuel - 1) == Step(Success(List(vs)), m)
    requires SubStep(input, m, fuel - 1) == Step(Success(ExpValue(body)), d)
    requires e == SkipWhitespace(input, d) && e < |input| && input[e] == ')'
    ensures ExpFormSteps(input, a, fuel)[0] == Step(Success(ExpValue(Let(EnvOf(vs), body))), SkipWhitespace(input, e + 1))
  {
    var v := ExpValue(Let(EnvOf(vs), body));
    assert Run(Rules(), LetCore(), input, b, fuel) == Step(Success(v), d) by {
      LetCoreLaw(input, b, fuel, vs, m, body, d);
    }
    FormSucceeds(Rules(), LetCore(), "let expression syntax error", input, a, fuel, v, d);
  }

  /** A let form `( let (name exp)... body )`, white space allowed around
      its parts, is `Let(env, body)` with the bindings' environment; `a`,
      `b` and `e` are where the `(`, the word `let` and the `)` stand. */
  lemma ExpOfLet(input: seq<char>, pos: nat, fuel: nat, vs: seq<Value<Syntax>>, body: Expression,
                 a: nat, b: nat, m: nat, d: nat, e: nat)
    requires pos <= |input| && fuel >= 1
    requires a == SkipWhitespace(input, pos) && a < |input| && input[a] == '('
    requires b == SkipWhitespace(input, a + 1) && StartsWith(input, b, "let")
    requires Run(Rules(), Many(Binding()), input, b + 3, fuel - 1) == Step(Success(List(vs)), m)
    requires SubStep(input, m, fuel - 1) == Step(Success(ExpValue(body)), d)
    requires e == SkipWhitespace(input, d) && e < |input| && input[e] == ')'
    ensures Run(Rules(), Exp(), input, pos, fuel) == Step(Success(ExpValue(Let(EnvOf(vs), body))), SkipWhitespace(input, e + 1))
  {
    SkipWhitespaceIdempotent(input, pos);
    LetFormSucceeds(input, a, b, fuel, vs, m, body, d, e);
    ExpTakes(input, a, fuel, 0);
    ExpLaw(input, pos, fuel);
    SkipWhitespaceIdempotent(input, e + 1);
  }

  // ---------------------------------------------------------------------------
  // Laws: parse

  /** An input of nothing but white space is rejected with "syntax error" at
      its end. */
  lemma ParseBlank(input: seq<char>, fuel: nat)
    requires SkipWhitespace(input, 0) == |input|
    ensures Parse(input, fuel) == Rejected(Error(|input|, "syntax error"))
  {
    ExpAtEnd(input, 0, fuel);
  }

  /** An input that starts (after white space) with an atom parses as that
      atom, whatever text follows it. */
  lemma ParseAtom(input: seq<char>, fuel: nat)
    requires var a := SkipWhitespace(input, 0); a < |input| && input[a] != '(' && AtomTokenStep(input, a).reply.Success?
    ensures var t := AtomTokenStep(input, SkipWhitespace(input, 0));
      t.reply.value.Custom? && t.reply.value.u.ExpSyntax? && t.reply.value.u.exp.Atom? &&
      Parse(input, fuel) == Parsed(t.reply.value.u.exp)
  {
    ExpOfAtom(input, 0, fuel);
  }

  lemma ParseEmpty(fuel: nat)
    ensures Parse("", fuel) == Rejected(Error(0, "syntax error"))
  {
    ParseBlank("", fuel);
  }

  /** A number, then text the grammar never looks at. */
  lemma ParseIgnoresRest(fuel: nat)
    ensures Parse("7 )", fuel) == Parsed(Expression.Atom(Atom.Int(7)))
  {
    var input := "7 )";
    assert SkipWhitespace(input, 0) == 0;
    assert Consumers.SpanEnd(input, 1, IsDigit) == 1;
    assert input[0..1] == "7";
    assert DigitsValue("7") == 7;
    ParseAtom(input, fuel);
  }

  /** Reserved words alone are variables: the atom tries `bool` and then
      `identifier`, and neither knows about "if" or "let". */
  lemma ParseReservedWord(fuel: nat)
    ensures Parse("if", fuel) == Parsed(Expression.Atom(Var("if")))
  {
    var input := "if";
    assert SkipWhitespace(input, 0) == 0;
    assert Consumers.SpanEnd(input, 0, IsDigit) == 0;
    assert !StartsWith(input, 0, "true") && !StartsWith(input, 0, "false");
    assert Consumers.IsIdentifierStart(input[0]);
    assert Consumers.SpanEnd(input, 1, Consumers.IsIdentifierChar) == 2;
    assert input[0..2] == "if";
    ParseAtom(input, fuel);
  }

  /** `bool` matches a prefix, so "truex" parses as `true` and "x" is left. */
  lemma ParseBoolPrefix(fuel: nat)
    ensures Parse("truex", fuel) == Parsed(Expression.Atom(Atom.Bool(true)))
  {
    var input := "truex";
    assert SkipWhitespace(input, 0) == 0;
    assert Consumers.SpanEnd(input, 0, IsDigit) == 0;
    assert StartsWith(input, 0, "true");
    ParseAtom(input, fuel);
  }

  /** An operator form with white space between its parts. */
  lemma ParseSum(fuel: nat)
    requires fuel >= 2
    ensures Parse("(+ 1 2)", fuel) == Parsed(Oper(Add, Expression.Atom(Atom.Int(1)), Expression.Atom(Atom.Int(2))))
  {
    var input := "(+ 1 2)";
    var l, r := Expression.Atom(Atom.Int(1)), Expression.Atom(Atom.Int(2));
    assert SkipWhitespace(input, 0) == 0 && SkipWhitespace(input, 1) == 1;
    assert SkipWhitespace(input, 2) == 3 && SkipWhitespace(input, 4) == 5;
    assert SkipWhitespace(input, 5) == 5 && SkipWhitespace(input, 6) == 6 && SkipWhitespace(input, 7) == 7;
    DigitOperand(input, 2, 3, fuel - 1);
    DigitOperand(input, 5, 5, fuel - 1);
    ExpOfOper(input, 0, fuel, Add, l, r, 0, 1, 5, 6, 6);
  }

  /** A sub-expression that is one digit, after white space from `pos`. */
  lemma DigitOperand(input: seq<char>, pos: nat, a: nat, fuel: nat)
    requires pos <= |input| && fuel >= 1
    requires a == SkipWhitespace(input, pos) && a < |input| && IsDigit(input[a])
    requires a + 1 == |input| || !IsDigit(input[a + 1])
    ensures SubStep(input, pos, fuel)
         == Step(Success(ExpValue(Expression.Atom(Atom.Int(DigitValue(input[a]))))), SkipWhitespace(input, a + 1))
  {
    var n := DigitValue(input[a]);
    assert AtomTokenStep(input, a) == Step(Success(AtomValue(Atom.Int(n))), a + 1) by {
      assert Consumers.SpanEnd(input, a + 1, IsDigit) == a + 1;
      assert input[a..a + 1] == [input[a]];
      assert DigitsValue([input[a]]) == n by { assert [input[a]][..0] == []; }
    }
    ExpOfAtom(input, pos, fuel - 1);
  }

}
