/** The entry point of the s-expression crate (s-expression/src/lib.rs):
    parse the text, then evaluate the expression in the empty environment. */
module SExprLib {
  import opened RustResult
  import ParsecResult
  import opened SExprExpression
  import opened SExprResult
  import opened SExprEvaluator
  import SExprParser
  import SExprParserFuel

  /** `run`: a parse error becomes `Error::Parser`; the evaluator sees only a
      parsed expression. One fuel bound serves both halves. */
  function Run(input: string, fuel: nat): Evaluation {
    match SExprParser.Parse(input, fuel)
    case Parsed(e) => Eval(e, fuel)
    case Rejected(err) => Done(Err(Parser(err)))
    case Unfinished => OutOfFuel
  }

  /** A parser error in the answer is exactly a rejected parse. */
  lemma RunParserError(input: string, fuel: nat, err: ParsecResult.Error)
    ensures Run(input, fuel) == Done(Err(Parser(err))) <==> SExprParser.Parse(input, fuel) == SExprParser.Rejected(err)
  {
    var p := SExprParser.Parse(input, fuel);
    if p.Parsed? {
      EvalOwnErrors(p.exp, map[], fuel);
    }
  }

  /** Evaluation happens only after a successful parse, and then it is the
      evaluation of the parsed expression. */
  lemma RunEvaluatesParsed(input: string, fuel: nat)
    ensures var p := SExprParser.Parse(input, fuel);
      p.Parsed? ==> Run(input, fuel) == Eval(p.exp, fuel)
    ensures var r := Run(input, fuel);
      r.Done? && (r.result.Ok? || !r.result.error.Parser?) ==> SExprParser.Parse(input, fuel).Parsed?
  {
  }

  /** A finished run is the run: more fuel gives the same answer. */
  lemma RunFuelMonotone(input: string, fuel: nat, more: nat)
    requires fuel <= more && Run(input, fuel).Done?
    ensures Run(input, more) == Run(input, fuel)
  {
    SExprParserFuel.ParseFuelMonotone(input, fuel, more);
    var p := SExprParser.Parse(input, fuel);
    if p.Parsed? {
      FuelMonotone(p.exp, map[], fuel, more);
    }
  }

  /** The empty input reports "syntax error" at offset 0. */
  lemma RunEmpty(fuel: nat)
    ensures Run("", fuel).Done? && Run("", fuel).result.Err?
    ensures ErrorText(Run("", fuel).result.error) == "[0] syntax error"
  {
    SExprParser.ParseEmpty(fuel);
    assert Numerals.Decimal(0) == "0";
  }

  /** "if" alone is a variable, and nothing is bound at the top level. */
  lemma RunReservedWord(fuel: nat)
    ensures Run("if", fuel) == Done(Err(UnboundIdentifier))
  {
    SExprParser.ParseReservedWord(fuel);
  }

  /** The text after a complete expression is never read. */
  lemma RunIgnoresRest(fuel: nat)
    ensures Run("7 )", fuel) == Done(Ok(Val.Int(7)))
  {
    SExprParser.ParseIgnoresRest(fuel);
  }

  /** A sum: parsed as an operator form, evaluated to the number. */
  lemma RunSum(fuel: nat)
    requires fuel >= 2
    ensures Run("(+ 1 2)", fuel) == Done(Ok(Val.Int(3)))
  {
    var l, r := Expression.Atom(Atom.Int(1)), Expression.Atom(Atom.Int(2));
    SExprParser.ParseSum(fuel);
    assert EvalExpression(l, map[], fuel) == Done(Ok(Val.Int(1)));
    assert EvalExpression(r, map[], fuel) == Done(Ok(Val.Int(2)));
    assert EvalOper(Add, map[], l, r, fuel) == Done(ApplyOper(Add, 1, 2));
    assert Eval(Oper(Add, l, r), fuel) == EvalOper(Add, map[], l, r, fuel);
  }
}
