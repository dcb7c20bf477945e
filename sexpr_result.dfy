/** Values and errors of the s-expression language and their display texts
    (s-expression/src/result.rs). `Val::from` is the constructor `Int` or `Bool`. */
module SExprResult {
  import opened RustResult
  import opened Numerals
  import ParsecResult

  datatype Val = Int(i: int) | Bool(b: bool)

  datatype Error =
    | Parser(err: ParsecResult.Error)
    | TypeMismatch
    | UnboundIdentifier
    | DivisionByZero

  /** `Display for Val`: the integer in decimal, or `true` / `false`. */
  function ValText(v: Val): (s: string)
    ensures |s| >= 1
    ensures v.Int? <==> IsDigit(s[0]) || s[0] == '-'
    ensures v.Int? && MinI64 <= v.i <= MaxI64 ==> ParseI64(s) == Ok(v.i)
    ensures v.Int? ==> (v.i < 0 <==> s[0] == '-')
    ensures v.Int? && v.i >= 0 && |s| > 1 ==> s[0] != '0'
    ensures v.Int? && v.i < 0 ==> |s| >= 2 && s[1] != '0'
    ensures v.Bool? ==> s == (if v.b then "true" else "false")
  {
    match v
    case Int(i) =>
      IntDecimalReadBack(i);
      IntDecimal(i)
    case Bool(b) => if b then "true" else "false"
  }

  /** `Display for Error`: a parser error as the engine renders it, the others
      as fixed texts. */
  function ErrorText(e: Error): (s: string)
  {
    match e
    case Parser(err) => ParsecResult.Render(err)
    case TypeMismatch => "Type Mismatch"
    case UnboundIdentifier => "Unbound Identifier"
    case DivisionByZero => "Division By Zero"
  }

  /** Different values display differently. */
  lemma ValTextInjective(a: Val, b: Val)
    ensures ValText(a) == ValText(b) <==> a == b
  {
    if ValText(a) == ValText(b) {
      if a.Int? && b.Int? {
        IntDecimalInjective(a.i, b.i);
      }
    }
  }

  /** Different errors display differently: one shows the parser error's
      position and message, the others are three distinct fixed texts. */
  lemma ErrorTextInjective(a: Error, b: Error)
    ensures ErrorText(a) == ErrorText(b) <==> a == b
  {
    if ErrorText(a) == ErrorText(b) {
      if a.Parser? && b.Parser? {
        ParsecResult.RenderInjective(a.err, b.err);
      } else if a.Parser? {
        ParsecResult.RenderLayout(a.err);
      } else if b.Parser? {
        ParsecResult.RenderLayout(b.err);
      }
    }
  }
}
