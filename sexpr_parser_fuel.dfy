/** How much fuel `parse` of s-expression/src/parser.rs needs. Every nested
    expression stands after an opening parenthesis, so it starts at least one
    character further on, and reaching it costs two units of fuel: one for the
    `flat_map` continuation of its form and one for the call of `exp()`. Hence
    `2 * |input| + 2` units always suffice, and once `parse` finishes, more
    fuel changes nothing. */
module SExprParserFuel {
  import opened ParsecSemantics
  import opened ParsecLaws
  import opened ParsecFuel
  import opened SExprParserExt
  import opened SExprParser
  import Consumers = ParsecConsumers

  /** A finished parse is the parse: more fuel gives the same outcome. */
  lemma ParseFuelMonotone(input: seq<char>, fuel: nat, more: nat)
    requires fuel <= more && Parse(input, fuel) != Unfinished
    ensures Parse(input, more) == Parse(input, fuel)
  {
    RunMono(Rules(), Exp(), input, 0, fuel, more);
  }

  /** `parse` finishes once it has two units of fuel per input character
      and two more. */
  lemma ParseFinishes(input: seq<char>, fuel: nat)
    requires fuel >= 2 * |input| + 2
    ensures Parse(input, fuel) != Unfinished
    ensures Parse(input, fuel) == Parse(input, 2 * |input| + 2)
  {
    ExpHalts(input, 0, fuel);
    ExpHalts(input, 0, 2 * |input| + 2);
    ParseFuelMonotone(input, 2 * |input| + 2, fuel);
  }

  /** `exp()` from `pos` finishes with two units of fuel per remaining
      character and two more. */
  lemma ExpHalts(input: seq<char>, pos: nat, fuel: nat)
    requires pos <= |input| && fuel >= 2 * (|input| - pos) + 2
    ensures Halts(Rules(), Exp(), input, pos, fuel)
    decreases |input| - pos
  {
    var less: nat := fuel - 2;
    forall j | pos + 1 <= j <= |input| ensures Halts(Rules(), Exp(), input, j, less) {
      ExpHalts(input, j, less);
    }
    ExpHaltsAt(input, pos, fuel);
  }

  /** `exp()` finishes at `pos` when every nested `exp()`, run further on with
      two units less, does. */
  lemma ExpHaltsAt(input: seq<char>, pos: nat, fuel: nat)
    requires pos <= |input| && fuel >= 2
    requires HaltsFrom(Rules(), Exp(), input, pos + 1, fuel - 2)
    ensures Halts(Rules(), Exp(), input, pos, fuel)
  {
    SubExpHalts(input, pos + 1, fuel - 1);
    FormsHalt(input, pos, fuel);
    var a := SkipWhitespace(input, pos);
    assert Halts(Rules(), Alternatives(ExpForms()), input, a, fuel);
    TrimWhitespacesLaw(Rules(), Alternatives(ExpForms()), input, pos, fuel);
  }

  /** The five alternatives finish from `pos` on when the sub-expressions
      finish past `pos`. */
  lemma FormsHalt(input: seq<char>, pos: nat, fuel: nat)
    requires fuel >= 1 && HaltsFrom(Rules(), SubExp(), input, pos + 1, fuel - 1)
    ensures HaltsFrom(Rules(), Alternatives(ExpForms()), input, pos, fuel)
  {
    var ps := ExpForms();
    LetExpHalts(input, pos, fuel);
    IfExpHalts(input, pos, fuel);
    OperExpHalts(input, pos, fuel);
    AtomExpHalts(input, pos, fuel);
    FailHalts(Rules(), ps[4].message, input, pos, fuel);
    assert Alternatives(ps[..1]) == ps[0];
    assert ps[..4][..3] == ps[..3] && ps[..3][..2] == ps[..2] && ps[..2][..1] == ps[..1];
    OrHalts(Rules(), Alternatives(ps[..1]), ps[1], input, pos, fuel);
    OrHalts(Rules(), Alternatives(ps[..2]), ps[2], input, pos, fuel);
    OrHalts(Rules(), Alternatives(ps[..3]), ps[3], input, pos, fuel);
    OrHalts(Rules(), Alternatives(ps[..4]), ps[4], input, pos, fuel);
  }

  /** A sub-expression calls `exp()` with one unit less. */
  lemma SubExpHalts(input: seq<char>, lo: nat, fuel: nat)
    requires fuel >= 1 && HaltsFrom(Rules(), Exp(), input, lo, fuel - 1)
    ensures HaltsFrom(Rules(), SubExp(), input, lo, fuel)
  {
    forall j | lo <= j <= |input| ensures Halts(Rules(), SubExp(), input, j, fuel) {
      SubExpLaw(input, j, fuel);
      assert Halts(Rules(), Exp(), input, j, fuel - 1);
    }
  }

  /** `in_parentheses` finishes from `lo` on when the bracketed parser
      finishes past `lo`, and it consumes at least the `(` when it succeeds. */
  lemma InParenthesesHalts<U>(g: Grammar<U>, p: Parser<U>, input: seq<char>, lo: nat, fuel: nat)
    requires HaltsFrom(g, p, input, lo + 1, fuel)
    ensures HaltsFrom(g, InParentheses(p), input, lo, fuel)
    ensures ConsumesFrom(g, InParentheses(p), input, lo, fuel)
  {
    forall j | lo <= j <= |input|
      ensures Halts(g, InParentheses(p), input, j, fuel)
      ensures Run(g, InParentheses(p), input, j, fuel).reply.Success? ==> Run(g, InParentheses(p), input, j, fuel).pos > j
    {
      var a := SkipWhitespace(input, j);
      if a < |input| && input[a] == '(' {
        assert Halts(g, p, input, SkipWhitespace(input, a + 1), fuel);
      }
      InParenthesesHaltsAt(g, p, input, j, fuel);
    }
  }

  /** `in_parentheses` at one offset: it finishes if the bracketed parser
      finishes after the `(`, and its success has read the `(`. */
  lemma InParenthesesHaltsAt<U>(g: Grammar<U>, p: Parser<U>, input: seq<char>, j: nat, fuel: nat)
    requires j <= |input|
    requires var a := SkipWhitespace(input, j);
      a < |input| && input[a] == '(' ==> Halts(g, p, input, SkipWhitespace(input, a + 1), fuel)
    ensures Halts(g, InParentheses(p), input, j, fuel)
    ensures Run(g, InParentheses(p), input, j, fuel).reply.Success? ==> Run(g, InParentheses(p), input, j, fuel).pos > j
  {
    InParenthesesLaw(g, p, input, j, fuel);
    var a := SkipWhitespace(input, j);
    if a < |input| && input[a] == '(' {
      assert WsEnd(input)(a + 1) == SkipWhitespace(input, a + 1);
    }
  }

  /** A form `p.in_parentheses().or(fail(m))`. */
  lemma FormHalts(p: Parser<Syntax>, m: () -> string, input: seq<char>, lo: nat, fuel: nat)
    requires HaltsFrom(Rules(), p, input, lo + 1, fuel)
    ensures HaltsFrom(Rules(), Or(InParentheses(p), Fail(m)), input, lo, fuel)
  {
    InParenthesesHalts(Rules(), p, input, lo, fuel);
    FailHalts(Rules(), m, input, lo, fuel);
    OrHalts(Rules(), InParentheses(p), Fail(m), input, lo, fuel);
  }

  lemma IdentifierHalts<U>(g: Grammar<U>, input: seq<char>, lo: nat, fuel: nat)
    ensures HaltsFrom(g, Consumers.Identifier(), input, lo, fuel)
  {
    forall j | lo <= j <= |input| ensures Halts(g, Consumers.Identifier(), input, j, fuel) {
      Consumers.IdentifierLaw(g, input, j, fuel);
    }
  }

  lemma OperatorTokenHalts(input: seq<char>, lo: nat, fuel: nat)
    ensures HaltsFrom(Rules(), OperatorToken(), input, lo, fuel)
  {
    forall j | lo <= j <= |input| ensures Halts(Rules(), OperatorToken(), input, j, fuel) {
      OperatorTokenLaw(Rules(), input, j, fuel);
    }
  }

  lemma AtomExpHalts(input: seq<char>, lo: nat, fuel: nat)
    ensures HaltsFrom(Rules(), AtomExp(), input, lo, fuel)
  {
    forall j | lo <= j <= |input| ensures Halts(Rules(), AtomExp(), input, j, fuel) {
      AtomExpLaw(Rules(), input, j, fuel);
    }
  }

  /** The let form: the bindings are bracketed, so `many` over them moves
      on with every binding it reads. */
  lemma LetExpHalts(input: seq<char>, pos: nat, fuel: nat)
    requires fuel >= 1 && HaltsFrom(Rules(), SubExp(), input, pos + 1, fuel - 1)
    ensures HaltsFrom(Rules(), LetExp(), input, pos, fuel)
  {
    var lo := pos + 1;
    IdentifierHalts(Rules(), input, lo, fuel - 1);
    PairHalts(Rules(), Consumers.Identifier(), SubExp(), input, lo, fuel - 1);
    HaltsFromLater(Rules(), BindingCore(), input, lo, lo + 1, fuel - 1);
    InParenthesesHalts(Rules(), BindingCore(), input, lo, fuel - 1);
    FailHalts(Rules(), Binding().right.message, input, lo, fuel - 1);
    OrHalts(Rules(), InParentheses(BindingCore()), Binding().right, input, lo, fuel - 1);
    BindingConsumes(input, lo, fuel - 1);
    ManyHalts(Rules(), Binding(), input, lo, fuel - 1);
    MapHalts(Rules(), Many(Binding()), CollectEnv, input, lo, fuel - 1);
    PairHalts(Rules(), Map(Many(Binding()), CollectEnv), SubExp(), input, lo, fuel - 1);
    var k := (_: Value<Syntax>) => LetBody();
    StrHalts(Rules(), "let", input, lo, fuel);
    FlatMapHalts(Rules(), Str("let"), k, input, lo, fuel);
    MapHalts(Rules(), FlatMap(Str("let"), k), MkLet, input, lo, fuel);
    FormHalts(LetCore(), LetExp().right.message, input, pos, fuel);
  }

  /** A binding that succeeds has read at least its `(`. */
  lemma BindingConsumes(input: seq<char>, lo: nat, fuel: nat)
    requires ConsumesFrom(Rules(), InParentheses(BindingCore()), input, lo, fuel)
    ensures ConsumesFrom(Rules(), Binding(), input, lo, fuel)
  {
    forall j | lo <= j <= |input|
      ensures Run(Rules(), Binding(), input, j, fuel).reply.Success? ==> Run(Rules(), Binding(), input, j, fuel).pos > j
    {
      OrLaw(Rules(), InParentheses(BindingCore()), Binding().right, input, j, fuel);
      FailLaw(Rules(), Binding().right.message, input, j, fuel);
    }
  }

  lemma IfExpHalts(input: seq<char>, pos: nat, fuel: nat)
    requires fuel >= 1 && HaltsFrom(Rules(), SubExp(), input, pos + 1, fuel - 1)
    ensures HaltsFrom(Rules(), IfExp(), input, pos, fuel)
  {
    var lo := pos + 1;
    PairHalts(Rules(), SubExp(), SubExp(), input, lo, fuel - 1);
    PairHalts(Rules(), Pair(SubExp(), SubExp()), SubExp(), input, lo, fuel - 1);
    var k := (_: Value<Syntax>) => IfBody();
    StrHalts(Rules(), "if", input, lo, fuel);
    FlatMapHalts(Rules(), Str("if"), k, input, lo, fuel);
    MapHalts(Rules(), FlatMap(Str("if"), k), MkIf, input, lo, fuel);
    FormHalts(IfCore(), IfExp().right.message, input, pos, fuel);
  }

  lemma OperExpHalts(input: seq<char>, pos: nat, fuel: nat)
    requires fuel >= 1 && HaltsFrom(Rules(), SubExp(), input, pos + 1, fuel - 1)
    ensures HaltsFrom(Rules(), OperExp(), input, pos, fuel)
  {
    var lo := pos + 1;
    PairHalts(Rules(), SubExp(), SubExp(), input, lo, fuel - 1);
    forall v ensures HaltsFrom(Rules(), OperBody(v), input, lo, fuel - 1) {
      MapHalts(Rules(), Pair(SubExp(), SubExp()), (w: Value<Syntax>) => MkOper(v, w), input, lo, fuel - 1);
    }
    OperatorTokenHalts(input, lo, fuel);
    FlatMapHalts(Rules(), OperatorToken(), OperBody, input, lo, fuel);
    FormHalts(OperCore(), OperExp().right.message, input, pos, fuel);
  }
}
