/** The `ParserExt` helpers of s-expression/src/parser.rs (`map_box`,
    `trim_whitespaces`, `in_parentheses`) and their laws, stated for any
    grammar. */
module SExprParserExt {
  import opened RustResult
  import opened ParsecResult
  import opened ParsecSemantics
  import opened ParsecLaws
  import Consumers = ParsecConsumers

  /** `map_box`: `Box::new` changes nothing about the value. */
  function MapBox<U>(p: Parser<U>): Parser<U> {
    Any(Map(p, (v: Value<U>) => v))
  }

  /** `trim_whitespaces`: optional white space on both sides. */
  function TrimWhitespaces<U>(p: Parser<U>): Parser<U> {
    Any(Between(p, Consumers.Whitespaces(), Consumers.Whitespaces()))
  }

  /** `in_parentheses`: white space, `(`, white space, `p`, white space, `)`,
      white space. */
  function InParentheses<U>(p: Parser<U>): Parser<U> {
    Any(TrimWhitespaces(Between(TrimWhitespaces(p), Consumers.Char('('), Consumers.Char(')'))))
  }

  /** The end of the white space starting at `pos`. */
  function SkipWhitespace(input: seq<char>, pos: nat): (e: nat)
    requires pos <= |input|
    ensures pos <= e <= |input|
  {
    Consumers.SpanEnd(input, pos, Consumers.IsWhitespace)
  }

  lemma SkipWhitespaceIdempotent(input: seq<char>, pos: nat)
    requires pos <= |input|
    ensures SkipWhitespace(input, SkipWhitespace(input, pos)) == SkipWhitespace(input, pos)
  {
  }

  lemma MapBoxLaw<U>(g: Grammar<U>, p: Parser<U>, input: seq<char>, pos: nat, fuel: nat)
    requires pos <= |input|
    ensures Run(g, MapBox(p), input, pos, fuel) == Run(g, p, input, pos, fuel)
  {
    MapLaw(g, p, (v: Value<U>) => v, input, pos, fuel);
  }

  /** `SkipWhitespace` as a function value, so that the laws below can take
      any white-space skipper. */
  function WsEnd(input: seq<char>): nat -> nat {
    (n: nat) => if n <= |input| then SkipWhitespace(input, n) else n
  }

  /** `skip` stays within the input and never moves backwards. */
  ghost predicate Skipper(skip: nat -> nat, input: seq<char>) {
    forall p | 0 <= p <= |input| :: p <= skip(p) <= |input|
  }

  /** `w` succeeds everywhere, consuming up to `skip`'s offset. */
  ghost predicate Skips<U>(g: Grammar<U>, w: Parser<U>, skip: nat -> nat, input: seq<char>, fuel: nat) {
    Skipper(skip, input) &&
    forall p | 0 <= p <= |input| ::
      Run(g, w, input, p, fuel).reply.Success? && Run(g, w, input, p, fuel).pos == skip(p)
  }

  /** `q` behaves as `char(c)` with failure message `msg` everywhere. */
  ghost predicate ReadsChar<U>(g: Grammar<U>, q: Parser<U>, c: char, msg: string, input: seq<char>, fuel: nat) {
    forall p | 0 <= p <= |input| ::
      (p < |input| && input[p] == c ==> Run(g, q, input, p, fuel) == Step(Success(Chr(c)), p + 1)) &&
      (p < |input| && input[p] != c ==> Run(g, q, input, p, fuel) == Step(Failure(Error(p + 1, msg)), p)) &&
      (p == |input| ==> Run(g, q, input, p, fuel) == Step(Failure(Error(p, msg)), p))
  }

  lemma WhitespacesSkip<U>(g: Grammar<U>, input: seq<char>, fuel: nat)
    ensures Skips(g, Consumers.Whitespaces(), WsEnd(input), input, fuel)
  {
    forall p | 0 <= p <= |input|
      ensures Run(g, Consumers.Whitespaces(), input, p, fuel).reply.Success? &&
              Run(g, Consumers.Whitespaces(), input, p, fuel).pos == WsEnd(input)(p)
    {
      Consumers.WhitespacesLaw(g, input, p, fuel);
    }
  }

  lemma CharReads<U>(g: Grammar<U>, c: char, input: seq<char>, fuel: nat)
    ensures ReadsChar(g, Consumers.Char(c), c, "expect '" + [c] + "'", input, fuel)
  {
    forall p | 0 <= p <= |input|
      ensures (p < |input| && input[p] == c ==> Run(g, Consumers.Char(c), input, p, fuel) == Step(Success(Chr(c)), p + 1)) &&
        (p < |input| && input[p] != c ==>
           Run(g, Consumers.Char(c), input, p, fuel) == Step(Failure(Error(p + 1, "expect '" + [c] + "'")), p)) &&
        (p == |input| ==> Run(g, Consumers.Char(c), input, p, fuel) == Step(Failure(Error(p, "expect '" + [c] + "'")), p))
    {
      Consumers.CharLaw(g, c, input, p, fuel);
    }
  }

  /** `p` between two white-space skippers. */
  lemma TrimLaw<U>(g: Grammar<U>, p: Parser<U>, w: Parser<U>, skip: nat -> nat, input: seq<char>, pos: nat, fuel: nat)
    requires pos <= |input|
    requires Skips(g, w, skip, input, fuel)
    ensures var s, t := Run(g, Any(Between(p, w, w)), input, pos, fuel), Run(g, p, input, skip(pos), fuel);
      (t.reply.Success? ==> s == Step(t.reply, skip(t.pos))) &&
      (t.reply.Failure? ==> s == Step(t.reply, pos)) &&
      (t.reply.Diverged? ==> s == t)
  {
    BetweenLaw(g, p, w, w, input, pos, fuel);
  }

  /** The success case of `TrimLaw`. */
  lemma TrimSucceeds<U>(g: Grammar<U>, p: Parser<U>, w: Parser<U>, skip: nat -> nat, input: seq<char>, pos: nat,
                        fuel: nat, v: Value<U>, j: nat)
    requires pos <= |input|
    requires Skips(g, w, skip, input, fuel)
    requires Run(g, p, input, skip(pos), fuel) == Step(Success(v), j)
    ensures Run(g, Any(Between(p, w, w)), input, pos, fuel) == Step(Success(v), skip(j))
  {
    TrimLaw(g, p, w, skip, input, pos, fuel);
  }

  /** The non-success cases of `TrimLaw`. */
  lemma TrimStops<U>(g: Grammar<U>, p: Parser<U>, w: Parser<U>, skip: nat -> nat, input: seq<char>, pos: nat,
                     fuel: nat, t: Step<U>)
    requires pos <= |input|
    requires Skips(g, w, skip, input, fuel)
    requires Run(g, p, input, skip(pos), fuel) == t && !t.reply.Success?
    ensures Run(g, Any(Between(p, w, w)), input, pos, fuel) == if t.reply.Failure? then Step(t.reply, pos) else t
  {
    TrimLaw(g, p, w, skip, input, pos, fuel);
  }

  /** `p.trim_whitespaces()` is `p` run after the leading white space, followed
      by the trailing white space; its failure puts the cursor back. */
  lemma TrimWhitespacesLaw<U>(g: Grammar<U>, p: Parser<U>, input: seq<char>, pos: nat, fuel: nat)
    requires pos <= |input|
    ensures var s, t := Run(g, TrimWhitespaces(p), input, pos, fuel), Run(g, p, input, SkipWhitespace(input, pos), fuel);
      (t.reply.Success? ==> s == Step(t.reply, SkipWhitespace(input, t.pos))) &&
      (t.reply.Failure? ==> s == Step(t.reply, pos)) &&
      (t.reply.Diverged? ==> s == t)
  {
    WhitespacesSkip(g, input, fuel);
    TrimLaw(g, p, Consumers.Whitespaces(), WsEnd(input), input, pos, fuel);
  }

  /** What the bracketed part of `in_parentheses` makes of the input from `a`,
      where the outer leading white space ends: `(`, then `p` after white
      space, then white space and `)`. A failure reports the cursor at
      `start`; after a success the cursor is past the `)` and, when `trailing`,
      past the white space after it. */
  ghost function BracketStep<U>(g: Grammar<U>, p: Parser<U>, skip: nat -> nat, input: seq<char>, a: nat,
                                fuel: nat, start: nat, trailing: bool): Step<U>
    requires a <= |input| && Skipper(skip, input)
  {
    if a == |input| then Step(Failure(Error(a, "expect '('")), start)
    else if input[a] != '(' then Step(Failure(Error(a + 1, "expect '('")), start)
    else
      CloseStep(Run(g, p, input, skip(a + 1), fuel), skip, input, start, trailing)
  }

  /** The rest of `BracketStep` once `p` has given `t`: white space and `)`. */
  ghost function CloseStep<U>(t: Step<U>, skip: nat -> nat, input: seq<char>, start: nat, trailing: bool): Step<U>
    requires t.pos <= |input| && Skipper(skip, input)
  {
    if t.reply.Failure? then Step(t.reply, start)
    else if t.reply.Diverged? then t
    else
      var c := skip(t.pos);
      if c == |input| then Step(Failure(Error(c, "expect ')'")), start)
      else if input[c] != ')' then Step(Failure(Error(c + 1, "expect ')'")), start)
      else Step(t.reply, if trailing then skip(c + 1) else c + 1)
  }

  lemma BracketNoOpen<U>(g: Grammar<U>, p: Parser<U>, w: Parser<U>, skip: nat -> nat, open: Parser<U>,
                         close: Parser<U>, input: seq<char>, a: nat, fuel: nat)
    requires a <= |input| && Skipper(skip, input)
    requires ReadsChar(g, open, '(', "expect '('", input, fuel)
    requires a == |input| || input[a] != '('
    ensures Run(g, Between(Any(Between(p, w, w)), open, close), input, a, fuel)
         == BracketStep(g, p, skip, input, a, fuel, a, false)
  {
    if a == |input| {
      assert Run(g, open, input, a, fuel) == Step(Failure(Error(a, "expect '('")), a);
    } else {
      assert Run(g, open, input, a, fuel) == Step(Failure(Error(a + 1, "expect '('")), a);
    }
    BetweenLeftStops(g, Any(Between(p, w, w)), open, close, input, a, fuel);
  }

  lemma BracketInnerFails<U>(g: Grammar<U>, p: Parser<U>, w: Parser<U>, skip: nat -> nat, open: Parser<U>,
                             close: Parser<U>, input: seq<char>, a: nat, fuel: nat)
    requires a < |input| && input[a] == '('
    requires Skips(g, w, skip, input, fuel)
    requires ReadsChar(g, open, '(', "expect '('", input, fuel)
    requires !Run(g, p, input, skip(a + 1), fuel).reply.Success?
    ensures Run(g, Between(Any(Between(p, w, w)), open, close), input, a, fuel)
         == BracketStep(g, p, skip, input, a, fuel, a, false)
  {
    var t := Run(g, p, input, skip(a + 1), fuel);
    TrimStops(g, p, w, skip, input, a + 1, fuel, t);
    assert BracketStep(g, p, skip, input, a, fuel, a, false) == if t.reply.Failure? then Step(t.reply, a) else t;
    BetweenParentStops(g, Any(Between(p, w, w)), open, close, input, a, fuel, Chr('('), a + 1,
                       Run(g, Any(Between(p, w, w)), input, a + 1, fuel));
  }

  /** The opening parenthesis and `p` succeed; the cursor then sits at `c`. */
  ghost predicate InnerSucceeds<U>(g: Grammar<U>, p: Parser<U>, skip: nat -> nat, input: seq<char>, a: nat, fuel: nat, c: nat)
    requires Skipper(skip, input)
  {
    a < |input| && input[a] == '(' &&
    Run(g, p, input, skip(a + 1), fuel).reply.Success? &&
    c == skip(Run(g, p, input, skip(a + 1), fuel).pos)
  }

  lemma BracketNoClose<U>(g: Grammar<U>, p: Parser<U>, w: Parser<U>, skip: nat -> nat, open: Parser<U>,
                          close: Parser<U>, input: seq<char>, a: nat, fuel: nat, c: nat)
    requires Skips(g, w, skip, input, fuel)
    requires ReadsChar(g, open, '(', "expect '('", input, fuel) && ReadsChar(g, close, ')', "expect ')'", input, fuel)
    requires InnerSucceeds(g, p, skip, input, a, fuel, c)
    requires c == |input| || input[c] != ')'
    ensures Run(g, Between(Any(Between(p, w, w)), open, close), input, a, fuel)
         == BracketStep(g, p, skip, input, a, fuel, a, false)
  {
    var t := Run(g, p, input, skip(a + 1), fuel);
    TrimSucceeds(g, p, w, skip, input, a + 1, fuel, t.reply.value, t.pos);
    var e := if c == |input| then Error(c, "expect ')'") else Error(c + 1, "expect ')'");
    assert BracketStep(g, p, skip, input, a, fuel, a, false) == Step(Failure(e), a);
    BetweenRightFails(g, Any(Between(p, w, w)), open, close, input, a, fuel, Chr('('), t.reply.value, a + 1, c, e);
  }

  lemma BracketClosed<U>(g: Grammar<U>, p: Parser<U>, w: Parser<U>, skip: nat -> nat, open: Parser<U>,
                         close: Parser<U>, input: seq<char>, a: nat, fuel: nat, c: nat)
    requires Skips(g, w, skip, input, fuel)
    requires ReadsChar(g, open, '(', "expect '('", input, fuel) && ReadsChar(g, close, ')', "expect ')'", input, fuel)
    requires InnerSucceeds(g, p, skip, input, a, fuel, c)
    requires c < |input| && input[c] == ')'
    ensures Run(g, Between(Any(Between(p, w, w)), open, close), input, a, fuel)
         == BracketStep(g, p, skip, input, a, fuel, a, false)
  {
    var t := Run(g, p, input, skip(a + 1), fuel);
    TrimSucceeds(g, p, w, skip, input, a + 1, fuel, t.reply.value, t.pos);
    assert BracketStep(g, p, skip, input, a, fuel, a, false) == Step(Success(t.reply.value), c + 1);
    BetweenSucceeds(g, Any(Between(p, w, w)), open, close, input, a, fuel,
                    Chr('('), t.reply.value, Chr(')'), a + 1, c, c + 1);
  }

  /** The bracketed part of `in_parentheses`, over abstract white-space and
      bracket parsers. */
  lemma BracketLaw<U>(g: Grammar<U>, p: Parser<U>, w: Parser<U>, skip: nat -> nat, open: Parser<U>,
                      close: Parser<U>, input: seq<char>, a: nat, fuel: nat)
    requires a <= |input|
    requires Skips(g, w, skip, input, fuel)
    requires ReadsChar(g, open, '(', "expect '('", input, fuel) && ReadsChar(g, close, ')', "expect ')'", input, fuel)
    ensures Run(g, Between(Any(Between(p, w, w)), open, close), input, a, fuel)
         == BracketStep(g, p, skip, input, a, fuel, a, false)
  {
    if a == |input| || input[a] != '(' {
      BracketNoOpen(g, p, w, skip, open, close, input, a, fuel);
    } else if Run(g, p, input, skip(a + 1), fuel).reply.Success? {
      var c := skip(Run(g, p, input, skip(a + 1), fuel).pos);
      if c == |input| || input[c] != ')' {
        BracketNoClose(g, p, w, skip, open, close, input, a, fuel, c);
      } else {
        BracketClosed(g, p, w, skip, open, close, input, a, fuel, c);
      }
    } else {
      BracketInnerFails(g, p, w, skip, open, close, input, a, fuel);
    }
  }

  /** Skipping the trailing white space after the bracketed part, and putting
      the cursor back to `start` on failure, is `BracketStep` with `start` and
      `trailing`. */
  lemma BracketStepTrailing<U>(g: Grammar<U>, p: Parser<U>, skip: nat -> nat, input: seq<char>, a: nat,
                               fuel: nat, start: nat)
    requires a <= |input| && start <= |input| && Skipper(skip, input)
    ensures BracketStep(g, p, skip, input, a, fuel, a, false).pos <= |input|
    ensures var b, s := BracketStep(g, p, skip, input, a, fuel, a, false), BracketStep(g, p, skip, input, a, fuel, start, true);
      (b.reply.Success? ==> s == Step(b.reply, skip(b.pos))) &&
      (b.reply.Failure? ==> s == Step(b.reply, start)) &&
      (b.reply.Diverged? ==> s == b)
  {
    if a < |input| && input[a] == '(' {
      CloseStepTrailing(Run(g, p, input, skip(a + 1), fuel), skip, input, a, start);
    }
  }

  lemma CloseStepTrailing<U>(t: Step<U>, skip: nat -> nat, input: seq<char>, a: nat, start: nat)
    requires t.pos <= |input| && a <= |input| && start <= |input| && Skipper(skip, input)
    ensures CloseStep(t, skip, input, a, false).pos <= |input|
    ensures var b, s := CloseStep(t, skip, input, a, false), CloseStep(t, skip, input, start, true);
      (b.reply.Success? ==> s == Step(b.reply, skip(b.pos))) &&
      (b.reply.Failure? ==> s == Step(b.reply, start)) &&
      (b.reply.Diverged? ==> s == b)
  {
  }

  /** `in_parentheses` over abstract white-space and bracket parsers. */
  lemma ParenthesesLaw<U>(g: Grammar<U>, p: Parser<U>, w: Parser<U>, skip: nat -> nat, open: Parser<U>,
                          close: Parser<U>, input: seq<char>, pos: nat, fuel: nat)
    requires pos <= |input|
    requires Skips(g, w, skip, input, fuel)
    requires ReadsChar(g, open, '(', "expect '('", input, fuel) && ReadsChar(g, close, ')', "expect ')'", input, fuel)
    ensures skip(pos) <= |input|
    ensures Run(g, Any(Any(Between(Between(Any(Between(p, w, w)), open, close), w, w))), input, pos, fuel)
         == BracketStep(g, p, skip, input, skip(pos), fuel, pos, true)
  {
    BracketLaw(g, p, w, skip, open, close, input, skip(pos), fuel);
    TrimLaw(g, Between(Any(Between(p, w, w)), open, close), w, skip, input, pos, fuel);
    BracketStepTrailing(g, p, skip, input, skip(pos), fuel, pos);
  }

  /** `p.in_parentheses()`: white space, `(`, `p` between optional white space,
      `)`, white space; `p`'s value. A missing parenthesis fails with the
      `char` error, at the offset after the character found instead or at the
      end of the input; any failure puts the cursor back. */
  lemma InParenthesesLaw<U>(g: Grammar<U>, p: Parser<U>, input: seq<char>, pos: nat, fuel: nat)
    requires pos <= |input|
    ensures Skipper(WsEnd(input), input)
    ensures Run(g, InParentheses(p), input, pos, fuel)
         == BracketStep(g, p, WsEnd(input), input, SkipWhitespace(input, pos), fuel, pos, true)
  {
    WhitespacesSkip(g, input, fuel);
    CharReads(g, '(', input, fuel);
    CharReads(g, ')', input, fuel);
    assert "expect '" + ['('] + "'" == "expect '('";
    assert "expect '" + [')'] + "'" == "expect ')'";
    ParenthesesLaw(g, p, Consumers.Whitespaces(), WsEnd(input), Consumers.Char('('), Consumers.Char(')'), input, pos, fuel);
  }
}
