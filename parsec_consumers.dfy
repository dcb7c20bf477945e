/** The ready-made parsers of parsec/src/consumers.rs (`char`, `whitespace`,
    `whitespaces`, `alphabetic`, `digit`, `number`, `identifier`, `bool`), built
    from the engine's combinators exactly as the source builds them, and what
    each one reads. `any_char`, `string` and `eos` are the `AnyChar`, `Str` and
    `EOS` parsers themselves. */
module ParsecConsumers {
  import opened RustResult
  import opened Numerals
  import opened ParsecResult
  import opened ParsecSemantics
  import opened ParsecLaws

  // ---------------------------------------------------------------------------
  // Character classes

  /** `char::is_whitespace`: the characters with the Unicode White_Space property. */
  predicate IsWhitespace(c: char) {
    ('\U{9}' <= c <= '\U{D}') || c == ' ' || c == '\U{85}' || c == '\U{A0}' || c == '\U{1680}' ||
    ('\U{2000}' <= c <= '\U{200A}') || c == '\U{2028}' || c == '\U{2029}' || c == '\U{202F}' ||
    c == '\U{205F}' || c == '\U{3000}'
  }

  /** `char::is_ascii_alphabetic`. */
  predicate IsAsciiAlphabetic(c: char) {
    ('A' <= c <= 'Z') || ('a' <= c <= 'z')
  }

  /** The characters `identifier` accepts first, and after the first. */
  predicate IsIdentifierStart(c: char) {
    IsAsciiAlphabetic(c) || c == '_'
  }

  predicate IsIdentifierChar(c: char) {
    IsAsciiAlphabetic(c) || IsDigit(c) || c == '_'
  }

  /** The end of the longest run of characters satisfying `P` from `pos`. */
  function SpanEnd(input: seq<char>, pos: nat, P: char -> bool): (e: nat)
    requires pos <= |input|
    ensures pos <= e <= |input|
    ensures forall i :: pos <= i < e ==> P(input[i])
    ensures e < |input| ==> !P(input[e])
    decreases |input| - pos
  {
    if pos < |input| && P(input[pos]) then SpanEnd(input, pos + 1, P) else pos
  }

  // ---------------------------------------------------------------------------
  // Building blocks shared by the consumers

  /** `any_char().filter(pred).label(msg)`: the shape of `char`, `whitespace`,
      `alphabetic` and `digit`. */
  function CharClass<U>(P: char -> bool, msg: string): Parser<U> {
    Label(Filter(AnyChar, (v: Value<U>) => v.Chr? && P(v.c)), () => msg)
  }

  /** The values of a run of characters, one `char` each. */
  function Chrs<U>(s: string): (vs: seq<Value<U>>)
    ensures |vs| == |s| && forall i :: 0 <= i < |s| ==> vs[i] == Chr(s[i])
  {
    seq(|s|, i requires 0 <= i < |s| => Chr(s[i]))
  }

  /** `into_iter().collect::<String>()` over a `Vec<char>`. The model's values
      are not typed, so an item that is not a character (which Rust's types
      rule out) is read as NUL. */
  function Chars<U>(vs: seq<Value<U>>): (s: string)
    ensures |s| == |vs| && forall i :: 0 <= i < |vs| && vs[i].Chr? ==> s[i] == vs[i].c
  {
    seq(|vs|, i requires 0 <= i < |vs| => if vs[i].Chr? then vs[i].c else '\0')
  }

  /** The `map(|str| str.into_iter().collect())` after a `many()` of characters. */
  function Collect<U>(v: Value<U>): Value<U> {
    if v.List? then Text(Chars(v.items)) else v
  }

  lemma CollectChrs<U>(s: string)
    ensures Collect(List(Chrs<U>(s))) == Text(s)
  {
    assert Chars(Chrs<U>(s)) == s;
  }

  // ---------------------------------------------------------------------------
  // The consumers

  /** `char(c)`. */
  function Char<U>(c: char): Parser<U> {
    CharClass((x: char) => x == c, "expect '" + [c] + "'")
  }

  /** `whitespace()`. */
  function Whitespace<U>(): Parser<U> {
    CharClass(IsWhitespace, "expect whitespace")
  }

  /** `whitespaces()`. */
  function Whitespaces<U>(): Parser<U> {
    Map(Many(Whitespace()), Collect)
  }

  /** `alphabetic()`. */
  function Alphabetic<U>(): Parser<U> {
    CharClass(IsAsciiAlphabetic, "expect alphabetic")
  }

  /** `digit()`. */
  function Digit<U>(): Parser<U> {
    CharClass(IsDigit, "expect digit")
  }

  /** The `and_then` step of `number`: `str.parse::<i64>()`. */
  function ReadI64<U>(v: Value<U>): Result<Value<U>, string> {
    if v.Text? then
      match ParseI64(v.s)
      case Ok(n) => Ok(Num(n))
      case Err(e) => Err(e)
    else Err("")
  }

  /** `number()`. */
  function Number<U>(): Parser<U> {
    Label(AndThen(Map(Many(Digit()), Collect), ReadI64), () => "expect number")
  }

  /** The characters `identifier` accepts after the first:
      `alphabetic().or(digit()).or(char('_'))`. */
  function IdentifierChar<U>(): Parser<U> {
    Or(Or(Alphabetic(), Digit()), Char('_'))
  }

  /** The final `map` of `identifier`: put the first character in front. */
  function PrependFirst<U>(v: Value<U>): Value<U> {
    if v.Tuple? && v.fst.Chr? && v.snd.Text? then Text([v.fst.c] + v.snd.s) else v
  }

  /** `identifier()`. */
  function Identifier<U>(): Parser<U> {
    Label(Map(Pair(Or(Alphabetic(), Char('_')), Map(Many(IdentifierChar()), Collect)), PrependFirst),
          () => "expect identifier")
  }

  /** `bool()`. */
  function Bool<U>(): Parser<U> {
    Label(Or(Map(Str("true"), (_: Value<U>) => Flag(true)), Map(Str("false"), (_: Value<U>) => Flag(false))),
          () => "expect bool")
  }

  // ---------------------------------------------------------------------------
  // What they read

  /** A character-class parser reads one character of its class. Otherwise it
      fails with its label, at the offset after the character it rejected, or
      at the end of the input; the cursor stays put. */
  lemma CharClassLaw<U>(g: Grammar<U>, P: char -> bool, msg: string, input: seq<char>, pos: nat, fuel: nat)
    requires pos <= |input|
    ensures pos < |input| && P(input[pos]) ==>
      Run(g, CharClass(P, msg), input, pos, fuel) == Step(Success(Chr(input[pos])), pos + 1)
    ensures pos < |input| && !P(input[pos]) ==>
      Run(g, CharClass(P, msg), input, pos, fuel) == Step(Failure(Error(pos + 1, msg)), pos)
    ensures pos == |input| ==>
      Run(g, CharClass(P, msg), input, pos, fuel) == Step(Failure(Error(pos, msg)), pos)
  {
    var f := (v: Value<U>) => v.Chr? && P(v.c);
    AnyCharLaw(g, input, pos, fuel);
    FilterLaw(g, AnyChar, f, input, pos, fuel);
    LabelLaw(g, Filter(AnyChar, f), () => msg, input, pos, fuel);
  }

  /** `q` behaves at `p` like a parser of one character of class `P`: it reads
      such a character, or fails. */
  ghost predicate ReadsClass<U>(g: Grammar<U>, q: Parser<U>, P: char -> bool, input: seq<char>, p: nat, fuel: nat)
    requires p <= |input|
  {
    (p < |input| && P(input[p]) ==> Run(g, q, input, p, fuel) == Step(Success(Chr(input[p])), p + 1)) &&
    (!(p < |input| && P(input[p])) ==> Run(g, q, input, p, fuel).reply.Failure?)
  }

  lemma {:induction false} ClassIterates<U>(g: Grammar<U>, q: Parser<U>, P: char -> bool, input: seq<char>,
                                            pos: nat, fuel: nat)
    requires pos <= |input|
    requires forall p | pos <= p <= |input| :: ReadsClass(g, q, P, input, p, fuel)
    ensures var e := SpanEnd(input, pos, P);
      Iterates(g, q, input, pos, fuel, Chrs<U>(input[pos..e]), e)
    decreases |input| - pos
  {
    var e := SpanEnd(input, pos, P);
    assert ReadsClass(g, q, P, input, pos, fuel);
    if pos < |input| && P(input[pos]) {
      ClassIterates(g, q, P, input, pos + 1, fuel);
      assert Chrs<U>(input[pos..e])[1..] == Chrs<U>(input[pos + 1..e]);
    }
  }

  /** `many()` of a character-class parser reads the longest run of the class
      and never fails. */
  lemma ManyClassLaw<U>(g: Grammar<U>, q: Parser<U>, P: char -> bool, input: seq<char>, pos: nat, fuel: nat)
    requires pos <= |input|
    requires forall p | pos <= p <= |input| :: ReadsClass(g, q, P, input, p, fuel)
    ensures var e := SpanEnd(input, pos, P);
      Run(g, Many(q), input, pos, fuel) == Step(Success(List(Chrs<U>(input[pos..e]))), e)
  {
    var e := SpanEnd(input, pos, P);
    ClassIterates(g, q, P, input, pos, fuel);
    assert ReadsClass(g, q, P, input, e, fuel);
    ManyLaw(g, q, input, pos, fuel, Chrs<U>(input[pos..e]), e);
  }

  lemma CharClassReads<U>(g: Grammar<U>, P: char -> bool, msg: string, input: seq<char>, pos: nat, fuel: nat)
    requires pos <= |input|
    ensures forall p | pos <= p <= |input| :: ReadsClass(g, CharClass(P, msg), P, input, p, fuel)
  {
    forall p | pos <= p <= |input|
      ensures ReadsClass(g, CharClass(P, msg), P, input, p, fuel)
    {
      CharClassLaw(g, P, msg, input, p, fuel);
    }
  }

  /** `many()` of a character-class parser, collected into a string: the run itself. */
  lemma CollectedClassLaw<U>(g: Grammar<U>, P: char -> bool, msg: string, input: seq<char>, pos: nat, fuel: nat)
    requires pos <= |input|
    ensures var e := SpanEnd(input, pos, P);
      Run(g, Map(Many(CharClass(P, msg)), Collect), input, pos, fuel) == Step(Success(Text(input[pos..e])), e)
  {
    var e := SpanEnd(input, pos, P);
    CharClassReads(g, P, msg, input, pos, fuel);
    ManyClassLaw(g, CharClass(P, msg), P, input, pos, fuel);
    MapLaw(g, Many(CharClass(P, msg)), Collect, input, pos, fuel);
    CollectChrs<U>(input[pos..e]);
  }

  /** `char(c)`: `c` itself, or a failure labelled "expect 'c'". */
  lemma CharLaw<U>(g: Grammar<U>, c: char, input: seq<char>, pos: nat, fuel: nat)
    requires pos <= |input|
    ensures pos < |input| && input[pos] == c ==>
      Run(g, Char(c), input, pos, fuel) == Step(Success(Chr(c)), pos + 1)
    ensures pos < |input| && input[pos] != c ==>
      Run(g, Char(c), input, pos, fuel) == Step(Failure(Error(pos + 1, "expect '" + [c] + "'")), pos)
    ensures pos == |input| ==>
      Run(g, Char(c), input, pos, fuel) == Step(Failure(Error(pos, "expect '" + [c] + "'")), pos)
  {
    CharClassLaw(g, (x: char) => x == c, "expect '" + [c] + "'", input, pos, fuel);
  }

  /** `whitespaces()`: the longest run of white space, possibly empty; it never fails. */
  lemma WhitespacesLaw<U>(g: Grammar<U>, input: seq<char>, pos: nat, fuel: nat)
    requires pos <= |input|
    ensures var e := SpanEnd(input, pos, IsWhitespace);
      Run(g, Whitespaces(), input, pos, fuel) == Step(Success(Text(input[pos..e])), e)
  {
    CollectedClassLaw(g, IsWhitespace, "expect whitespace", input, pos, fuel);
  }

  /** `number()`: the longest run of decimal digits read as an i64. No digits
      fails where it started; a run too large for i64 fails at its end. Both
      errors are labelled "expect number" and leave the cursor put. */
  lemma NumberLaw<U>(g: Grammar<U>, input: seq<char>, pos: nat, fuel: nat)
    requires pos <= |input|
    ensures var e := SpanEnd(input, pos, IsDigit); var d := input[pos..e];
      AllDigits(d) &&
      (d == [] ==> Run(g, Number(), input, pos, fuel) == Step(Failure(Error(pos, "expect number")), pos)) &&
      (d != [] && DigitsValue(d) <= MaxI64 ==>
         Run(g, Number(), input, pos, fuel) == Step(Success(Num(DigitsValue(d))), e)) &&
      (d != [] && DigitsValue(d) > MaxI64 ==>
         Run(g, Number(), input, pos, fuel) == Step(Failure(Error(e, "expect number")), pos))
  {
    var e := SpanEnd(input, pos, IsDigit);
    var d := input[pos..e];
    var digits := Map(Many(Digit<U>()), Collect);
    CollectedClassLaw(g, IsDigit, "expect digit", input, pos, fuel);
    assert Run(g, digits, input, pos, fuel) == Step(Success(Text(d)), e);
    AndThenLaw(g, digits, ReadI64, input, pos, fuel);
    LabelLaw(g, AndThen(digits, ReadI64), () => "expect number", input, pos, fuel);
  }

  /** `identifier()`: a letter or `_`, then the longest run of letters, digits
      and `_`, as one string. Otherwise a failure labelled "expect identifier"
      at the offset after the rejected character, or at the end of the input. */
  lemma IdentifierLaw<U>(g: Grammar<U>, input: seq<char>, pos: nat, fuel: nat)
    requires pos <= |input|
    ensures pos < |input| && IsIdentifierStart(input[pos]) ==>
      var e := SpanEnd(input, pos + 1, IsIdentifierChar);
      Run(g, Identifier(), input, pos, fuel) == Step(Success(Text(input[pos..e])), e)
    ensures pos < |input| && !IsIdentifierStart(input[pos]) ==>
      Run(g, Identifier(), input, pos, fuel) == Step(Failure(Error(pos + 1, "expect identifier")), pos)
    ensures pos == |input| ==>
      Run(g, Identifier(), input, pos, fuel) == Step(Failure(Error(pos, "expect identifier")), pos)
  {
    var first := Or(Alphabetic<U>(), Char('_'));
    var rest := Map(Many(IdentifierChar<U>()), Collect);
    FirstCharLaw(g, input, pos, fuel);
    PairLaw(g, first, rest, input, pos, fuel);
    MapLaw(g, Pair(first, rest), PrependFirst, input, pos, fuel);
    LabelLaw(g, Map(Pair(first, rest), PrependFirst), () => "expect identifier", input, pos, fuel);
    if pos < |input| && IsIdentifierStart(input[pos]) {
      var e := SpanEnd(input, pos + 1, IsIdentifierChar);
      IdentifierCharReads(g, input, pos + 1, fuel);
      ManyClassLaw(g, IdentifierChar<U>(), IsIdentifierChar, input, pos + 1, fuel);
      MapLaw(g, Many(IdentifierChar<U>()), Collect, input, pos + 1, fuel);
      CollectChrs<U>(input[pos + 1..e]);
      assert [input[pos]] + input[pos + 1..e] == input[pos..e];
    }
  }

  /** The first character of an identifier: `alphabetic().or(char('_'))`. */
  lemma FirstCharLaw<U>(g: Grammar<U>, input: seq<char>, pos: nat, fuel: nat)
    requires pos <= |input|
    ensures pos < |input| && IsIdentifierStart(input[pos]) ==>
      Run(g, Or(Alphabetic<U>(), Char('_')), input, pos, fuel) == Step(Success(Chr(input[pos])), pos + 1)
    ensures pos < |input| && !IsIdentifierStart(input[pos]) ==>
      Run(g, Or(Alphabetic<U>(), Char('_')), input, pos, fuel) == Step(Failure(Error(pos + 1, "expect '_'")), pos)
    ensures pos == |input| ==>
      Run(g, Or(Alphabetic<U>(), Char('_')), input, pos, fuel) == Step(Failure(Error(pos, "expect '_'")), pos)
  {
    CharClassLaw(g, IsAsciiAlphabetic, "expect alphabetic", input, pos, fuel);
    CharLaw(g, '_', input, pos, fuel);
    OrLaw(g, Alphabetic<U>(), Char('_'), input, pos, fuel);
  }

  /** `alphabetic().or(digit()).or(char('_'))` reads one identifier character. */
  lemma IdentifierCharReads<U>(g: Grammar<U>, input: seq<char>, pos: nat, fuel: nat)
    requires pos <= |input|
    ensures forall p | pos <= p <= |input| :: ReadsClass(g, IdentifierChar<U>(), IsIdentifierChar, input, p, fuel)
  {
    forall p | pos <= p <= |input|
      ensures ReadsClass(g, IdentifierChar<U>(), IsIdentifierChar, input, p, fuel)
    {
      CharClassLaw(g, IsAsciiAlphabetic, "expect alphabetic", input, p, fuel);
      CharClassLaw(g, IsDigit, "expect digit", input, p, fuel);
      CharLaw(g, '_', input, p, fuel);
      OrLaw(g, Alphabetic<U>(), Digit<U>(), input, p, fuel);
      OrLaw(g, Or(Alphabetic<U>(), Digit<U>()), Char('_'), input, p, fuel);
    }
  }

  /** `bool()`: the literal `true` or `false`, tried in that order; otherwise a
      failure labelled "expect bool" at the starting offset. */
  lemma BoolLaw<U>(g: Grammar<U>, input: seq<char>, pos: nat, fuel: nat)
    requires pos <= |input|
    ensures StartsWith(input, pos, "true") ==>
      Run(g, Bool(), input, pos, fuel) == Step(Success(Flag(true)), pos + 4)
    ensures !StartsWith(input, pos, "true") && StartsWith(input, pos, "false") ==>
      Run(g, Bool(), input, pos, fuel) == Step(Success(Flag(false)), pos + 5)
    ensures !StartsWith(input, pos, "true") && !StartsWith(input, pos, "false") ==>
      Run(g, Bool(), input, pos, fuel) == Step(Failure(Error(pos, "expect bool")), pos)
  {
    var t := Map(Str("true"), (_: Value<U>) => Flag(true));
    var f := Map(Str("false"), (_: Value<U>) => Flag(false));
    StringLaw(g, "true", input, pos, fuel);
    StringLaw(g, "false", input, pos, fuel);
    MapLaw(g, Str("true"), (_: Value<U>) => Flag(true), input, pos, fuel);
    MapLaw(g, Str("false"), (_: Value<U>) => Flag(false), input, pos, fuel);
    OrLaw(g, t, f, input, pos, fuel);
    LabelLaw(g, Or(t, f), () => "expect bool", input, pos, fuel);
  }
}
