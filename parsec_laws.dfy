/** What the parsers of parsec/src promise, stated over `ParsecSemantics.Run`
    (that is, `parse`): how failures roll the cursor back, what each adapter
    returns in terms of its parts, and how the leaf parsers behave. */
module ParsecLaws {
  import opened RustResult
  import opened ParsecResult
  import opened ParsecContext
  import opened ParsecSemantics

  // ---------------------------------------------------------------------------
  // The parser contract

  /** A successful (or diverging) `parse` is exactly its `parse_raw`; a failed
      one reports `parse_raw`'s error and puts the cursor back where it began. */
  lemma ParseIsRollback<U>(g: Grammar<U>, p: Parser<U>, input: seq<char>, pos: nat, fuel: nat)
    requires pos <= |input|
    ensures var s, raw := Run(g, p, input, pos, fuel), RawRun(g, p, input, pos, fuel);
      s.reply == raw.reply && (if raw.reply.Failure? then s.pos == pos else s.pos == raw.pos)
  {
  }

  /** A second transaction around a `parse` changes neither its reply nor its
      final offset. */
  lemma ParseIdempotent<U>(g: Grammar<U>, p: Parser<U>, input: seq<char>, pos: nat, fuel: nat)
    requires pos <= |input|
    ensures Transaction(pos, Run(g, p, input, pos, fuel)) == Run(g, p, input, pos, fuel)
  {
  }

  // ---------------------------------------------------------------------------
  // Leaf parsers: any_char, string, eos, just, fail

  /** A literal matches exactly when the rest of the input begins with it. */
  predicate StartsWith(input: seq<char>, pos: nat, lit: string)
    requires pos <= |input|
  {
    pos + |lit| <= |input| && input[pos..pos + |lit|] == lit
  }

  /** The `for` loop of `Str::parse_raw` runs to completion exactly when the
      input continues with the literal, and then it has read `|lit|` characters. */
  lemma {:induction false} MatchLiteralSpec(lit: string, input: seq<char>, pos: nat)
    requires pos <= |input|
    ensures MatchLiteral(lit, input, pos).0.Ok? <==> StartsWith(input, pos, lit)
    ensures MatchLiteral(lit, input, pos).0.Ok? ==> MatchLiteral(lit, input, pos).1 == pos + |lit|
    decreases |lit|
  {
    if lit != [] && pos < |input| && input[pos] == lit[0] {
      MatchLiteralSpec(lit[1..], input, pos + 1);
      if StartsWith(input, pos + 1, lit[1..]) {
        assert input[pos..pos + |lit|] == [input[pos]] + input[pos + 1..pos + 1 + |lit[1..]|];
        assert lit == [lit[0]] + lit[1..];
      }
      if StartsWith(input, pos, lit) {
        assert input[pos + 1..pos + 1 + |lit[1..]|] == input[pos..pos + |lit|][1..];
      }
    }
  }

  /** `string(s)`: on input that continues with `s`, the text `s` and an
      advance of exactly `|s|`; otherwise `expect "s"` at the offset matching
      began, with the cursor restored there. */
  lemma StringLaw<U>(g: Grammar<U>, lit: string, input: seq<char>, pos: nat, fuel: nat)
    requires pos <= |input|
    ensures StartsWith(input, pos, lit) ==>
      Run(g, Str(lit), input, pos, fuel) == Step(Success(Text(lit)), pos + |lit|)
    ensures !StartsWith(input, pos, lit) ==>
      Run(g, Str(lit), input, pos, fuel) == Step(Failure(Error(pos, "expect \"" + lit + "\"")), pos)
  {
    MatchLiteralSpec(lit, input, pos);
  }

  /** `string("")` succeeds without consuming anything. */
  lemma EmptyStringLaw<U>(g: Grammar<U>, input: seq<char>, pos: nat, fuel: nat)
    requires pos <= |input|
    ensures Run(g, Str(""), input, pos, fuel) == Step(Success(Text("")), pos)
  {
    StringLaw(g, "", input, pos, fuel);
  }

  /** `any_char`: the character at the cursor, or "end of stream" at the end. */
  lemma AnyCharLaw<U>(g: Grammar<U>, input: seq<char>, pos: nat, fuel: nat)
    requires pos <= |input|
    ensures pos < |input| ==> Run(g, AnyChar, input, pos, fuel) == Step(Success(Chr(input[pos])), pos + 1)
    ensures pos == |input| ==> Run(g, AnyChar, input, pos, fuel) == Step(Failure(Error(pos, "end of stream")), pos)
  {
  }

  /** `eos`: succeeds, consuming nothing, exactly at the end of the input;
      elsewhere it fails at the offset after the character it read, with the
      cursor restored. */
  lemma EosLaw<U>(g: Grammar<U>, input: seq<char>, pos: nat, fuel: nat)
    requires pos <= |input|
    ensures Run(g, EOS, input, pos, fuel).reply.Success? <==> pos == |input|
    ensures pos == |input| ==> Run(g, EOS, input, pos, fuel) == Step(Success(Unit), pos)
    ensures pos < |input| ==>
      Run(g, EOS, input, pos, fuel) == Step(Failure(Error(pos + 1, "expect end of stream")), pos)
  {
  }

  /** `just(f)`: always `f()`, never moving the cursor. */
  lemma JustLaw<U>(g: Grammar<U>, f: () -> Value<U>, input: seq<char>, pos: nat, fuel: nat)
    requires pos <= |input|
    ensures Run(g, Just(f), input, pos, fuel) == Step(Success(f()), pos)
  {
  }

  /** `fail(f)`: always the error `f()` at the cursor, never moving it. */
  lemma FailLaw<U>(g: Grammar<U>, f: () -> string, input: seq<char>, pos: nat, fuel: nat)
    requires pos <= |input|
    ensures Run(g, Fail(f), input, pos, fuel) == Step(Failure(Error(pos, f())), pos)
  {
  }

  /** `p.or(just(f))` never fails: the right branch always succeeds. */
  lemma OrJustNeverFails<U>(g: Grammar<U>, p: Parser<U>, f: () -> Value<U>, input: seq<char>, pos: nat,
                            fuel: nat)
    requires pos <= |input|
    ensures !Run(g, Or(p, Just(f)), input, pos, fuel).reply.Failure?
  {
    OrLaw(g, p, Just(f), input, pos, fuel);
  }

  /** `inner.or(fail(f))` fails with `f()` exactly when `inner` failed no further
      than where it started (ties go right); otherwise `inner`'s error stands. */
  lemma OrFailLaw<U>(g: Grammar<U>, inner: Parser<U>, f: () -> string, input: seq<char>, pos: nat, fuel: nat)
    requires pos <= |input|
    requires Run(g, inner, input, pos, fuel).reply.Failure?
    ensures var e, s := Run(g, inner, input, pos, fuel).reply.error, Run(g, Or(inner, Fail(f)), input, pos, fuel);
      s.pos == pos && s.reply.Failure? &&
      (s.reply.error == Error(pos, f()) <==> e.pos <= pos) &&
      (e.pos > pos ==> s.reply.error == e)
  {
    OrLaw(g, inner, Fail(f), input, pos, fuel);
  }

  /** Calling a grammar-rule function builds its parser afresh, at the cost of
      one unit of fuel. */
  lemma RefLaw<U>(g: Grammar<U>, k: nat, input: seq<char>, pos: nat, fuel: nat)
    requires pos <= |input|
    ensures fuel == 0 ==> Run(g, Ref(k), input, pos, fuel) == Step(Diverged, pos)
    ensures fuel > 0 ==> Run(g, Ref(k), input, pos, fuel) == Run(g, g(k), input, pos, fuel - 1)
  {
    assert RawRun(g, Ref(k), input, pos, fuel) == RefRaw(g, k, input, pos, fuel);
  }

  /** `to_any(p)` behaves exactly as `p.parse`, and so does wrapping it again. */
  lemma AnyLaw<U>(g: Grammar<U>, p: Parser<U>, input: seq<char>, pos: nat, fuel: nat)
    requires pos <= |input|
    ensures Run(g, Any(p), input, pos, fuel) == Run(g, p, input, pos, fuel)
    ensures Run(g, Any(Any(p)), input, pos, fuel) == Run(g, p, input, pos, fuel)
  {
  }

  // ---------------------------------------------------------------------------
  // Adapters

  /** `map`: `f` of the parent's value, at the parent's end; the parent's
      failure otherwise. `debug` is the parent's result unchanged. */
  lemma MapLaw<U>(g: Grammar<U>, q: Parser<U>, f: Value<U> -> Value<U>, input: seq<char>, pos: nat, fuel: nat)
    requires pos <= |input|
    ensures var s, t := Run(g, Map(q, f), input, pos, fuel), Run(g, q, input, pos, fuel);
      s.pos == t.pos &&
      (t.reply.Success? ==> s.reply == Success(f(t.reply.value))) &&
      (!t.reply.Success? ==> s.reply == t.reply)
  {
    assert RawRun(g, Map(q, f), input, pos, fuel) == MapRaw(g, q, f, input, pos, fuel);
  }

  lemma DebugLaw<U>(g: Grammar<U>, q: Parser<U>, input: seq<char>, pos: nat, fuel: nat)
    requires pos <= |input|
    ensures Run(g, Debug(q), input, pos, fuel) == Run(g, q, input, pos, fuel)
  {
  }

  /** `and_then`: a rejection `Err(m)` by `f` is an error with message `m` at the
      offset the parent reached, and the cursor goes back to the start. */
  lemma AndThenLaw<U>(g: Grammar<U>, q: Parser<U>, f: Value<U> -> Result<Value<U>, string>, input: seq<char>,
                      pos: nat, fuel: nat)
    requires pos <= |input|
    ensures var s, t := Run(g, AndThen(q, f), input, pos, fuel), Run(g, q, input, pos, fuel);
      (!t.reply.Success? ==> s == t) &&
      (t.reply.Success? && f(t.reply.value).Ok? ==> s == Step(Success(f(t.reply.value).value), t.pos)) &&
      (t.reply.Success? && f(t.reply.value).Err? ==>
         s == Step(Failure(Error(t.pos, f(t.reply.value).error)), pos))
  {
    assert RawRun(g, AndThen(q, f), input, pos, fuel) == AndThenRaw(g, q, f, input, pos, fuel);
  }

  /** `flat_map`: the parser built from the parent's value runs where the parent
      stopped. */
  lemma FlatMapLaw<U>(g: Grammar<U>, q: Parser<U>, k: Value<U> -> Parser<U>, input: seq<char>, pos: nat,
                      fuel: nat)
    requires pos <= |input|
    ensures var s, t := Run(g, FlatMap(q, k), input, pos, fuel), Run(g, q, input, pos, fuel);
      (!t.reply.Success? ==> s == t) &&
      (t.reply.Success? && fuel > 0 ==>
         var n := Run(g, k(t.reply.value), input, t.pos, fuel - 1);
         s == if n.reply.Failure? then Step(n.reply, pos) else n)
  {
    assert RawRun(g, FlatMap(q, k), input, pos, fuel) == FlatMapRaw(g, q, k, input, pos, fuel);
  }

  /** `pair`: both values in input order; when the right side fails, the
      cursor goes back before the left side too. */
  lemma PairLaw<U>(g: Grammar<U>, l: Parser<U>, r: Parser<U>, input: seq<char>, pos: nat, fuel: nat)
    requires pos <= |input|
    ensures var s, a := Run(g, Pair(l, r), input, pos, fuel), Run(g, l, input, pos, fuel);
      (!a.reply.Success? ==> s == a) &&
      (a.reply.Success? ==>
         var b := Run(g, r, input, a.pos, fuel);
         (b.reply.Success? ==> s == Step(Success(Tuple(a.reply.value, b.reply.value)), b.pos)) &&
         (b.reply.Failure? ==> s == Step(b.reply, pos)) &&
         (b.reply.Diverged? ==> s == b))
  {
    assert RawRun(g, Pair(l, r), input, pos, fuel) == PairRaw(g, l, r, input, pos, fuel);
  }

  /** `use_left` and `use_right` consume what the pair consumes and keep one
      side's value. */
  lemma UseLeftLaw<U>(g: Grammar<U>, l: Parser<U>, r: Parser<U>, input: seq<char>, pos: nat, fuel: nat)
    requires pos <= |input|
    ensures var s, a := Run(g, UseLeft(l, r), input, pos, fuel), Run(g, l, input, pos, fuel);
      (!a.reply.Success? ==> s == a) &&
      (a.reply.Success? ==>
         var b := Run(g, r, input, a.pos, fuel);
         (b.reply.Success? ==> s == Step(Success(a.reply.value), b.pos)) &&
         (b.reply.Failure? ==> s == Step(b.reply, pos)) &&
         (b.reply.Diverged? ==> s == b))
  {
    assert RawRun(g, UseLeft(l, r), input, pos, fuel) == UseLeftRaw(g, l, r, input, pos, fuel);
    MapLaw(g, Pair(l, r), First, input, pos, fuel);
    PairLaw(g, l, r, input, pos, fuel);
  }

  lemma UseRightLaw<U>(g: Grammar<U>, l: Parser<U>, r: Parser<U>, input: seq<char>, pos: nat, fuel: nat)
    requires pos <= |input|
    ensures var s, a := Run(g, UseRight(l, r), input, pos, fuel), Run(g, l, input, pos, fuel);
      (!a.reply.Success? ==> s == a) &&
      (a.reply.Success? ==>
         var b := Run(g, r, input, a.pos, fuel);
         (b.reply.Success? ==> s == Step(Success(b.reply.value), b.pos)) &&
         (b.reply.Failure? ==> s == Step(b.reply, pos)) &&
         (b.reply.Diverged? ==> s == b))
  {
    assert RawRun(g, UseRight(l, r), input, pos, fuel) == UseRightRaw(g, l, r, input, pos, fuel);
    MapLaw(g, Pair(l, r), Second, input, pos, fuel);
    PairLaw(g, l, r, input, pos, fuel);
  }

  /** `between`: when the opener, the parent and the closer parse one after the
      other, the parent's value, having consumed all three; when any of them
      fails, a failure with the cursor back at the start. */
  lemma BetweenLaw<U>(g: Grammar<U>, q: Parser<U>, l: Parser<U>, r: Parser<U>, input: seq<char>, pos: nat,
                      fuel: nat)
    requires pos <= |input|
    ensures var s, a := Run(g, Between(q, l, r), input, pos, fuel), Run(g, l, input, pos, fuel);
      (a.reply.Failure? ==> s == Step(a.reply, pos)) &&
      (a.reply.Diverged? ==> s == a) &&
      (a.reply.Success? ==>
         var b := Run(g, q, input, a.pos, fuel);
         (b.reply.Failure? ==> s == Step(b.reply, pos)) &&
         (b.reply.Diverged? ==> s == b) &&
         (b.reply.Success? ==>
            var c := Run(g, r, input, b.pos, fuel);
            (c.reply.Failure? ==> s == Step(c.reply, pos)) &&
            (c.reply.Diverged? ==> s == c) &&
            (c.reply.Success? ==> s == Step(Success(b.reply.value), c.pos))))
  {
    assert RawRun(g, Between(q, l, r), input, pos, fuel) == BetweenRaw(g, q, l, r, input, pos, fuel);
    UseRightLaw(g, l, q, input, pos, fuel);
    UseLeftLaw(g, UseRight(l, q), r, input, pos, fuel);
  }

  /** `map` of a parent that succeeds. */
  lemma MapSucceeds<U>(g: Grammar<U>, q: Parser<U>, f: Value<U> -> Value<U>, input: seq<char>, pos: nat, fuel: nat,
                       u: Value<U>, i: nat)
    requires pos <= |input|
    requires Run(g, q, input, pos, fuel) == Step(Success(u), i)
    ensures Run(g, Map(q, f), input, pos, fuel) == Step(Success(f(u)), i)
  {
    MapLaw(g, q, f, input, pos, fuel);
  }

  /** `flat_map` when the parent and then the parser built from its value
      succeed. */
  lemma FlatMapSucceeds<U>(g: Grammar<U>, q: Parser<U>, k: Value<U> -> Parser<U>, input: seq<char>, pos: nat,
                           fuel: nat, u: Value<U>, i: nat, v: Value<U>, j: nat)
    requires pos <= |input| && fuel >= 1
    requires Run(g, q, input, pos, fuel) == Step(Success(u), i)
    requires Run(g, k(u), input, i, fuel - 1) == Step(Success(v), j)
    ensures Run(g, FlatMap(q, k), input, pos, fuel) == Step(Success(v), j)
  {
    FlatMapLaw(g, q, k, input, pos, fuel);
  }

  /** `pair` when both sides succeed. */
  lemma PairSucceeds<U>(g: Grammar<U>, l: Parser<U>, r: Parser<U>, input: seq<char>, pos: nat, fuel: nat,
                        u: Value<U>, i: nat, v: Value<U>, j: nat)
    requires pos <= |input|
    requires Run(g, l, input, pos, fuel) == Step(Success(u), i)
    requires Run(g, r, input, i, fuel) == Step(Success(v), j)
    ensures Run(g, Pair(l, r), input, pos, fuel) == Step(Success(Tuple(u, v)), j)
  {
    PairLaw(g, l, r, input, pos, fuel);
  }

  /** `between` when all three parts succeed: the parent's value, the cursor
      after `right`. */
  lemma BetweenSucceeds<U>(g: Grammar<U>, q: Parser<U>, l: Parser<U>, r: Parser<U>, input: seq<char>, pos: nat,
                           fuel: nat, u: Value<U>, v: Value<U>, x: Value<U>, i: nat, j: nat, k: nat)
    requires pos <= |input|
    requires Run(g, l, input, pos, fuel) == Step(Success(u), i)
    requires Run(g, q, input, i, fuel) == Step(Success(v), j)
    requires Run(g, r, input, j, fuel) == Step(Success(x), k)
    ensures Run(g, Between(q, l, r), input, pos, fuel) == Step(Success(v), k)
  {
    BetweenLaw(g, q, l, r, input, pos, fuel);
  }

  /** `between` when `left` does not succeed. */
  lemma BetweenLeftStops<U>(g: Grammar<U>, q: Parser<U>, l: Parser<U>, r: Parser<U>, input: seq<char>, pos: nat,
                            fuel: nat)
    requires pos <= |input|
    requires !Run(g, l, input, pos, fuel).reply.Success?
    ensures var a := Run(g, l, input, pos, fuel);
      Run(g, Between(q, l, r), input, pos, fuel) == if a.reply.Failure? then Step(a.reply, pos) else a
  {
    BetweenLaw(g, q, l, r, input, pos, fuel);
  }

  /** `between` when `left` succeeds and the parent does not. */
  lemma BetweenParentStops<U>(g: Grammar<U>, q: Parser<U>, l: Parser<U>, r: Parser<U>, input: seq<char>, pos: nat,
                              fuel: nat, u: Value<U>, i: nat, b: Step<U>)
    requires pos <= |input|
    requires Run(g, l, input, pos, fuel) == Step(Success(u), i)
    requires Run(g, q, input, i, fuel) == b && !b.reply.Success?
    ensures Run(g, Between(q, l, r), input, pos, fuel) == if b.reply.Failure? then Step(b.reply, pos) else b
  {
    BetweenLaw(g, q, l, r, input, pos, fuel);
  }

  /** `between` when `right` fails after the others succeed. */
  lemma BetweenRightFails<U>(g: Grammar<U>, q: Parser<U>, l: Parser<U>, r: Parser<U>, input: seq<char>, pos: nat,
                             fuel: nat, u: Value<U>, v: Value<U>, i: nat, j: nat, e: Error)
    requires pos <= |input|
    requires Run(g, l, input, pos, fuel) == Step(Success(u), i)
    requires Run(g, q, input, i, fuel) == Step(Success(v), j)
    requires Run(g, r, input, j, fuel).reply == Failure(e)
    ensures Run(g, Between(q, l, r), input, pos, fuel) == Step(Failure(e), pos)
  {
    BetweenLaw(g, q, l, r, input, pos, fuel);
  }

  /** `or`: a left success is the answer and right never runs; after a left
      failure right runs from the restored offset; if both fail, the error
      with the larger position wins and ties go to right. */
  lemma OrLaw<U>(g: Grammar<U>, l: Parser<U>, r: Parser<U>, input: seq<char>, pos: nat, fuel: nat)
    requires pos <= |input|
    ensures var s, a := Run(g, Or(l, r), input, pos, fuel), Run(g, l, input, pos, fuel);
      (!a.reply.Failure? ==> s == a) &&
      (a.reply.Failure? ==>
         var b := Run(g, r, input, pos, fuel);
         (!b.reply.Failure? ==> s == b) &&
         (b.reply.Failure? ==>
            s == Step(Failure(if a.reply.error.pos > b.reply.error.pos then a.reply.error else b.reply.error), pos)))
  {
    assert RawRun(g, Or(l, r), input, pos, fuel) == OrRaw(g, l, r, input, pos, fuel);
  }

  /** `or` when the left side does not fail. */
  lemma OrLeftStands<U>(g: Grammar<U>, l: Parser<U>, r: Parser<U>, input: seq<char>, pos: nat, fuel: nat)
    requires pos <= |input|
    requires !Run(g, l, input, pos, fuel).reply.Failure?
    ensures Run(g, Or(l, r), input, pos, fuel) == Run(g, l, input, pos, fuel)
  {
    OrLaw(g, l, r, input, pos, fuel);
  }

  /** `or` when the left side fails and the right side does not. */
  lemma OrRightStands<U>(g: Grammar<U>, l: Parser<U>, r: Parser<U>, input: seq<char>, pos: nat, fuel: nat)
    requires pos <= |input|
    requires Run(g, l, input, pos, fuel).reply.Failure? && !Run(g, r, input, pos, fuel).reply.Failure?
    ensures Run(g, Or(l, r), input, pos, fuel) == Run(g, r, input, pos, fuel)
  {
    OrLaw(g, l, r, input, pos, fuel);
  }

  /** `or` when both sides fail: the further error, ties going right. */
  lemma OrBothFail<U>(g: Grammar<U>, l: Parser<U>, r: Parser<U>, input: seq<char>, pos: nat, fuel: nat,
                      le: Error, re: Error)
    requires pos <= |input|
    requires Run(g, l, input, pos, fuel).reply == Failure(le) && Run(g, r, input, pos, fuel).reply == Failure(re)
    ensures Run(g, Or(l, r), input, pos, fuel) == Step(Failure(if le.pos > re.pos then le else re), pos)
  {
    OrLaw(g, l, r, input, pos, fuel);
  }

  /** Of two failures, `or` reports one at the larger position, and the right
      one whenever it is not strictly behind. */
  lemma OrErrorChoice<U>(g: Grammar<U>, l: Parser<U>, r: Parser<U>, input: seq<char>, pos: nat, fuel: nat)
    requires pos <= |input|
    requires Run(g, l, input, pos, fuel).reply.Failure? && Run(g, r, input, pos, fuel).reply.Failure?
    ensures var s, le, re := Run(g, Or(l, r), input, pos, fuel),
                             Run(g, l, input, pos, fuel).reply.error, Run(g, r, input, pos, fuel).reply.error;
      s.reply.Failure? && s.pos == pos &&
      (s.reply.error.pos == if le.pos > re.pos then le.pos else re.pos) &&
      (le.pos <= re.pos ==> s.reply.error == re) &&
      (le.pos > re.pos ==> s.reply.error == le)
  {
    OrLaw(g, l, r, input, pos, fuel);
  }

  /** `filter`: a value the predicate rejects becomes "unsatisfied" at the
      offset the parent reached; an accepted one passes unchanged. */
  lemma FilterLaw<U>(g: Grammar<U>, q: Parser<U>, f: Value<U> -> bool, input: seq<char>, pos: nat, fuel: nat)
    requires pos <= |input|
    ensures var s, t := Run(g, Filter(q, f), input, pos, fuel), Run(g, q, input, pos, fuel);
      (t.reply.Success? && !f(t.reply.value) ==> s == Step(Failure(Error(t.pos, "unsatisfied")), pos)) &&
      (!(t.reply.Success? && !f(t.reply.value)) ==> s == t)
  {
    assert RawRun(g, Filter(q, f), input, pos, fuel) == FilterRaw(g, q, f, input, pos, fuel);
  }

  /** `label`: only the message of a failure changes; its position stays. */
  lemma LabelLaw<U>(g: Grammar<U>, q: Parser<U>, m: () -> string, input: seq<char>, pos: nat, fuel: nat)
    requires pos <= |input|
    ensures var s, t := Run(g, Label(q, m), input, pos, fuel), Run(g, q, input, pos, fuel);
      (t.reply.Failure? ==> s == Step(Failure(Error(t.reply.error.pos, m())), pos)) &&
      (!t.reply.Failure? ==> s == t)
  {
    assert RawRun(g, Label(q, m), input, pos, fuel) == LabelRaw(g, q, m, input, pos, fuel);
  }

  /** Nested labels: the outermost message wins; the position is the parent's. */
  lemma NestedLabelLaw<U>(g: Grammar<U>, q: Parser<U>, inner: () -> string, outer: () -> string,
                          input: seq<char>, pos: nat, fuel: nat)
    requires pos <= |input|
    ensures var s, t := Run(g, Label(Label(q, inner), outer), input, pos, fuel), Run(g, q, input, pos, fuel);
      (t.reply.Failure? ==> s == Step(Failure(Error(t.reply.error.pos, outer())), pos)) &&
      (!t.reply.Failure? ==> s == t)
  {
    LabelLaw(g, q, inner, input, pos, fuel);
    LabelLaw(g, Label(q, inner), outer, input, pos, fuel);
  }

  // ---------------------------------------------------------------------------
  // Repetition: some, many, many_till, split

  /** `q` parses the values `vs` one after the other from `pos`, each attempt
      consuming something, and the last one stops at `end`. */
  ghost predicate Iterates<U>(g: Grammar<U>, q: Parser<U>, input: seq<char>, pos: nat, fuel: nat,
                        vs: seq<Value<U>>, end: nat): (b: bool)
    requires pos <= |input|
    ensures b ==> pos <= end <= |input|
    decreases |vs|
  {
    if vs == [] then end == pos
    else
      var a := Run(g, q, input, pos, fuel);
      a.reply == Success(vs[0]) && a.pos > pos && Iterates(g, q, input, a.pos, fuel, vs[1..], end)
  }

  /** Whatever the `while let` loop of `Some` returns extends the values it was
      given by a run of parent parses that ends where the parent fails. */
  lemma {:induction false} SomeLoopSound<U>(g: Grammar<U>, q: Parser<U>, input: seq<char>, pos: nat, fuel: nat,
                                            acc: seq<Value<U>>)
    requires pos <= |input|
    ensures var s := SomeLoop(g, q, input, pos, fuel, acc);
      s.reply.Success? ==>
        var xs := s.reply.value.items;
        |xs| >= |acc| && xs[..|acc|] == acc && Iterates(g, q, input, pos, fuel, xs[|acc|..], s.pos) &&
        Run(g, q, input, s.pos, fuel).reply.Failure?
    decreases |input| - pos
  {
    var a := Run(g, q, input, pos, fuel);
    if a.reply.Success? && a.pos != pos {
      var acc' := acc + [a.reply.value];
      SomeLoopSound(g, q, input, a.pos, fuel, acc');
      var s := SomeLoop(g, q, input, pos, fuel, acc);
      if s.reply.Success? {
        var xs := s.reply.value.items;
        assert xs[..|acc|] == xs[..|acc'|][..|acc|];
        assert xs[|acc|..][1..] == xs[|acc'|..];
      }
    }
  }

  /** Conversely, such a run is exactly what the loop collects. */
  lemma {:induction false} SomeLoopComplete<U>(g: Grammar<U>, q: Parser<U>, input: seq<char>, pos: nat,
                                               fuel: nat, acc: seq<Value<U>>, vs: seq<Value<U>>, end: nat)
    requires pos <= |input|
    requires Iterates(g, q, input, pos, fuel, vs, end) && Run(g, q, input, end, fuel).reply.Failure?
    ensures SomeLoop(g, q, input, pos, fuel, acc) == Step(Success(List(acc + vs)), end)
    decreases |vs|
  {
    if vs != [] {
      var a := Run(g, q, input, pos, fuel);
      SomeLoopComplete(g, q, input, a.pos, fuel, acc + [vs[0]], vs[1..], end);
      assert acc + [vs[0]] + vs[1..] == acc + vs;
    } else {
      assert acc + vs == acc;
    }
  }

  /** `some`: one or more values, in input order, from parent parses that each
      consumed something; the parse that ends the repetition fails, and its
      error is discarded. */
  lemma SomeLaw<U>(g: Grammar<U>, q: Parser<U>, input: seq<char>, pos: nat, fuel: nat,
                   vs: seq<Value<U>>, end: nat)
    requires pos <= |input|
    ensures Run(g, Some(q), input, pos, fuel) == Step(Success(List(vs)), end) <==>
            |vs| >= 1 && Iterates(g, q, input, pos, fuel, vs, end) && Run(g, q, input, end, fuel).reply.Failure?
  {
    assert RawRun(g, Some(q), input, pos, fuel) == SomeRaw(g, q, input, pos, fuel);
    var a := Run(g, q, input, pos, fuel);
    if a.reply.Success? {
      var v := a.reply.value;
      SomeLoopSound(g, q, input, a.pos, fuel, [v]);
      if a.pos == pos {
        assert SomeLoop(g, q, input, a.pos, fuel, [v]) == Step(Diverged, pos);
      }
      if Run(g, Some(q), input, pos, fuel) == Step(Success(List(vs)), end) {
        assert vs == [v] + vs[1..];
      }
      if |vs| >= 1 && Iterates(g, q, input, pos, fuel, vs, end) && Run(g, q, input, end, fuel).reply.Failure? {
        SomeLoopComplete(g, q, input, a.pos, fuel, [v], vs[1..], end);
        assert [v] + vs[1..] == vs;
      }
    }
  }

  /** `some` fails with the parent's own error when the first attempt fails. */
  lemma SomeFirstFailure<U>(g: Grammar<U>, q: Parser<U>, input: seq<char>, pos: nat, fuel: nat)
    requires pos <= |input|
    requires Run(g, q, input, pos, fuel).reply.Failure?
    ensures Run(g, Some(q), input, pos, fuel) == Run(g, q, input, pos, fuel)
  {
    assert RawRun(g, Some(q), input, pos, fuel) == SomeRaw(g, q, input, pos, fuel);
  }

  /** `many`: zero or more values on the same terms as `some`; in particular
      `[]` with the cursor unmoved when the first attempt fails. */
  lemma ManyLaw<U>(g: Grammar<U>, q: Parser<U>, input: seq<char>, pos: nat, fuel: nat,
                   vs: seq<Value<U>>, end: nat)
    requires pos <= |input|
    ensures Run(g, Many(q), input, pos, fuel) == Step(Success(List(vs)), end) <==>
            Iterates(g, q, input, pos, fuel, vs, end) && Run(g, q, input, end, fuel).reply.Failure?
  {
    assert RawRun(g, Many(q), input, pos, fuel) == ManyRaw(g, q, input, pos, fuel);
    assert Run(g, Some(q), input, pos, fuel) == Transaction(pos, SomeRaw(g, q, input, pos, fuel));
    SomeLaw(g, q, input, pos, fuel, vs, end);
    if vs == [] {
      if Run(g, q, input, pos, fuel).reply.Failure? {
        SomeFirstFailure(g, q, input, pos, fuel);
      }
    }
  }

  /** `many` never fails. */
  lemma ManyNeverFails<U>(g: Grammar<U>, q: Parser<U>, input: seq<char>, pos: nat, fuel: nat)
    requires pos <= |input|
    ensures !Run(g, Many(q), input, pos, fuel).reply.Failure?
  {
    assert RawRun(g, Many(q), input, pos, fuel) == ManyRaw(g, q, input, pos, fuel);
  }

  /** `q` parses `vs` one after the other from `pos`, with `e` failing before
      each value, and the last value ends at `last`. */
  ghost predicate IteratesTill<U>(g: Grammar<U>, q: Parser<U>, e: Parser<U>, input: seq<char>, pos: nat, fuel: nat,
                            vs: seq<Value<U>>, last: nat): (b: bool)
    requires pos <= |input|
    ensures b ==> pos <= last <= |input|
    decreases |vs|
  {
    if vs == [] then last == pos
    else
      var a := Run(g, q, input, pos, fuel);
      Run(g, e, input, pos, fuel).reply.Failure? &&
      a.reply == Success(vs[0]) && a.pos > pos && IteratesTill(g, q, e, input, a.pos, fuel, vs[1..], last)
  }

  /** The `while` loop of `ManyTill`, run after the values `acc`, over a run of
      values `vs` that ends at `last`: the combinator then finishes exactly as
      it would starting at `last`. */
  lemma {:induction false} ManyTillLoopSkip<U>(g: Grammar<U>, q: Parser<U>, e: Parser<U>, input: seq<char>,
                                               pos: nat, fuel: nat, acc: seq<Value<U>>, vs: seq<Value<U>>, last: nat)
    requires pos <= |input|
    requires IteratesTill(g, q, e, input, pos, fuel, vs, last)
    ensures ManyTillLoop(g, q, e, input, pos, fuel, acc) == ManyTillLoop(g, q, e, input, last, fuel, acc + vs)
    decreases |vs|
  {
    if vs != [] {
      var a := Run(g, q, input, pos, fuel);
      ManyTillLoopSkip(g, q, e, input, a.pos, fuel, acc + [vs[0]], vs[1..], last);
      assert acc + [vs[0]] + vs[1..] == acc + vs;
    } else {
      assert acc + vs == acc;
    }
  }

  /** `many_till`: `end` is tried before each parent attempt. When it succeeds
      the values so far are the result and what `end` read stays consumed (its
      value is dropped); when it fails, a parent failure fails the whole
      combinator with the cursor back at the start. */
  lemma ManyTillLaw<U>(g: Grammar<U>, q: Parser<U>, e: Parser<U>, input: seq<char>, pos: nat, fuel: nat,
                       vs: seq<Value<U>>, last: nat)
    requires pos <= |input|
    requires IteratesTill(g, q, e, input, pos, fuel, vs, last)
    ensures var s, t, a := Run(g, ManyTill(q, e), input, pos, fuel), Run(g, e, input, last, fuel),
                           Run(g, q, input, last, fuel);
      (t.reply.Success? ==> s == Step(Success(List(vs)), t.pos)) &&
      (t.reply.Failure? && a.reply.Failure? ==> s == Step(a.reply, pos))
  {
    assert RawRun(g, ManyTill(q, e), input, pos, fuel) == ManyTillLoop(g, q, e, input, pos, fuel, []);
    ManyTillLoopSkip(g, q, e, input, pos, fuel, [], vs, last);
    assert [] + vs == vs;
  }

  /** `split`: the first value, then the values of `sep.use_right(parent)`
      repeated, separators dropped; once the first value parses it never fails. */
  lemma SplitLaw<U>(g: Grammar<U>, q: Parser<U>, sep: Parser<U>, input: seq<char>, pos: nat, fuel: nat,
                    vs: seq<Value<U>>, end: nat)
    requires pos <= |input|
    requires Run(g, q, input, pos, fuel).reply.Success?
    ensures var a := Run(g, q, input, pos, fuel);
      Run(g, Split(q, sep), input, pos, fuel) == Step(Success(List([a.reply.value] + vs)), end) <==>
      Iterates(g, UseRight(sep, q), input, a.pos, fuel, vs, end) &&
      Run(g, UseRight(sep, q), input, end, fuel).reply.Failure?
  {
    assert RawRun(g, Split(q, sep), input, pos, fuel) == SplitRaw(g, q, sep, input, pos, fuel);
    var a := Run(g, q, input, pos, fuel);
    assert RawRun(g, Many(UseRight(sep, q)), input, a.pos, fuel) == ManyRaw(g, UseRight(sep, q), input, a.pos, fuel);
    ManyLaw(g, UseRight(sep, q), input, a.pos, fuel, vs, end);
    var m := Run(g, Many(UseRight(sep, q)), input, a.pos, fuel);
    assert SplitRaw(g, q, sep, input, pos, fuel) == SplitRest(g, q, sep, a.reply.value, input, a.pos, fuel);
    if m.reply.Success? {
      assert SplitRest(g, q, sep, a.reply.value, input, a.pos, fuel)
          == Step(Success(List([a.reply.value] + m.reply.value.items)), m.pos);
      if [a.reply.value] + m.reply.value.items == [a.reply.value] + vs {
        assert m.reply.value.items == ([a.reply.value] + vs)[1..];
      }
    }
  }

  /** `split` fails exactly as the first parent parse does. */
  lemma SplitFirstFailure<U>(g: Grammar<U>, q: Parser<U>, sep: Parser<U>, input: seq<char>, pos: nat, fuel: nat)
    requires pos <= |input|
    requires !Run(g, q, input, pos, fuel).reply.Success?
    ensures Run(g, Split(q, sep), input, pos, fuel) == Run(g, q, input, pos, fuel)
  {
    assert RawRun(g, Split(q, sep), input, pos, fuel) == SplitRaw(g, q, sep, input, pos, fuel);
  }

  /** After the first value, `split` cannot fail. */
  lemma SplitNeverFailsAfterFirst<U>(g: Grammar<U>, q: Parser<U>, sep: Parser<U>, input: seq<char>, pos: nat,
                                      fuel: nat)
    requires pos <= |input|
    requires Run(g, q, input, pos, fuel).reply.Success?
    ensures !Run(g, Split(q, sep), input, pos, fuel).reply.Failure?
  {
    assert RawRun(g, Split(q, sep), input, pos, fuel) == SplitRaw(g, q, sep, input, pos, fuel);
  }

  /** A trailing separator with no element after it is not consumed. */
  lemma SplitTrailingSeparator<U>(g: Grammar<U>, q: Parser<U>, sep: Parser<U>, input: seq<char>, pos: nat,
                                  fuel: nat)
    requires pos <= |input|
    requires Run(g, q, input, pos, fuel).reply.Success?
    requires var a := Run(g, q, input, pos, fuel); var b := Run(g, sep, input, a.pos, fuel);
      b.reply.Success? && Run(g, q, input, b.pos, fuel).reply.Failure?
    ensures var a := Run(g, q, input, pos, fuel);
      Run(g, Split(q, sep), input, pos, fuel) == Step(Success(List([a.reply.value])), a.pos)
  {
    var a := Run(g, q, input, pos, fuel);
    UseRightLaw(g, sep, q, input, a.pos, fuel);
    SplitLaw(g, q, sep, input, pos, fuel, [], a.pos);
    assert [a.reply.value] + [] == [a.reply.value];
  }
}
