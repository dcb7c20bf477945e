/** The parser engine run the way the source runs it: every `parse_raw` moves
    the cursor of a `Context` object in place, `parse` wraps it in the
    snapshot-and-rollback transaction of `begin_tran`, and `some` (which
    `many` and `split` reuse), `many_till` and `string`'s `for` over its
    pattern are loops. Each method is proved to leave the cursor, and
    return the reply, that `ParsecSemantics` prescribes. */
module ParsecEngine {
  import opened RustResult
  import opened ParsecResult
  import opened ParsecContext
  import opened ParsecSemantics

  /** `Context::parse_by`: run a parser on this context. */
  method ParseBy<U>(ctx: Context, g: Grammar<U>, p: Parser<U>, fuel: nat) returns (r: Reply<U>)
    requires ctx.Valid()
    modifies ctx
    ensures ctx.Valid()
    ensures Step(r, ctx.pos) == Run(g, p, ctx.input, old(ctx.pos), fuel)
  {
    r := Parse(ctx, g, p, fuel);
  }

  /** `Parser::parse`, that is `begin_tran` around `parse_raw`: snapshot the
      cursor, run, and put the snapshot back if the run failed. */
  method Parse<U>(ctx: Context, g: Grammar<U>, p: Parser<U>, fuel: nat) returns (r: Reply<U>)
    requires ctx.Valid()
    modifies ctx
    ensures ctx.Valid()
    ensures Step(r, ctx.pos) == Run(g, p, ctx.input, old(ctx.pos), fuel)
    decreases fuel, Size(p), 3, 0
  {
    var rollback := ctx.Clone();
    r := ParseRaw(ctx, g, p, fuel);
    if r.Failure? {
      ctx.Restore(rollback);
    }
  }

  /** `Parser::parse_raw`, dispatched to the parser struct's own implementation
      (in three groups, to keep each dispatch small). */
  method ParseRaw<U>(ctx: Context, g: Grammar<U>, p: Parser<U>, fuel: nat) returns (r: Reply<U>)
    requires ctx.Valid()
    modifies ctx
    ensures ctx.Valid()
    ensures Step(r, ctx.pos) == RawRun(g, p, ctx.input, old(ctx.pos), fuel)
    decreases fuel, Size(p), 2, 0
  {
    if p.AnyChar? || p.Str? || p.EOS? || p.Just? || p.Fail? || p.Any? || p.Debug? || p.Ref? {
      r := ParseLeafRaw(ctx, g, p, fuel);
    } else if p.Map? || p.AndThen? || p.FlatMap? || p.Pair? || p.UseLeft? || p.UseRight? || p.Between? {
      r := ParseSequenceRaw(ctx, g, p, fuel);
    } else {
      r := ParseChoiceRaw(ctx, g, p, fuel);
    }
  }

  /** The consumers, `just`, `fail`, `Any`, `Debug` and grammar-rule calls. */
  method ParseLeafRaw<U>(ctx: Context, g: Grammar<U>, p: Parser<U>, fuel: nat) returns (r: Reply<U>)
    requires p.AnyChar? || p.Str? || p.EOS? || p.Just? || p.Fail? || p.Any? || p.Debug? || p.Ref?
    requires ctx.Valid()
    modifies ctx
    ensures ctx.Valid()
    ensures Step(r, ctx.pos) == RawRun(g, p, ctx.input, old(ctx.pos), fuel)
    decreases fuel, Size(p), 1, 0
  {
    match p
    case AnyChar => r := ParseAnyChar(ctx);
    case Str(lit) => r := ParseStr(ctx, lit);
    case EOS => r := ParseEos(ctx);
    case Just(f) => r := Success(f());
    case Fail(m) => r := Failure(ctx.ThrowParserErr(m()));
    case Any(q) => r := ParseAny(ctx, g, q, fuel);
    case Debug(q) => r := ParseDebug(ctx, g, q, fuel);
    case Ref(k) => r := ParseRef(ctx, g, k, fuel);
  }

  /** The adapters that run their parsers one after the other. */
  method ParseSequenceRaw<U>(ctx: Context, g: Grammar<U>, p: Parser<U>, fuel: nat) returns (r: Reply<U>)
    requires p.Map? || p.AndThen? || p.FlatMap? || p.Pair? || p.UseLeft? || p.UseRight? || p.Between?
    requires ctx.Valid()
    modifies ctx
    ensures ctx.Valid()
    ensures Step(r, ctx.pos) == RawRun(g, p, ctx.input, old(ctx.pos), fuel)
    decreases fuel, Size(p), 1, 0
  {
    match p
    case Map(q, f) => r := ParseMap(ctx, g, q, f, fuel);
    case AndThen(q, f) => r := ParseAndThen(ctx, g, q, f, fuel);
    case FlatMap(q, k) => r := ParseFlatMap(ctx, g, q, k, fuel);
    case Pair(left, right) => r := ParsePair(ctx, g, left, right, fuel);
    case UseLeft(left, right) => r := ParseUseLeft(ctx, g, left, right, fuel);
    case UseRight(left, right) => r := ParseUseRight(ctx, g, left, right, fuel);
    case Between(q, left, right) => r := ParseBetween(ctx, g, q, left, right, fuel);
  }

  /** The adapters that choose, repeat, check or relabel. */
  method ParseChoiceRaw<U>(ctx: Context, g: Grammar<U>, p: Parser<U>, fuel: nat) returns (r: Reply<U>)
    requires p.Or? || p.Some? || p.Many? || p.ManyTill? || p.Filter? || p.Split? || p.Label?
    requires ctx.Valid()
    modifies ctx
    ensures ctx.Valid()
    ensures Step(r, ctx.pos) == RawRun(g, p, ctx.input, old(ctx.pos), fuel)
    decreases fuel, Size(p), 1, 0
  {
    match p
    case Or(left, right) => r := ParseOr(ctx, g, left, right, fuel);
    case Some(q) => r := ParseSome(ctx, g, q, fuel);
    case Many(q) => r := ParseMany(ctx, g, q, fuel);
    case ManyTill(q, e) => r := ParseManyTill(ctx, g, q, e, fuel);
    case Filter(q, f) => r := ParseFilter(ctx, g, q, f, fuel);
    case Split(q, sep) => r := ParseSplit(ctx, g, q, sep, fuel);
    case Label(q, m) => r := ParseLabel(ctx, g, q, m, fuel);
  }

  /** `Any::parse_raw`: the boxed closure runs the wrapped parser's `parse`. */
  method ParseAny<U>(ctx: Context, g: Grammar<U>, q: Parser<U>, fuel: nat) returns (r: Reply<U>)
    requires ctx.Valid()
    modifies ctx
    ensures ctx.Valid()
    ensures Step(r, ctx.pos) == Run(g, q, ctx.input, old(ctx.pos), fuel)
    decreases fuel, Size(Any(q)), 0, 0
  {
    r := Parse(ctx, g, q, fuel);
  }

  /** `Debug::parse_raw`: the parent's `parse`; the observer callback is not modelled. */
  method ParseDebug<U>(ctx: Context, g: Grammar<U>, q: Parser<U>, fuel: nat) returns (r: Reply<U>)
    requires ctx.Valid()
    modifies ctx
    ensures ctx.Valid()
    ensures Step(r, ctx.pos) == Run(g, q, ctx.input, old(ctx.pos), fuel)
    decreases fuel, Size(Debug(q)), 0, 0
  {
    r := Parse(ctx, g, q, fuel);
  }

  method ParseAnyChar<U>(ctx: Context) returns (r: Reply<U>)
    requires ctx.Valid()
    modifies ctx
    ensures ctx.Valid()
    ensures Step(r, ctx.pos) == AnyCharRaw(ctx.input, old(ctx.pos))
  {
    var c := ctx.Next();
    r := if c.Ok? then Success(Chr(c.value)) else Failure(c.error);
  }

  /** `Str::parse_raw`: the `for` loop over the literal inside an inner
      transaction, whose failure is replaced by `expect "lit"`. */
  method ParseStr<U>(ctx: Context, lit: string) returns (r: Reply<U>)
    requires ctx.Valid()
    modifies ctx
    ensures ctx.Valid()
    ensures Step(r, ctx.pos) == StrRaw(lit, ctx.input, old(ctx.pos))
  {
    var rollback := ctx.Clone();
    var matched := true;
    var i := 0;
    while i < |lit| && matched
      invariant 0 <= i <= |lit| && ctx.Valid() && rollback.Valid()
      invariant rollback.input == ctx.input && rollback.pos == old(ctx.pos)
      invariant matched ==> MatchLiteral(lit, ctx.input, rollback.pos) == MatchLiteral(lit[i..], ctx.input, ctx.pos)
      invariant !matched ==> MatchLiteral(lit, ctx.input, rollback.pos).0.Err?
      decreases |lit| - i, matched
    {
      var c := ctx.Next();
      if c.Err? || c.value != lit[i] {
        matched := false;
      } else {
        assert lit[i..][1..] == lit[i + 1..];
        i := i + 1;
      }
    }
    if matched {
      r := Success(Text(lit));
    } else {
      ctx.Restore(rollback);
      r := Failure(ctx.ThrowParserErr("expect \"" + lit + "\""));
    }
  }

  method ParseEos<U>(ctx: Context) returns (r: Reply<U>)
    requires ctx.Valid()
    modifies ctx
    ensures ctx.Valid()
    ensures Step(r, ctx.pos) == EosRaw(ctx.input, old(ctx.pos))
  {
    var c := ctx.Next();
    if c.Err? {
      r := Success(Unit);
    } else {
      r := Failure(ctx.ThrowParserErr("expect end of stream"));
    }
  }

  method ParseMap<U>(ctx: Context, g: Grammar<U>, q: Parser<U>, f: Value<U> -> Value<U>, fuel: nat)
    returns (r: Reply<U>)
    requires ctx.Valid()
    modifies ctx
    ensures ctx.Valid()
    ensures Step(r, ctx.pos) == MapRaw(g, q, f, ctx.input, old(ctx.pos), fuel)
    decreases fuel, Size(Map(q, f)), 0, 0
  {
    r := Parse(ctx, g, q, fuel);
    if r.Success? {
      r := Success(f(r.value));
    }
  }

  method ParseAndThen<U>(ctx: Context, g: Grammar<U>, q: Parser<U>,
                         f: Value<U> -> Result<Value<U>, string>, fuel: nat) returns (r: Reply<U>)
    requires ctx.Valid()
    modifies ctx
    ensures ctx.Valid()
    ensures Step(r, ctx.pos) == AndThenRaw(g, q, f, ctx.input, old(ctx.pos), fuel)
    decreases fuel, Size(AndThen(q, f)), 0, 0
  {
    r := Parse(ctx, g, q, fuel);
    if r.Success? {
      var checked := f(r.value);
      r := if checked.Ok? then Success(checked.value) else Failure(ctx.ThrowParserErr(checked.error));
    }
  }

  method ParseFlatMap<U>(ctx: Context, g: Grammar<U>, q: Parser<U>, k: Value<U> -> Parser<U>, fuel: nat)
    returns (r: Reply<U>)
    requires ctx.Valid()
    modifies ctx
    ensures ctx.Valid()
    ensures Step(r, ctx.pos) == FlatMapRaw(g, q, k, ctx.input, old(ctx.pos), fuel)
    decreases fuel, Size(FlatMap(q, k)), 0, 0
  {
    r := Parse(ctx, g, q, fuel);
    if r.Success? {
      if fuel == 0 {
        r := Diverged;
      } else {
        r := Parse(ctx, g, k(r.value), fuel - 1);
      }
    }
  }

  method ParsePair<U>(ctx: Context, g: Grammar<U>, left: Parser<U>, right: Parser<U>, fuel: nat)
    returns (r: Reply<U>)
    requires ctx.Valid()
    modifies ctx
    ensures ctx.Valid()
    ensures Step(r, ctx.pos) == PairRaw(g, left, right, ctx.input, old(ctx.pos), fuel)
    decreases fuel, Size(Pair(left, right)), 0, 0
  {
    var a := Parse(ctx, g, left, fuel);
    if !a.Success? {
      return a;
    }
    var b := Parse(ctx, g, right, fuel);
    if !b.Success? {
      return b;
    }
    r := Success(Tuple(a.value, b.value));
  }

  method ParseUseLeft<U>(ctx: Context, g: Grammar<U>, left: Parser<U>, right: Parser<U>, fuel: nat)
    returns (r: Reply<U>)
    requires ctx.Valid()
    modifies ctx
    ensures ctx.Valid()
    ensures Step(r, ctx.pos) == UseLeftRaw(g, left, right, ctx.input, old(ctx.pos), fuel)
    decreases fuel, Size(UseLeft(left, right)), 0, 0
  {
    assert Size(Map(Pair(left, right), First)) == 2 + Size(left) + Size(right);
    r := Parse(ctx, g, Map(Pair(left, right), First), fuel);
  }

  method ParseUseRight<U>(ctx: Context, g: Grammar<U>, left: Parser<U>, right: Parser<U>, fuel: nat)
    returns (r: Reply<U>)
    requires ctx.Valid()
    modifies ctx
    ensures ctx.Valid()
    ensures Step(r, ctx.pos) == UseRightRaw(g, left, right, ctx.input, old(ctx.pos), fuel)
    decreases fuel, Size(UseRight(left, right)), 0, 0
  {
    assert Size(Map(Pair(left, right), Second)) == 2 + Size(left) + Size(right);
    r := Parse(ctx, g, Map(Pair(left, right), Second), fuel);
  }

  method ParseBetween<U>(ctx: Context, g: Grammar<U>, q: Parser<U>, left: Parser<U>, right: Parser<U>,
                         fuel: nat) returns (r: Reply<U>)
    requires ctx.Valid()
    modifies ctx
    ensures ctx.Valid()
    ensures Step(r, ctx.pos) == BetweenRaw(g, q, left, right, ctx.input, old(ctx.pos), fuel)
    decreases fuel, Size(Between(q, left, right)), 0, 0
  {
    assert Size(UseLeft(UseRight(left, q), right)) == 6 + Size(left) + Size(q) + Size(right);
    r := Parse(ctx, g, UseLeft(UseRight(left, q), right), fuel);
  }

  method ParseOr<U>(ctx: Context, g: Grammar<U>, left: Parser<U>, right: Parser<U>, fuel: nat)
    returns (r: Reply<U>)
    requires ctx.Valid()
    modifies ctx
    ensures ctx.Valid()
    ensures Step(r, ctx.pos) == OrRaw(g, left, right, ctx.input, old(ctx.pos), fuel)
    decreases fuel, Size(Or(left, right)), 0, 0
  {
    var a := Parse(ctx, g, left, fuel);
    if !a.Failure? {
      return a;
    }
    r := Parse(ctx, g, right, fuel);
    if r.Failure? {
      r := Failure(if a.error.pos > r.error.pos then a.error else r.error);
    }
  }

  /** `Some::parse_raw`: one mandatory parse, then `while let Ok(val)`. A parent
      that succeeds without consuming would be re-run on the same cursor
      forever; the loop reports that as `Diverged`. */
  method ParseSome<U>(ctx: Context, g: Grammar<U>, q: Parser<U>, fuel: nat) returns (r: Reply<U>)
    requires ctx.Valid()
    modifies ctx
    ensures ctx.Valid()
    ensures Step(r, ctx.pos) == SomeRaw(g, q, ctx.input, old(ctx.pos), fuel)
    decreases fuel, Size(Some(q)), 0, 0
  {
    var first := Parse(ctx, g, q, fuel);
    if !first.Success? {
      return first;
    }
    var output := [first.value];
    while true
      invariant ctx.Valid()
      invariant SomeRaw(g, q, ctx.input, old(ctx.pos), fuel) == SomeLoop(g, q, ctx.input, ctx.pos, fuel, output)
      decreases |ctx.input| - ctx.pos
    {
      var before := ctx.pos;
      var a := Parse(ctx, g, q, fuel);
      match a
      case Success(v) =>
        if ctx.pos == before {
          return Diverged;
        }
        output := output + [v];
      case Failure(_) =>
        return Success(List(output));
      case Diverged =>
        return Diverged;
    }
  }

  /** `Many::parse_raw`: `parent.some().parse(..)`, a failure becoming `[]`. */
  method ParseMany<U>(ctx: Context, g: Grammar<U>, q: Parser<U>, fuel: nat) returns (r: Reply<U>)
    requires ctx.Valid()
    modifies ctx
    ensures ctx.Valid()
    ensures Step(r, ctx.pos) == ManyRaw(g, q, ctx.input, old(ctx.pos), fuel)
    decreases fuel, Size(Many(q)), 0, 0
  {
    var rollback := ctx.Clone();
    r := ParseSome(ctx, g, q, fuel);
    if r.Failure? {
      ctx.Restore(rollback);
      r := Success(List([]));
    }
  }

  /** `ManyTill::parse_raw`: `while self.end.parse(context).is_err()`, each
      round parsing one parent value with `?`. */
  method ParseManyTill<U>(ctx: Context, g: Grammar<U>, q: Parser<U>, e: Parser<U>, fuel: nat)
    returns (r: Reply<U>)
    requires ctx.Valid()
    modifies ctx
    ensures ctx.Valid()
    ensures Step(r, ctx.pos) == RawRun(g, ManyTill(q, e), ctx.input, old(ctx.pos), fuel)
    decreases fuel, Size(ManyTill(q, e)), 0, 0
  {
    var res := [];
    while true
      invariant ctx.Valid()
      invariant RawRun(g, ManyTill(q, e), ctx.input, old(ctx.pos), fuel) ==
                ManyTillLoop(g, q, e, ctx.input, ctx.pos, fuel, res)
      decreases |ctx.input| - ctx.pos
    {
      var before := ctx.pos;
      var t := Parse(ctx, g, e, fuel);
      if t.Success? {
        return Success(List(res));
      } else if t.Diverged? {
        return Diverged;
      }
      var a := Parse(ctx, g, q, fuel);
      if !a.Success? {
        return a;
      }
      if ctx.pos == before {
        return Diverged;
      }
      res := res + [a.value];
    }
  }

  method ParseFilter<U>(ctx: Context, g: Grammar<U>, q: Parser<U>, f: Value<U> -> bool, fuel: nat)
    returns (r: Reply<U>)
    requires ctx.Valid()
    modifies ctx
    ensures ctx.Valid()
    ensures Step(r, ctx.pos) == FilterRaw(g, q, f, ctx.input, old(ctx.pos), fuel)
    decreases fuel, Size(Filter(q, f)), 0, 0
  {
    r := Parse(ctx, g, q, fuel);
    if r.Success? && !f(r.value) {
      r := Failure(ctx.ThrowParserErr("unsatisfied"));
    }
  }

  /** `Split::parse_raw`: the first value, then `sep.use_right(parent).many()`
      parsed as one transaction, the first value inserted in front. */
  method ParseSplit<U>(ctx: Context, g: Grammar<U>, q: Parser<U>, sep: Parser<U>, fuel: nat)
    returns (r: Reply<U>)
    requires ctx.Valid()
    modifies ctx
    ensures ctx.Valid()
    ensures Step(r, ctx.pos) == SplitRaw(g, q, sep, ctx.input, old(ctx.pos), fuel)
    decreases fuel, Size(Split(q, sep)), 0, 0
  {
    var first := Parse(ctx, g, q, fuel);
    if !first.Success? {
      return first;
    }
    r := ParseSplitRest(ctx, g, q, sep, first.value, fuel);
  }

  method ParseSplitRest<U>(ctx: Context, g: Grammar<U>, q: Parser<U>, sep: Parser<U>, first: Value<U>,
                           fuel: nat) returns (r: Reply<U>)
    requires ctx.Valid()
    modifies ctx
    ensures ctx.Valid()
    ensures Step(r, ctx.pos) == SplitRest(g, q, sep, first, ctx.input, old(ctx.pos), fuel)
    decreases fuel, 5 + Size(q) + Size(sep), 1, 0
  {
    assert Size(Many(UseRight(sep, q))) == 5 + Size(sep) + Size(q);
    var rest := ParseMany(ctx, g, UseRight(sep, q), fuel);
    if !rest.Success? {
      return rest;
    }
    r := Success(List([first] + rest.value.items));
  }

  method ParseLabel<U>(ctx: Context, g: Grammar<U>, q: Parser<U>, m: () -> string, fuel: nat)
    returns (r: Reply<U>)
    requires ctx.Valid()
    modifies ctx
    ensures ctx.Valid()
    ensures Step(r, ctx.pos) == LabelRaw(g, q, m, ctx.input, old(ctx.pos), fuel)
    decreases fuel, Size(Label(q, m)), 0, 0
  {
    r := Parse(ctx, g, q, fuel);
    if r.Failure? {
      r := Failure(Error(r.error.pos, m()));
    }
  }

  /** A call of the grammar-rule function `k`, spending one unit of fuel. */
  method ParseRef<U>(ctx: Context, g: Grammar<U>, k: nat, fuel: nat) returns (r: Reply<U>)
    requires ctx.Valid()
    modifies ctx
    ensures ctx.Valid()
    ensures Step(r, ctx.pos) == RefRaw(g, k, ctx.input, old(ctx.pos), fuel)
    decreases fuel, 0, 0, 0
  {
    if fuel == 0 {
      r := Diverged;
    } else {
      r := ParseRaw(ctx, g, g(k), fuel - 1);
    }
  }
}
