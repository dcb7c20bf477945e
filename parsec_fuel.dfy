/** Fuel is only a bound on how deep a run may recurse: a run of any parser of
    parsec/src that finishes (succeeds or fails) with some fuel finishes the
    same way, at the same offset, with any larger amount. Both places that
    spend fuel, a grammar-rule call (`Ref`) and the continuation of a
    `flat_map`, report `Diverged` only when the fuel is gone. The lemmas follow
    the recursion of `RawRun` case by case, with the same measure. */
module ParsecFuel {
  import opened RustResult
  import opened ParsecResult
  import opened ParsecSemantics

  lemma RunMono<U>(g: Grammar<U>, p: Parser<U>, input: seq<char>, pos: nat, fuel: nat, more: nat)
    requires pos <= |input| && fuel <= more
    requires !Run(g, p, input, pos, fuel).reply.Diverged?
    ensures Run(g, p, input, pos, more) == Run(g, p, input, pos, fuel)
    decreases fuel, Size(p), 2, 0
  {
    RawMono(g, p, input, pos, fuel, more);
  }

  /** `parse_raw` of every parser struct, by cases. */
  lemma RawMono<U>(g: Grammar<U>, p: Parser<U>, input: seq<char>, pos: nat, fuel: nat, more: nat)
    requires pos <= |input| && fuel <= more
    requires !RawRun(g, p, input, pos, fuel).reply.Diverged?
    ensures RawRun(g, p, input, pos, more) == RawRun(g, p, input, pos, fuel)
    decreases fuel, Size(p), 1, 0
  {
    match p
    case AnyChar =>
    case Str(_) =>
    case EOS =>
    case Just(_) =>
    case Fail(_) =>
    case Any(q) => RunMono(g, q, input, pos, fuel, more);
    case Map(q, f) => MapMono(g, q, f, input, pos, fuel, more);
    case AndThen(q, f) => AndThenMono(g, q, f, input, pos, fuel, more);
    case FlatMap(q, k) => FlatMapMono(g, q, k, input, pos, fuel, more);
    case Pair(l, r) => PairMono(g, l, r, input, pos, fuel, more);
    case UseLeft(l, r) => UseLeftMono(g, l, r, input, pos, fuel, more);
    case UseRight(l, r) => UseRightMono(g, l, r, input, pos, fuel, more);
    case Between(q, l, r) => BetweenMono(g, q, l, r, input, pos, fuel, more);
    case Or(l, r) => OrMono(g, l, r, input, pos, fuel, more);
    case Some(q) => SomeMono(g, q, input, pos, fuel, more);
    case Many(q) => ManyMono(g, q, input, pos, fuel, more);
    case ManyTill(q, e) => ManyTillLoopMono(g, q, e, input, pos, fuel, more, []);
    case Filter(q, f) => FilterMono(g, q, f, input, pos, fuel, more);
    case Split(q, sep) => SplitMono(g, q, sep, input, pos, fuel, more);
    case Label(q, m) => LabelMono(g, q, m, input, pos, fuel, more);
    case Debug(q) => RunMono(g, q, input, pos, fuel, more);
    case Ref(k) => RefMono(g, k, input, pos, fuel, more);
  }

  /** A grammar-rule call that finished had fuel to spend. */
  lemma RefMono<U>(g: Grammar<U>, k: nat, input: seq<char>, pos: nat, fuel: nat, more: nat)
    requires pos <= |input| && fuel <= more
    requires !RefRaw(g, k, input, pos, fuel).reply.Diverged?
    ensures RefRaw(g, k, input, pos, more) == RefRaw(g, k, input, pos, fuel)
    decreases fuel, 0, 0, 0
  {
    RawMono(g, g(k), input, pos, fuel - 1, more - 1);
  }

  lemma MapMono<U>(g: Grammar<U>, q: Parser<U>, f: Value<U> -> Value<U>, input: seq<char>, pos: nat,
                   fuel: nat, more: nat)
    requires pos <= |input| && fuel <= more
    requires !MapRaw(g, q, f, input, pos, fuel).reply.Diverged?
    ensures MapRaw(g, q, f, input, pos, more) == MapRaw(g, q, f, input, pos, fuel)
    decreases fuel, Size(Map(q, f)), 0, 0
  {
    RunMono(g, q, input, pos, fuel, more);
  }

  lemma AndThenMono<U>(g: Grammar<U>, q: Parser<U>, f: Value<U> -> Result<Value<U>, string>, input: seq<char>,
                       pos: nat, fuel: nat, more: nat)
    requires pos <= |input| && fuel <= more
    requires !AndThenRaw(g, q, f, input, pos, fuel).reply.Diverged?
    ensures AndThenRaw(g, q, f, input, pos, more) == AndThenRaw(g, q, f, input, pos, fuel)
    decreases fuel, Size(AndThen(q, f)), 0, 0
  {
    RunMono(g, q, input, pos, fuel, more);
  }

  /** A continuation that ran had fuel to spend, and ran with one unit less. */
  lemma FlatMapMono<U>(g: Grammar<U>, q: Parser<U>, k: Value<U> -> Parser<U>, input: seq<char>, pos: nat,
                       fuel: nat, more: nat)
    requires pos <= |input| && fuel <= more
    requires !FlatMapRaw(g, q, k, input, pos, fuel).reply.Diverged?
    ensures FlatMapRaw(g, q, k, input, pos, more) == FlatMapRaw(g, q, k, input, pos, fuel)
    decreases fuel, Size(FlatMap(q, k)), 0, 0
  {
    var s := Run(g, q, input, pos, fuel);
    RunMono(g, q, input, pos, fuel, more);
    if s.reply.Success? {
      RunMono(g, k(s.reply.value), input, s.pos, fuel - 1, more - 1);
    }
  }

  lemma PairMono<U>(g: Grammar<U>, l: Parser<U>, r: Parser<U>, input: seq<char>, pos: nat, fuel: nat, more: nat)
    requires pos <= |input| && fuel <= more
    requires !PairRaw(g, l, r, input, pos, fuel).reply.Diverged?
    ensures PairRaw(g, l, r, input, pos, more) == PairRaw(g, l, r, input, pos, fuel)
    decreases fuel, Size(Pair(l, r)), 0, 0
  {
    var a := Run(g, l, input, pos, fuel);
    RunMono(g, l, input, pos, fuel, more);
    if a.reply.Success? {
      RunMono(g, r, input, a.pos, fuel, more);
    }
  }

  lemma UseLeftMono<U>(g: Grammar<U>, l: Parser<U>, r: Parser<U>, input: seq<char>, pos: nat,
                       fuel: nat, more: nat)
    requires pos <= |input| && fuel <= more
    requires !UseLeftRaw(g, l, r, input, pos, fuel).reply.Diverged?
    ensures UseLeftRaw(g, l, r, input, pos, more) == UseLeftRaw(g, l, r, input, pos, fuel)
    decreases fuel, Size(UseLeft(l, r)), 0, 0
  {
    assert Size(Map(Pair(l, r), First)) == 2 + Size(l) + Size(r);
    RunMono(g, Map(Pair(l, r), First), input, pos, fuel, more);
  }

  lemma UseRightMono<U>(g: Grammar<U>, l: Parser<U>, r: Parser<U>, input: seq<char>, pos: nat,
                        fuel: nat, more: nat)
    requires pos <= |input| && fuel <= more
    requires !UseRightRaw(g, l, r, input, pos, fuel).reply.Diverged?
    ensures UseRightRaw(g, l, r, input, pos, more) == UseRightRaw(g, l, r, input, pos, fuel)
    decreases fuel, Size(UseRight(l, r)), 0, 0
  {
    assert Size(Map(Pair(l, r), Second)) == 2 + Size(l) + Size(r);
    RunMono(g, Map(Pair(l, r), Second), input, pos, fuel, more);
  }

  lemma BetweenMono<U>(g: Grammar<U>, q: Parser<U>, l: Parser<U>, r: Parser<U>, input: seq<char>, pos: nat,
                       fuel: nat, more: nat)
    requires pos <= |input| && fuel <= more
    requires !BetweenRaw(g, q, l, r, input, pos, fuel).reply.Diverged?
    ensures BetweenRaw(g, q, l, r, input, pos, more) == BetweenRaw(g, q, l, r, input, pos, fuel)
    decreases fuel, Size(Between(q, l, r)), 0, 0
  {
    assert Size(UseLeft(UseRight(l, q), r)) == 6 + Size(l) + Size(q) + Size(r);
    RunMono(g, UseLeft(UseRight(l, q), r), input, pos, fuel, more);
  }

  lemma OrMono<U>(g: Grammar<U>, l: Parser<U>, r: Parser<U>, input: seq<char>, pos: nat, fuel: nat, more: nat)
    requires pos <= |input| && fuel <= more
    requires !OrRaw(g, l, r, input, pos, fuel).reply.Diverged?
    ensures OrRaw(g, l, r, input, pos, more) == OrRaw(g, l, r, input, pos, fuel)
    decreases fuel, Size(Or(l, r)), 0, 0
  {
    var a := Run(g, l, input, pos, fuel);
    RunMono(g, l, input, pos, fuel, more);
    if a.reply.Failure? {
      RunMono(g, r, input, a.pos, fuel, more);
    }
  }

  lemma SomeMono<U>(g: Grammar<U>, q: Parser<U>, input: seq<char>, pos: nat, fuel: nat, more: nat)
    requires pos <= |input| && fuel <= more
    requires !SomeRaw(g, q, input, pos, fuel).reply.Diverged?
    ensures SomeRaw(g, q, input, pos, more) == SomeRaw(g, q, input, pos, fuel)
    decreases fuel, Size(Some(q)), 0, 0
  {
    var a := Run(g, q, input, pos, fuel);
    RunMono(g, q, input, pos, fuel, more);
    if a.reply.Success? {
      SomeLoopMono(g, q, input, a.pos, fuel, more, [a.reply.value]);
    }
  }

  /** Each round of the loop finished, so each round is the same with more
      fuel, and so is the number of rounds. */
  lemma SomeLoopMono<U>(g: Grammar<U>, q: Parser<U>, input: seq<char>, pos: nat, fuel: nat, more: nat,
                        acc: seq<Value<U>>)
    requires pos <= |input| && fuel <= more
    requires !SomeLoop(g, q, input, pos, fuel, acc).reply.Diverged?
    ensures SomeLoop(g, q, input, pos, more, acc) == SomeLoop(g, q, input, pos, fuel, acc)
    decreases fuel, Size(q), 3, |input| - pos
  {
    var a := Run(g, q, input, pos, fuel);
    RunMono(g, q, input, pos, fuel, more);
    if a.reply.Success? {
      SomeLoopMono(g, q, input, a.pos, fuel, more, acc + [a.reply.value]);
    }
  }

  lemma ManyMono<U>(g: Grammar<U>, q: Parser<U>, input: seq<char>, pos: nat, fuel: nat, more: nat)
    requires pos <= |input| && fuel <= more
    requires !ManyRaw(g, q, input, pos, fuel).reply.Diverged?
    ensures ManyRaw(g, q, input, pos, more) == ManyRaw(g, q, input, pos, fuel)
    decreases fuel, Size(Many(q)), 0, 0
  {
    SomeMono(g, q, input, pos, fuel, more);
  }

  lemma ManyTillLoopMono<U>(g: Grammar<U>, q: Parser<U>, e: Parser<U>, input: seq<char>, pos: nat, fuel: nat,
                            more: nat, acc: seq<Value<U>>)
    requires pos <= |input| && fuel <= more
    requires !ManyTillLoop(g, q, e, input, pos, fuel, acc).reply.Diverged?
    ensures ManyTillLoop(g, q, e, input, pos, more, acc) == ManyTillLoop(g, q, e, input, pos, fuel, acc)
    decreases fuel, Size(q) + Size(e), 3, |input| - pos
  {
    var t := Run(g, e, input, pos, fuel);
    RunMono(g, e, input, pos, fuel, more);
    if !t.reply.Failure? {
      ManyTillEndStops(g, q, e, input, pos, fuel, more, acc);
    } else {
      var a := Run(g, q, input, pos, fuel);
      RunMono(g, q, input, pos, fuel, more);
      if a.reply.Success? && a.pos > pos {
        ManyTillLoopMono(g, q, e, input, a.pos, fuel, more, acc + [a.reply.value]);
      }
      ManyTillRound(g, q, e, input, pos, fuel, more, acc);
    }
  }

  /** The `while` condition decided the same way with both amounts: `end`
      succeeded or diverged. */
  lemma ManyTillEndStops<U>(g: Grammar<U>, q: Parser<U>, e: Parser<U>, input: seq<char>, pos: nat, fuel: nat,
                            more: nat, acc: seq<Value<U>>)
    requires pos <= |input|
    requires Run(g, e, input, pos, more) == Run(g, e, input, pos, fuel)
    requires !Run(g, e, input, pos, fuel).reply.Failure?
    ensures ManyTillLoop(g, q, e, input, pos, more, acc) == ManyTillLoop(g, q, e, input, pos, fuel, acc)
  {
  }

  /** One round of the loop after `end` failed the same way with both
      amounts, the parent ran the same way, and the rest of the loop (if the
      parent moved on) gives the same step. */
  lemma ManyTillRound<U>(g: Grammar<U>, q: Parser<U>, e: Parser<U>, input: seq<char>, pos: nat, fuel: nat,
                         more: nat, acc: seq<Value<U>>)
    requires pos <= |input|
    requires Run(g, e, input, pos, more) == Run(g, e, input, pos, fuel)
    requires Run(g, e, input, pos, fuel).reply.Failure?
    requires Run(g, q, input, pos, more) == Run(g, q, input, pos, fuel)
    requires var a := Run(g, q, input, pos, fuel);
      a.reply.Success? && a.pos > pos ==>
        ManyTillLoop(g, q, e, input, a.pos, more, acc + [a.reply.value])
          == ManyTillLoop(g, q, e, input, a.pos, fuel, acc + [a.reply.value])
    ensures ManyTillLoop(g, q, e, input, pos, more, acc) == ManyTillLoop(g, q, e, input, pos, fuel, acc)
  {
  }

  lemma FilterMono<U>(g: Grammar<U>, q: Parser<U>, f: Value<U> -> bool, input: seq<char>, pos: nat,
                      fuel: nat, more: nat)
    requires pos <= |input| && fuel <= more
    requires !FilterRaw(g, q, f, input, pos, fuel).reply.Diverged?
    ensures FilterRaw(g, q, f, input, pos, more) == FilterRaw(g, q, f, input, pos, fuel)
    decreases fuel, Size(Filter(q, f)), 0, 0
  {
    RunMono(g, q, input, pos, fuel, more);
  }

  lemma SplitMono<U>(g: Grammar<U>, q: Parser<U>, sep: Parser<U>, input: seq<char>, pos: nat,
                     fuel: nat, more: nat)
    requires pos <= |input| && fuel <= more
    requires !SplitRaw(g, q, sep, input, pos, fuel).reply.Diverged?
    ensures SplitRaw(g, q, sep, input, pos, more) == SplitRaw(g, q, sep, input, pos, fuel)
    decreases fuel, Size(Split(q, sep)), 0, 0
  {
    var a := Run(g, q, input, pos, fuel);
    RunMono(g, q, input, pos, fuel, more);
    if a.reply.Success? {
      SplitRestMono(g, q, sep, a.reply.value, input, a.pos, fuel, more);
    }
  }

  lemma SplitRestMono<U>(g: Grammar<U>, q: Parser<U>, sep: Parser<U>, first: Value<U>, input: seq<char>,
                         pos: nat, fuel: nat, more: nat)
    requires pos <= |input| && fuel <= more
    requires !SplitRest(g, q, sep, first, input, pos, fuel).reply.Diverged?
    ensures SplitRest(g, q, sep, first, input, pos, more) == SplitRest(g, q, sep, first, input, pos, fuel)
    decreases fuel, 5 + Size(q) + Size(sep), 1, 0
  {
    assert Size(Many(UseRight(sep, q))) == 5 + Size(sep) + Size(q);
    ManyMono(g, UseRight(sep, q), input, pos, fuel, more);
  }

  lemma LabelMono<U>(g: Grammar<U>, q: Parser<U>, m: () -> string, input: seq<char>, pos: nat,
                     fuel: nat, more: nat)
    requires pos <= |input| && fuel <= more
    requires !LabelRaw(g, q, m, input, pos, fuel).reply.Diverged?
    ensures LabelRaw(g, q, m, input, pos, more) == LabelRaw(g, q, m, input, pos, fuel)
    decreases fuel, Size(Label(q, m)), 0, 0
  {
    RunMono(g, q, input, pos, fuel, more);
  }

  // ---------------------------------------------------------------------------
  // Runs that finish

  /** `p` with `fuel` finishes (succeeds or fails) from the offset `pos`. */
  ghost predicate Halts<U>(g: Grammar<U>, p: Parser<U>, input: seq<char>, pos: nat, fuel: nat)
    requires pos <= |input|
  {
    !Run(g, p, input, pos, fuel).reply.Diverged?
  }

  /** `p` with `fuel` finishes from every offset from `lo` on. */
  ghost predicate HaltsFrom<U>(g: Grammar<U>, p: Parser<U>, input: seq<char>, lo: nat, fuel: nat) {
    forall j | lo <= j <= |input| :: Halts(g, p, input, j, fuel)
  }

  /** Every success of `p` from an offset from `lo` on consumes input. */
  ghost predicate ConsumesFrom<U>(g: Grammar<U>, p: Parser<U>, input: seq<char>, lo: nat, fuel: nat) {
    forall j | lo <= j <= |input| :: Run(g, p, input, j, fuel).reply.Success? ==> Run(g, p, input, j, fuel).pos > j
  }

  lemma HaltsFromLater<U>(g: Grammar<U>, p: Parser<U>, input: seq<char>, lo: nat, hi: nat, fuel: nat)
    requires lo <= hi && HaltsFrom(g, p, input, lo, fuel)
    ensures HaltsFrom(g, p, input, hi, fuel)
  {
    forall j | hi <= j <= |input| ensures Halts(g, p, input, j, fuel) {
      assert lo <= j;
    }
  }

  /** `string(lit)` always finishes. */
  lemma StrHalts<U>(g: Grammar<U>, lit: string, input: seq<char>, lo: nat, fuel: nat)
    ensures HaltsFrom(g, Str(lit), input, lo, fuel)
  {
    forall j | lo <= j <= |input| ensures Halts(g, Str(lit), input, j, fuel) {
      assert RawRun(g, Str(lit), input, j, fuel) == StrRaw(lit, input, j);
    }
  }

  /** `fail(m)` always finishes. */
  lemma FailHalts<U>(g: Grammar<U>, m: () -> string, input: seq<char>, lo: nat, fuel: nat)
    ensures HaltsFrom(g, Fail(m), input, lo, fuel)
  {
    forall j | lo <= j <= |input| ensures Halts(g, Fail(m), input, j, fuel) {
      assert RawRun(g, Fail(m), input, j, fuel) == Step(Failure(Error(j, m())), j);
    }
  }

  lemma MapHalts<U>(g: Grammar<U>, q: Parser<U>, f: Value<U> -> Value<U>, input: seq<char>, lo: nat, fuel: nat)
    requires HaltsFrom(g, q, input, lo, fuel)
    ensures HaltsFrom(g, Map(q, f), input, lo, fuel)
  {
    forall j | lo <= j <= |input| ensures Halts(g, Map(q, f), input, j, fuel) {
      assert Halts(g, q, input, j, fuel);
      assert RawRun(g, Map(q, f), input, j, fuel) == MapRaw(g, q, f, input, j, fuel);
    }
  }

  /** `pair` finishes when both sides finish from where they start. */
  lemma PairHalts<U>(g: Grammar<U>, l: Parser<U>, r: Parser<U>, input: seq<char>, lo: nat, fuel: nat)
    requires HaltsFrom(g, l, input, lo, fuel) && HaltsFrom(g, r, input, lo, fuel)
    ensures HaltsFrom(g, Pair(l, r), input, lo, fuel)
  {
    forall j | lo <= j <= |input| ensures Halts(g, Pair(l, r), input, j, fuel) {
      var a := Run(g, l, input, j, fuel);
      assert Halts(g, l, input, j, fuel);
      if a.reply.Success? {
        assert Halts(g, r, input, a.pos, fuel);
      }
      assert RawRun(g, Pair(l, r), input, j, fuel) == PairRaw(g, l, r, input, j, fuel);
    }
  }

  lemma OrHalts<U>(g: Grammar<U>, l: Parser<U>, r: Parser<U>, input: seq<char>, lo: nat, fuel: nat)
    requires HaltsFrom(g, l, input, lo, fuel) && HaltsFrom(g, r, input, lo, fuel)
    ensures HaltsFrom(g, Or(l, r), input, lo, fuel)
  {
    forall j | lo <= j <= |input| ensures Halts(g, Or(l, r), input, j, fuel) {
      assert Halts(g, l, input, j, fuel) && Halts(g, r, input, j, fuel);
      assert RawRun(g, Or(l, r), input, j, fuel) == OrRaw(g, l, r, input, j, fuel);
    }
  }

  /** `flat_map` finishes when its parent does and, with one unit of fuel
      less, every parser its continuation may build does. */
  lemma FlatMapHalts<U>(g: Grammar<U>, q: Parser<U>, k: Value<U> -> Parser<U>, input: seq<char>, lo: nat,
                        fuel: nat)
    requires fuel >= 1 && HaltsFrom(g, q, input, lo, fuel)
    requires forall v :: HaltsFrom(g, k(v), input, lo, fuel - 1)
    ensures HaltsFrom(g, FlatMap(q, k), input, lo, fuel)
  {
    forall j | lo <= j <= |input| ensures Halts(g, FlatMap(q, k), input, j, fuel) {
      var a := Run(g, q, input, j, fuel);
      assert Halts(g, q, input, j, fuel);
      if a.reply.Success? {
        assert HaltsFrom(g, k(a.reply.value), input, lo, fuel - 1);
        assert Halts(g, k(a.reply.value), input, a.pos, fuel - 1);
      }
      assert RawRun(g, FlatMap(q, k), input, j, fuel) == FlatMapRaw(g, q, k, input, j, fuel);
    }
  }

  /** The `while` loop of `Some` over a parent that finishes and consumes
      input whenever it succeeds stops before the input runs out. */
  lemma SomeLoopHalts<U>(g: Grammar<U>, q: Parser<U>, input: seq<char>, lo: nat, pos: nat, fuel: nat,
                         acc: seq<Value<U>>)
    requires lo <= pos <= |input|
    requires HaltsFrom(g, q, input, lo, fuel) && ConsumesFrom(g, q, input, lo, fuel)
    ensures !SomeLoop(g, q, input, pos, fuel, acc).reply.Diverged?
    decreases |input| - pos
  {
    var a := Run(g, q, input, pos, fuel);
    assert Halts(g, q, input, pos, fuel);
    if a.reply.Success? {
      assert a.pos > pos;
      SomeLoopHalts(g, q, input, lo, a.pos, fuel, acc + [a.reply.value]);
    }
  }

  /** `many` over a parent that finishes and consumes input whenever it
      succeeds finishes. */
  lemma ManyHalts<U>(g: Grammar<U>, q: Parser<U>, input: seq<char>, lo: nat, fuel: nat)
    requires HaltsFrom(g, q, input, lo, fuel) && ConsumesFrom(g, q, input, lo, fuel)
    ensures HaltsFrom(g, Many(q), input, lo, fuel)
  {
    forall j | lo <= j <= |input| ensures Halts(g, Many(q), input, j, fuel) {
      var a := Run(g, q, input, j, fuel);
      assert !SomeRaw(g, q, input, j, fuel).reply.Diverged? by {
        assert Halts(g, q, input, j, fuel);
        if a.reply.Success? {
          SomeLoopHalts(g, q, input, lo, a.pos, fuel, [a.reply.value]);
        }
      }
      assert RawRun(g, Many(q), input, j, fuel) == ManyRaw(g, q, input, j, fuel);
    }
  }
}
