/** The parser contract of parsec/src/parser.rs and the `parse_raw` of every
    parser struct of parsec/src/adapters.rs, consumers.rs, just.rs, fail.rs and
    any.rs, written as pure functions of the input and the cursor offset.
    `ParsecEngine` runs the same parsers imperatively on a `Context` and is
    proved to agree with these functions. */
module ParsecSemantics {
  import opened RustResult
  import opened ParsecResult
  import opened ParsecContext

  /** Parser outputs. Rust gives each parser its own output type; the model uses
      one type: `()`, `char`, `String`, `i64`, `bool`, a pair, a `Vec`, or a value
      of the grammar built on the engine (`U`). */
  datatype Value<U> =
    | Unit
    | Chr(c: char)
    | Text(s: string)
    | Num(n: int)
    | Flag(b: bool)
    | Tuple(fst: Value<U>, snd: Value<U>)
    | List(items: seq<Value<U>>)
    | Custom(u: U)

  /** One constructor per parser struct. A builder method of the `Parser` trait
      (`map`, `pair`, `between`, ...) is the constructor of the same name: it
      only stores its receiver and arguments. Closures are total functions;
      `Debug`'s observer callback is left out. `Ref(k)` stands for calling the
      grammar-rule function `k` (such as `exp()`) to rebuild a parser, which is
      how a grammar refers to itself. */
  datatype Parser<!U> =
    | AnyChar
    | Str(literal: string)
    | EOS
    | Just(output: () -> Value<U>)
    | Fail(message: () -> string)
    | Any(inner: Parser<U>)
    | Map(parent: Parser<U>, f: Value<U> -> Value<U>)
    | AndThen(parent: Parser<U>, check: Value<U> -> Result<Value<U>, string>)
    | FlatMap(parent: Parser<U>, next: Value<U> -> Parser<U>)
    | Pair(left: Parser<U>, right: Parser<U>)
    | UseLeft(left: Parser<U>, right: Parser<U>)
    | UseRight(left: Parser<U>, right: Parser<U>)
    | Between(parent: Parser<U>, left: Parser<U>, right: Parser<U>)
    | Or(left: Parser<U>, right: Parser<U>)
    | Some(parent: Parser<U>)
    | Many(parent: Parser<U>)
    | ManyTill(parent: Parser<U>, end: Parser<U>)
    | Filter(parent: Parser<U>, pred: Value<U> -> bool)
    | Split(parent: Parser<U>, sep: Parser<U>)
    | Label(parent: Parser<U>, message: () -> string)
    | Debug(parent: Parser<U>)
    | Ref(rule: nat)

  /** The grammar-rule functions a `Ref` may call. */
  type Grammar<!U> = nat -> Parser<U>

  /** The outcome of one parse. `Diverged` is a run for which the source never
      returns: a repetition whose parent succeeded without consuming anything
      (it is then re-run on the same cursor forever), or a recursion deeper than
      the fuel the caller granted. */
  datatype Reply<U> = Success(value: Value<U>) | Failure(error: Error) | Diverged

  /** A reply and the cursor offset after it. */
  datatype Step<U> = Step(reply: Reply<U>, pos: nat)

  /** Measure for the parsers defined by re-parsing a composition of others. */
  function Size<U>(p: Parser<U>): nat {
    match p
    case AnyChar => 1
    case Str(_) => 1
    case EOS => 1
    case Just(_) => 1
    case Fail(_) => 1
    case Ref(_) => 1
    case Any(q) => 1 + Size(q)
    case Map(q, _) => 1 + Size(q)
    case AndThen(q, _) => 1 + Size(q)
    case FlatMap(q, _) => 1 + Size(q)
    case Some(q) => 1 + Size(q)
    case Filter(q, _) => 1 + Size(q)
    case Label(q, _) => 1 + Size(q)
    case Debug(q) => 1 + Size(q)
    case Many(q) => 2 + Size(q)
    case Pair(l, r) => 1 + Size(l) + Size(r)
    case Or(l, r) => 1 + Size(l) + Size(r)
    case UseLeft(l, r) => 3 + Size(l) + Size(r)
    case UseRight(l, r) => 3 + Size(l) + Size(r)
    case ManyTill(q, e) => 1 + Size(q) + Size(e)
    case Between(q, l, r) => 7 + Size(q) + Size(l) + Size(r)
    case Split(q, sep) => 6 + Size(q) + Size(sep)
  }

  /** The two halves of a `Pair`'s value (`use_left` / `use_right` keep one). */
  function First<U>(v: Value<U>): Value<U> {
    if v.Tuple? then v.fst else v
  }

  function Second<U>(v: Value<U>): Value<U> {
    if v.Tuple? then v.snd else v
  }

  /** `begin_tran`: keep what the body did unless it failed, in which case the
      cursor goes back to where the transaction began. */
  function Transaction<U>(start: nat, s: Step<U>): Step<U> {
    if s.reply.Failure? then Step(s.reply, start) else s
  }

  /** `Parser::parse`: `parse_raw` inside a transaction. A failed parse leaves the
      cursor where it was and reports a position between there and the end. */
  function Run<U>(g: Grammar<U>, p: Parser<U>, input: seq<char>, pos: nat, fuel: nat): (s: Step<U>)
    requires pos <= |input|
    ensures pos <= s.pos <= |input|
    ensures s.reply.Failure? ==> s.pos == pos && pos <= s.reply.error.pos <= |input|
    decreases fuel, Size(p), 2, 0
  {
    Transaction(pos, RawRun(g, p, input, pos, fuel))
  }

  /** `Parser::parse_raw`, one case per parser struct. */
  function RawRun<U>(g: Grammar<U>, p: Parser<U>, input: seq<char>, pos: nat, fuel: nat): (s: Step<U>)
    requires pos <= |input|
    ensures pos <= s.pos <= |input|
    ensures s.reply.Failure? ==> pos <= s.reply.error.pos <= |input|
    decreases fuel, Size(p), 1, 0
  {
    match p
    case AnyChar => AnyCharRaw(input, pos)
    case Str(lit) => StrRaw(lit, input, pos)
    case EOS => EosRaw(input, pos)
    case Just(f) => Step(Success(f()), pos)
    case Fail(m) => Step(Failure(Error(pos, m())), pos)
    case Any(q) => Run(g, q, input, pos, fuel)
    case Map(q, f) => MapRaw(g, q, f, input, pos, fuel)
    case AndThen(q, f) => AndThenRaw(g, q, f, input, pos, fuel)
    case FlatMap(q, k) => FlatMapRaw(g, q, k, input, pos, fuel)
    case Pair(l, r) => PairRaw(g, l, r, input, pos, fuel)
    case UseLeft(l, r) => UseLeftRaw(g, l, r, input, pos, fuel)
    case UseRight(l, r) => UseRightRaw(g, l, r, input, pos, fuel)
    case Between(q, l, r) => BetweenRaw(g, q, l, r, input, pos, fuel)
    case Or(l, r) => OrRaw(g, l, r, input, pos, fuel)
    case Some(q) => SomeRaw(g, q, input, pos, fuel)
    case Many(q) => ManyRaw(g, q, input, pos, fuel)
    case ManyTill(q, e) => ManyTillLoop(g, q, e, input, pos, fuel, [])
    case Filter(q, f) => FilterRaw(g, q, f, input, pos, fuel)
    case Split(q, sep) => SplitRaw(g, q, sep, input, pos, fuel)
    case Label(q, m) => LabelRaw(g, q, m, input, pos, fuel)
    case Debug(q) => Run(g, q, input, pos, fuel)
    case Ref(k) => RefRaw(g, k, input, pos, fuel)
  }

  /** `UseLeft::parse_raw`: `left.pair(right).map(|(l, _)| l)`. */
  function UseLeftRaw<U>(g: Grammar<U>, l: Parser<U>, r: Parser<U>, input: seq<char>, pos: nat,
                         fuel: nat): (s: Step<U>)
    requires pos <= |input|
    ensures pos <= s.pos <= |input|
    ensures s.reply.Failure? ==> pos <= s.reply.error.pos <= |input|
    decreases fuel, Size(UseLeft(l, r)), 0, 0
  {
    assert Size(Map(Pair(l, r), First)) == 2 + Size(l) + Size(r);
    Run(g, Map(Pair(l, r), First), input, pos, fuel)
  }

  /** `UseRight::parse_raw`: `left.pair(right).map(|(_, r)| r)`. */
  function UseRightRaw<U>(g: Grammar<U>, l: Parser<U>, r: Parser<U>, input: seq<char>, pos: nat,
                          fuel: nat): (s: Step<U>)
    requires pos <= |input|
    ensures pos <= s.pos <= |input|
    ensures s.reply.Failure? ==> pos <= s.reply.error.pos <= |input|
    decreases fuel, Size(UseRight(l, r)), 0, 0
  {
    assert Size(Map(Pair(l, r), Second)) == 2 + Size(l) + Size(r);
    Run(g, Map(Pair(l, r), Second), input, pos, fuel)
  }

  /** `Between::parse_raw`: `left.use_right(parent).use_left(right)`. */
  function BetweenRaw<U>(g: Grammar<U>, q: Parser<U>, l: Parser<U>, r: Parser<U>, input: seq<char>,
                         pos: nat, fuel: nat): (s: Step<U>)
    requires pos <= |input|
    ensures pos <= s.pos <= |input|
    ensures s.reply.Failure? ==> pos <= s.reply.error.pos <= |input|
    decreases fuel, Size(Between(q, l, r)), 0, 0
  {
    assert Size(UseLeft(UseRight(l, q), r)) == 6 + Size(l) + Size(q) + Size(r);
    Run(g, UseLeft(UseRight(l, q), r), input, pos, fuel)
  }

  /** Calling the grammar-rule function `k` builds its parser afresh; each call
      spends one unit of fuel. */
  function RefRaw<U>(g: Grammar<U>, k: nat, input: seq<char>, pos: nat, fuel: nat): (s: Step<U>)
    requires pos <= |input|
    ensures pos <= s.pos <= |input|
    ensures s.reply.Failure? ==> pos <= s.reply.error.pos <= |input|
    decreases fuel, 0, 0, 0
  {
    if fuel == 0 then Step(Diverged, pos) else RawRun(g, g(k), input, pos, fuel - 1)
  }

  /** `AnyChar::parse_raw`: `context.next()`. */
  function AnyCharRaw<U>(input: seq<char>, pos: nat): (s: Step<U>)
    requires pos <= |input|
    ensures pos <= s.pos <= |input|
    ensures s.reply.Failure? ==> pos <= s.reply.error.pos <= |input|
  {
    var (r, next) := NextChar(input, pos);
    Step(if r.Ok? then Success(Chr(r.value)) else Failure(r.error), next)
  }

  /** `Str::parse_raw`: the matching loop in a transaction of its own; whatever
      made it fail, the error is `expect "lit"` at the offset matching began. */
  function StrRaw<U>(lit: string, input: seq<char>, pos: nat): (s: Step<U>)
    requires pos <= |input|
    ensures pos <= s.pos <= |input|
    ensures s.reply.Failure? ==> pos <= s.reply.error.pos <= |input|
  {
    var (r, next) := MatchLiteral(lit, input, pos);
    if r.Ok? then Step(Success(Text(lit)), next)
    else Step(Failure(Error(pos, "expect \"" + lit + "\"")), pos)
  }

  /** `EOS::parse_raw`: succeed when `next` fails; otherwise fail at the offset
      after the character `next` consumed. */
  function EosRaw<U>(input: seq<char>, pos: nat): (s: Step<U>)
    requires pos <= |input|
    ensures pos <= s.pos <= |input|
    ensures s.reply.Failure? ==> pos <= s.reply.error.pos <= |input|
  {
    var (r, next) := NextChar(input, pos);
    if r.Err? then Step(Success(Unit), next)
    else Step(Failure(Error(next, "expect end of stream")), next)
  }

  /** `Map::parse_raw`: apply `f` to the parent's value. */
  function MapRaw<U>(g: Grammar<U>, q: Parser<U>, f: Value<U> -> Value<U>, input: seq<char>,
                     pos: nat, fuel: nat): (s: Step<U>)
    requires pos <= |input|
    ensures pos <= s.pos <= |input|
    ensures s.reply.Failure? ==> pos <= s.reply.error.pos <= |input|
    decreases fuel, Size(Map(q, f)), 0, 0
  {
    var s := Run(g, q, input, pos, fuel);
    if s.reply.Success? then Step(Success(f(s.reply.value)), s.pos) else s
  }

  /** `AndThen::parse_raw`: a rejection by `f` becomes an error at the offset the
      parent reached. */
  function AndThenRaw<U>(g: Grammar<U>, q: Parser<U>, f: Value<U> -> Result<Value<U>, string>,
                         input: seq<char>, pos: nat, fuel: nat): (s: Step<U>)
    requires pos <= |input|
    ensures pos <= s.pos <= |input|
    ensures s.reply.Failure? ==> pos <= s.reply.error.pos <= |input|
    decreases fuel, Size(AndThen(q, f)), 0, 0
  {
    var s := Run(g, q, input, pos, fuel);
    if s.reply.Success? then
      match f(s.reply.value)
      case Ok(v) => Step(Success(v), s.pos)
      case Err(m) => Step(Failure(Error(s.pos, m)), s.pos)
    else s
  }

  /** `FlatMap::parse_raw`: run the parser `k` builds from the parent's value;
      building it calls back into the grammar, so it spends one unit of fuel. */
  function FlatMapRaw<U>(g: Grammar<U>, q: Parser<U>, k: Value<U> -> Parser<U>, input: seq<char>,
                         pos: nat, fuel: nat): (s: Step<U>)
    requires pos <= |input|
    ensures pos <= s.pos <= |input|
    ensures s.reply.Failure? ==> pos <= s.reply.error.pos <= |input|
    decreases fuel, Size(FlatMap(q, k)), 0, 0
  {
    var s := Run(g, q, input, pos, fuel);
    if !s.reply.Success? then s
    else if fuel == 0 then Step(Diverged, s.pos)
    else Run(g, k(s.reply.value), input, s.pos, fuel - 1)
  }

  /** `Pair::parse_raw`: left, then right, each `?`-propagating its failure. */
  function PairRaw<U>(g: Grammar<U>, l: Parser<U>, r: Parser<U>, input: seq<char>, pos: nat,
                      fuel: nat): (s: Step<U>)
    requires pos <= |input|
    ensures pos <= s.pos <= |input|
    ensures s.reply.Failure? ==> pos <= s.reply.error.pos <= |input|
    decreases fuel, Size(Pair(l, r)), 0, 0
  {
    var a := Run(g, l, input, pos, fuel);
    if !a.reply.Success? then a
    else
      var b := Run(g, r, input, a.pos, fuel);
      if !b.reply.Success? then b
      else Step(Success(Tuple(a.reply.value, b.reply.value)), b.pos)
  }

  /** `Or::parse_raw`: if left fails, right runs from the restored offset; if
      both fail, the error with the larger position wins, ties going right. */
  function OrRaw<U>(g: Grammar<U>, l: Parser<U>, r: Parser<U>, input: seq<char>, pos: nat,
                    fuel: nat): (s: Step<U>)
    requires pos <= |input|
    ensures pos <= s.pos <= |input|
    ensures s.reply.Failure? ==> pos <= s.reply.error.pos <= |input|
    decreases fuel, Size(Or(l, r)), 0, 0
  {
    var a := Run(g, l, input, pos, fuel);
    if !a.reply.Failure? then a
    else
      var b := Run(g, r, input, a.pos, fuel);
      if !b.reply.Failure? then b
      else
        var le, re := a.reply.error, b.reply.error;
        Step(Failure(if le.pos > re.pos then le else re), b.pos)
  }

  /** `Some::parse_raw`: the first attempt must succeed, then the loop. */
  function SomeRaw<U>(g: Grammar<U>, q: Parser<U>, input: seq<char>, pos: nat, fuel: nat): (s: Step<U>)
    requires pos <= |input|
    ensures pos <= s.pos <= |input|
    ensures s.reply.Failure? ==> pos <= s.reply.error.pos <= |input|
    ensures s.reply.Success? ==> s.reply.value.List?
    decreases fuel, Size(Some(q)), 0, 0
  {
    var a := Run(g, q, input, pos, fuel);
    if !a.reply.Success? then a
    else SomeLoop(g, q, input, a.pos, fuel, [a.reply.value])
  }

  /** `Many::parse_raw`: `Some` of the parent, with its failure turned into `[]`. */
  function ManyRaw<U>(g: Grammar<U>, q: Parser<U>, input: seq<char>, pos: nat, fuel: nat): (s: Step<U>)
    requires pos <= |input|
    ensures pos <= s.pos <= |input|
    ensures s.reply.Failure? ==> pos <= s.reply.error.pos <= |input|
    ensures !s.reply.Failure? && (s.reply.Success? ==> s.reply.value.List?)
    decreases fuel, Size(Many(q)), 0, 0
  {
    var a := Transaction(pos, SomeRaw(g, q, input, pos, fuel));
    if a.reply.Failure? then Step(Success(List([])), a.pos) else a
  }

  /** `Filter::parse_raw`: a value the predicate rejects becomes "unsatisfied" at
      the offset the parent reached. */
  function FilterRaw<U>(g: Grammar<U>, q: Parser<U>, f: Value<U> -> bool, input: seq<char>,
                        pos: nat, fuel: nat): (s: Step<U>)
    requires pos <= |input|
    ensures pos <= s.pos <= |input|
    ensures s.reply.Failure? ==> pos <= s.reply.error.pos <= |input|
    decreases fuel, Size(Filter(q, f)), 0, 0
  {
    var s := Run(g, q, input, pos, fuel);
    if s.reply.Success? && !f(s.reply.value) then Step(Failure(Error(s.pos, "unsatisfied")), s.pos)
    else s
  }

  /** `Split::parse_raw`: one parent, then `sep.use_right(parent).many()`, with the
      first value put in front. */
  function SplitRaw<U>(g: Grammar<U>, q: Parser<U>, sep: Parser<U>, input: seq<char>, pos: nat,
                       fuel: nat): (s: Step<U>)
    requires pos <= |input|
    ensures pos <= s.pos <= |input|
    ensures s.reply.Failure? ==> pos <= s.reply.error.pos <= |input|
    ensures s.reply.Success? ==> s.reply.value.List?
    decreases fuel, Size(Split(q, sep)), 0, 0
  {
    var a := Run(g, q, input, pos, fuel);
    if !a.reply.Success? then a else SplitRest(g, q, sep, a.reply.value, input, a.pos, fuel)
  }

  /** The second half of `Split::parse_raw`: the separated repetitions, parsed as
      one transaction, with `first` inserted in front. `Many` never fails, so
      the transaction never rolls back and the `?` never returns early. */
  function SplitRest<U>(g: Grammar<U>, q: Parser<U>, sep: Parser<U>, first: Value<U>, input: seq<char>,
                        pos: nat, fuel: nat): (s: Step<U>)
    requires pos <= |input|
    ensures pos <= s.pos <= |input|
    ensures !s.reply.Failure?
    ensures s.reply.Success? ==> s.reply.value.List?
    decreases fuel, 5 + Size(q) + Size(sep), 1, 0
  {
    assert Size(Many(UseRight(sep, q))) == 5 + Size(sep) + Size(q);
    var b := Transaction(pos, ManyRaw(g, UseRight(sep, q), input, pos, fuel));
    if !b.reply.Success? then b
    else Step(Success(List([first] + b.reply.value.items)), b.pos)
  }

  /** `Label::parse_raw`: replace the message of a failure, keep its position. */
  function LabelRaw<U>(g: Grammar<U>, q: Parser<U>, m: () -> string, input: seq<char>, pos: nat,
                       fuel: nat): (s: Step<U>)
    requires pos <= |input|
    ensures pos <= s.pos <= |input|
    ensures s.reply.Failure? ==> pos <= s.reply.error.pos <= |input|
    decreases fuel, Size(Label(q, m)), 0, 0
  {
    var s := Run(g, q, input, pos, fuel);
    if s.reply.Failure? then Step(Failure(Error(s.reply.error.pos, m())), s.pos) else s
  }

  /** The `while let Ok(val) = self.parent.parse(context)` loop of `Some`, from
      offset `pos` with the values `acc` collected so far. */
  function SomeLoop<U>(g: Grammar<U>, q: Parser<U>, input: seq<char>, pos: nat, fuel: nat,
                       acc: seq<Value<U>>): (s: Step<U>)
    requires pos <= |input|
    ensures pos <= s.pos <= |input|
    ensures !s.reply.Failure?
    ensures s.reply.Success? ==> s.reply.value.List?
    decreases fuel, Size(q), 3, |input| - pos
  {
    var a := Run(g, q, input, pos, fuel);
    match a.reply
    case Success(v) =>
      if a.pos == pos then Step(Diverged, pos)
      else SomeLoop(g, q, input, a.pos, fuel, acc + [v])
    case Failure(_) => Step(Success(List(acc)), pos)
    case Diverged => a
  }

  /** The `while self.end.parse(context).is_err()` loop of `ManyTill`. */
  function ManyTillLoop<U>(g: Grammar<U>, q: Parser<U>, e: Parser<U>, input: seq<char>, pos: nat,
                           fuel: nat, acc: seq<Value<U>>): (s: Step<U>)
    requires pos <= |input|
    ensures pos <= s.pos <= |input|
    ensures s.reply.Failure? ==> pos <= s.reply.error.pos <= |input|
    ensures s.reply.Success? ==> s.reply.value.List?
    decreases fuel, Size(q) + Size(e), 3, |input| - pos
  {
    var t := Run(g, e, input, pos, fuel);
    match t.reply
    case Success(_) => Step(Success(List(acc)), t.pos)
    case Diverged => t
    case Failure(_) =>
      var a := Run(g, q, input, pos, fuel);
      match a.reply
      case Success(v) =>
        if a.pos == pos then Step(Diverged, pos)
        else ManyTillLoop(g, q, e, input, a.pos, fuel, acc + [v])
      case _ => a
  }

  /** The `for` loop of `Str::parse_raw`: read the literal's characters one by
      one with `next`; stop at the first that differs (error message "") or at the
      end of the stream. Returns the loop's result and the offset it stopped at. */
  function MatchLiteral(lit: string, input: seq<char>, pos: nat): (r: (Result<(), Error>, nat))
    requires pos <= |input|
    ensures pos <= r.1 <= |input|
    decreases |lit|
  {
    if lit == [] then (Ok(()), pos)
    else
      var (c, next) := NextChar(input, pos);
      if c.Err? then (Err(c.error), next)
      else if c.value != lit[0] then (Err(Error(next, "")), next)
      else MatchLiteral(lit[1..], input, next)
  }
}
