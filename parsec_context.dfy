/** parsec/src/context.rs: the cursor. The input never changes; the `Chars`
    iterator's state is determined by the offset `pos`, so the characters it has
    still to yield are `input[pos..]` and a snapshot of the cursor is its offset. */
module ParsecContext {
  import opened RustResult
  import opened ParsecResult

  /** What `next` does to a cursor at offset `pos`: the character there and the
      advanced offset, or the end-of-stream error and the same offset. */
  function NextChar(input: seq<char>, pos: nat): (Result<char, Error>, nat)
    requires pos <= |input|
  {
    if pos < |input| then (Ok(input[pos]), pos + 1) else (Err(Eos(pos)), pos)
  }

  class Context {
    const input: seq<char>
    var pos: nat

    /** `pos` counts the characters consumed, so it never passes the end. */
    ghost predicate Valid()
      reads this
    {
      pos <= |input|
    }

    /** What the `chars` iterator has still to yield. */
    ghost function Remaining(): string
      reads this
      requires Valid()
    {
      input[pos..]
    }

    /** `Context::new(str.chars())` and `Context::from_str(str)`. */
    constructor (input: seq<char>)
      ensures Valid() && this.input == input && pos == 0 && Remaining() == input
    {
      this.input := input;
      pos := 0;
    }

    /** `next`: consume one character, or report the end of the stream and stay put. */
    method Next() returns (r: Result<char, Error>)
      requires Valid()
      modifies this
      ensures Valid()
      ensures (r, pos) == NextChar(input, old(pos))
      ensures old(pos) < |input| ==> r == Ok(input[old(pos)]) && pos == old(pos) + 1
      ensures old(pos) == |input| ==> r == Err(Error(old(pos), "end of stream")) && pos == old(pos)
    {
      if pos < |input| {
        r := Ok(input[pos]);
        pos := pos + 1;
      } else {
        r := Err(Eos(pos));
      }
    }

    /** `throw_parser_err`: an error at the current offset; being a function, it
        cannot change the cursor. */
    function ThrowParserErr(msg: string): (e: Error)
      reads this
      ensures e.pos == pos && e.msg == msg
    {
      Error(pos, msg)
    }

    /** `self.clone()`, the snapshot `begin_tran` takes. */
    method Clone() returns (c: Context)
      requires Valid()
      ensures fresh(c) && c.input == input && c.pos == pos
      ensures c.Valid()
    {
      c := new Context(input);
      c.pos := pos;
    }

    /** `*self = rollback_ctx`, the rollback `begin_tran` performs on failure. */
    method Restore(snapshot: Context)
      requires snapshot.input == input && snapshot.Valid()
      modifies this
      ensures Valid() && pos == snapshot.pos
    {
      pos := snapshot.pos;
    }
  }
}
