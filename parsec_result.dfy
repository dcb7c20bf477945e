/** parsec/src/result.rs: the engine's only error type, a position plus a message. */
module ParsecResult {
  import opened Numerals

  /** `Error { pos, msg }`; the datatype constructor is `Error::new`, which stores
      both arguments unchanged. Messages are plain strings: the lazily computed
      `Cow` text is not modelled. */
  datatype Error = Error(pos: nat, msg: string)

  const EndOfStream: string := "end of stream"

  /** `Error::eos`: the error `next` reports when no character is left. */
  function Eos(pos: nat): (e: Error)
    ensures e.pos == pos && e.msg == "end of stream"
  {
    Error(pos, EndOfStream)
  }

  /** `Display for Error`: the position in brackets, a space, the message. */
  function Render(e: Error): string {
    "[" + Decimal(e.pos) + "] " + e.msg
  }

  lemma RenderLayout(e: Error)
    ensures var r, d := Render(e), Decimal(e.pos);
      |r| == |d| + 3 + |e.msg| && r[0] == '[' && r[1..|d| + 1] == d &&
      r[|d| + 1] == ']' && r[|d| + 2] == ' ' && r[|d| + 3..] == e.msg
  {
  }

  /** Rendering loses nothing: two errors render alike only when they are equal. */
  lemma RenderInjective(a: Error, b: Error)
    ensures Render(a) == Render(b) ==> a == b
  {
    if Render(a) == Render(b) {
      var r, da, db := Render(a), Decimal(a.pos), Decimal(b.pos);
      RenderLayout(a);
      RenderLayout(b);
      assert da == r[1..|da| + 1] == db;
      DecimalInjective(a.pos, b.pos);
    }
  }
}
