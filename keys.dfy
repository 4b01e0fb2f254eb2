/**
 * Key decoding: how the read loop of `run` turns the bytes of the input
 * stream into key presses. The loop reads one byte at a time; byte 27 starts
 * an escape sequence of exactly three bytes whose last byte names the arrow.
 */
module Keys {

  /** One byte of the input stream (Rust's u8). */
  type byte = x: int | 0 <= x < 256

  const CtrlC: byte := 3
  const CarriageReturn: byte := 13
  const Escape: byte := 27
  const Canc: byte := 126
  const Del: byte := 127

  /** The key presses the read loop tells apart. */
  datatype Key =
    | Interrupt
    | Enter
    | Backspace
    | Delete
    | Up
    | Down
    | Right
    | Left
    | Unrecognized
    | Char(c: char)
  {
    /** The keys that edit the line instead of ending the read loop. */
    predicate Edits() { !Interrupt? && !Enter? }
  }

  /** The outcome of reading one key: the key and the bytes after it, or a read error. */
  datatype Decoded = Decoded(key: Key, rest: seq<byte>) | EndOfInput

  /** A byte that the loop handles itself instead of inserting it. */
  predicate IsControl(b: byte) {
    b == CtrlC || b == CarriageReturn || b == Escape || b == Canc || b == Del
  }

  /** The last byte of an escape sequence selects the arrow; anything else is ignored. */
  function ArrowKey(b: byte): (k: Key)
    ensures k.Edits() && !k.Char?
    ensures k == Up <==> b == 65
    ensures k == Down <==> b == 66
    ensures k == Right <==> b == 67
    ensures k == Left <==> b == 68
    ensures k == Unrecognized <==> !(65 <= b <= 68)
  {
    if b == 65 then Up
    else if b == 66 then Down
    else if b == 67 then Right
    else if b == 68 then Left
    else Unrecognized
  }

  /** The key named by a byte that does not start an escape sequence. */
  function PlainKey(b: byte): (k: Key)
    requires b != Escape
    ensures k.Char? <==> !IsControl(b)
    ensures k.Char? ==> k.c as int == b
    ensures k == Interrupt <==> b == CtrlC
    ensures k == Enter <==> b == CarriageReturn
    ensures k == Delete <==> b == Canc
    ensures k == Backspace <==> b == Del
  {
    if b == CtrlC then Interrupt
    else if b == Canc then Delete
    else if b == Del then Backspace
    else if b == CarriageReturn then Enter
    else Char(b as char)
  }

  /**
   * Reads one key from the front of the input. Running out of bytes, also
   * after an escape byte, is a read error.
   */
  function Decode(input: seq<byte>): (d: Decoded)
    ensures d.EndOfInput? <==> input == [] || (input[0] == Escape && |input| < 3)
    ensures d.Decoded? && input[0] != Escape ==> d.key == PlainKey(input[0]) && d.rest == input[1..]
    ensures d.Decoded? && input[0] == Escape ==> d.key == ArrowKey(input[2]) && d.rest == input[3..] && !d.key.Char?
  {
    if input == [] then EndOfInput
    else if input[0] == Escape then
      if |input| < 3 then EndOfInput else Decoded(ArrowKey(input[2]), input[3..])
    else Decoded(PlainKey(input[0]), input[1..])
  }

  /** The keys that some byte sequence decodes to. */
  predicate Encodable(k: Key) {
    k.Char? ==> k.c as int < 256 && !IsControl(k.c as int)
  }

  /** The bytes a terminal sends for a key; arrows use the usual "ESC [ letter" form. */
  function Encode(k: Key): (bytes: seq<byte>)
    requires Encodable(k)
    ensures Decode(bytes) == Decoded(k, [])
  {
    match k
    case Interrupt => [CtrlC]
    case Enter => [CarriageReturn]
    case Backspace => [Del]
    case Delete => [Canc]
    case Up => [Escape, 91, 65]
    case Down => [Escape, 91, 66]
    case Right => [Escape, 91, 67]
    case Left => [Escape, 91, 68]
    case Unrecognized => [Escape, 91, 0]
    case Char(c) => [c as int]
  }

  /** Every key read from the stream has an encoding, and that encoding reads back as the same key. */
  lemma DecodeEncode(input: seq<byte>)
    requires Decode(input).Decoded?
    ensures Encodable(Decode(input).key)
    ensures Decode(Encode(Decode(input).key) + Decode(input).rest) == Decode(input)
  {
    var d := Decode(input);
    var e := Encode(d.key);
    assert (e + d.rest)[0] == e[0];
    if |e| == 3 {
      assert (e + d.rest)[2] == e[2];
      assert (e + d.rest)[3..] == d.rest;
    } else {
      assert (e + d.rest)[1..] == d.rest;
    }
  }

  /** Encoding a key and reading it back gives the key and leaves the bytes after it. */
  lemma EncodeDecode(k: Key, rest: seq<byte>)
    requires Encodable(k)
    ensures Decode(Encode(k) + rest) == Decoded(k, rest)
  {
    var e := Encode(k);
    assert (e + rest)[0] == e[0];
    if |e| == 3 {
      assert (e + rest)[2] == e[2];
      assert (e + rest)[3..] == rest;
    } else {
      assert (e + rest)[1..] == rest;
    }
  }

  /** The middle byte of an escape sequence is read and thrown away. */
  lemma EscapeIgnoresMiddleByte(a: byte, b: byte, last: byte, rest: seq<byte>)
    ensures Decode([Escape, a, last] + rest) == Decode([Escape, b, last] + rest)
  {
  }
}
