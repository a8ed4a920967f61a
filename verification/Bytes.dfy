/** Bytes, and the 16- and 32-bit words the PowerPC reads from them. */
module Bytes {

  type Byte = b: int | 0 <= b < 256
  type U16 = x: int | 0 <= x < 0x1_0000
  type U32 = x: int | 0 <= x < 0x1_0000_0000

  function Half(b0: Byte, b1: Byte): (h: U16) {
    256 * b0 + b1
  }

  /** The big-endian word made of four bytes. */
  function Word(b0: Byte, b1: Byte, b2: Byte, b3: Byte): (w: U32) {
    256 * (256 * (256 * b0 + b1) + b2) + b3
  }

  function WordBytes(w: U32): (bytes: seq<Byte>)
    ensures |bytes| == 4
  {
    var w1 := w / 256;
    var w2 := w1 / 256;
    [w2 / 256, w2 % 256, w1 % 256, w % 256]
  }

  /** A word is written as the bytes it is made of. */
  lemma BytesOfWord(b0: Byte, b1: Byte, b2: Byte, b3: Byte)
    ensures WordBytes(Word(b0, b1, b2, b3)) == [b0, b1, b2, b3]
  {
    var w2 := 256 * b0 + b1;
    var w1 := 256 * w2 + b2;
    assert (256 * w1 + b3) / 256 == w1 && (256 * w1 + b3) % 256 == b3;
    assert w1 / 256 == w2 && w1 % 256 == b2 && w2 / 256 == b0 && w2 % 256 == b1;
  }

  /** Reading back a word that was written. */
  lemma WordRoundTrip(w: U32)
    ensures var b := WordBytes(w); Word(b[0], b[1], b[2], b[3]) == w
  {
  }
}
