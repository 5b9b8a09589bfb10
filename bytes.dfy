/** Bytes and the little-endian 16-bit words that LD19Packet._parse reads with struct "<H". */
module Bytes {

  /** One byte of the serial stream: an element of a Python `bytes` value. */
  type byte = bv8

  /** An unsigned 16-bit word, as struct format "H" yields it. */
  type word = bv16

  /** The word whose low byte is `lo` and whose high byte is `hi`. */
  function Word(lo: byte, hi: byte): word
  {
    ((hi as word) << 8) | (lo as word)
  }

  /** The low (first on the wire) byte of a word. */
  function Low(w: word): byte
  {
    (w & 0xFF) as byte
  }

  /** The high (second on the wire) byte of a word. */
  function High(w: word): byte
  {
    (w >> 8) as byte
  }

  /** A word is rebuilt from its two bytes. */
  lemma WordOfBytes(w: word)
    ensures Word(Low(w), High(w)) == w
  {
  }

  /** The two bytes are recovered from the word they make. */
  lemma BytesOfWord(lo: byte, hi: byte)
    ensures Low(Word(lo, hi)) == lo && High(Word(lo, hi)) == hi
  {
  }

  /**
   * struct.unpack_from("<H", raw, offset)[0]: the word stored little-endian at `offset`,
   * low byte first.
   */
  function LE16(raw: seq<byte>, offset: nat): (w: word)
    requires offset + 2 <= |raw|
    ensures Low(w) == raw[offset] && High(w) == raw[offset + 1]
  {
    BytesOfWord(raw[offset], raw[offset + 1]);
    Word(raw[offset], raw[offset + 1])
  }

  /** The word read at `offset` has the value raw[offset] + 256 * raw[offset + 1]. */
  lemma LE16Value(raw: seq<byte>, offset: nat)
    requires offset + 2 <= |raw|
    ensures LE16(raw, offset) == raw[offset] as word + 256 * raw[offset + 1] as word
  {
  }

  /** The two bytes that carry `w` little-endian, as the sensor puts it on the wire. */
  function WordBytes(w: word): (b: seq<byte>)
    ensures |b| == 2
  {
    [Low(w), High(w)]
  }

  /** Reading a word back from its encoding gives the word that was encoded. */
  lemma ReadWordBytes(w: word, prefix: seq<byte>, suffix: seq<byte>)
    ensures LE16(prefix + WordBytes(w) + suffix, |prefix|) == w
  {
    var raw := prefix + WordBytes(w) + suffix;
    assert raw[|prefix|] == Low(w) && raw[|prefix| + 1] == High(w);
    WordOfBytes(w);
  }

  /** Any two bytes are the encoding of the word read from them. */
  lemma WordBytesOfRead(raw: seq<byte>, offset: nat)
    requires offset + 2 <= |raw|
    ensures WordBytes(LE16(raw, offset)) == raw[offset..offset + 2]
  {
  }
}
