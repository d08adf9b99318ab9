/** Machine integers of the kernel and their little-endian byte images. */
module Words {

  type Byte = b: int | 0 <= b < 0x100
  type Half = h: int | 0 <= h < 0x1_0000
  type Word = w: int | 0 <= w < 0x1_0000_0000

  /** The four bytes of a 32-bit value, lowest byte first. */
  function WordBytes(w: Word): (b: seq<Byte>)
    ensures |b| == 4
  {
    [w % 0x100, (w / 0x100) % 0x100, (w / 0x1_0000) % 0x100, w / 0x100_0000]
  }

  function WordOf(b: seq<Byte>): Word
    requires |b| == 4
  {
    var b0: int, b1: int, b2: int, b3: int := b[0], b[1], b[2], b[3];
    b0 + 0x100 * b1 + 0x1_0000 * b2 + 0x100_0000 * b3
  }

  function HalfBytes(h: Half): (b: seq<Byte>)
    ensures |b| == 2
  {
    [h % 0x100, h / 0x100]
  }

  function HalfOf(b: seq<Byte>): Half
    requires |b| == 2
  {
    var b0: int, b1: int := b[0], b[1];
    b0 + 0x100 * b1
  }

  lemma WordRoundTrip(w: Word)
    ensures WordOf(WordBytes(w)) == w
  {
    var h: int, g: int := w / 0x100, w / 0x1_0000;
    assert w == 0x100 * h + w % 0x100;
    assert h == 0x100 * g + h % 0x100;
    assert g == 0x100 * (w / 0x100_0000) + g % 0x100;
  }

  lemma WordBytesOnto(b: seq<Byte>)
    requires |b| == 4
    ensures WordBytes(WordOf(b)) == b
  {
    var b0: int, b1: int, b2: int, b3: int := b[0], b[1], b[2], b[3];
    var w: int := WordOf(b);
    var h: int := b1 + 0x100 * b2 + 0x1_0000 * b3;
    assert w == b0 + 0x100 * h && w / 0x100 == h;
    var g: int := b2 + 0x100 * b3;
    assert h == b1 + 0x100 * g && h / 0x100 == g && w / 0x1_0000 == g;
    assert w / 0x100_0000 == b3;
  }

  lemma HalfBytesOnto(b: seq<Byte>)
    requires |b| == 2
    ensures HalfBytes(HalfOf(b)) == b
  {
  }

  /** A 32-bit cluster number split into the two 16-bit halves a directory entry stores. */
  function JoinHalves(high: Half, low: Half): Word {
    0x1_0000 * high + low
  }

  lemma JoinSplit(w: Word)
    ensures JoinHalves(w / 0x1_0000, w % 0x1_0000) == w
  {
  }

  function CeilDiv(n: nat, d: nat): (r: nat)
    requires d > 0
  {
    (n + d - 1) / d
  }
}
