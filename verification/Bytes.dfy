/** Bytes and the big-endian numbers the wire formats are made of. */
module Bytes {

  type Byte = b: nat | b < 256

  /** The low 32 bits of a number, most significant byte first. */
  function Be32(v: int): (r: seq<Byte>)
    ensures |r| == 4
  {
    var w := v % 0x1_0000_0000;
    [w / 0x100_0000, w / 0x1_0000 % 256, w / 256 % 256, w % 256]
  }

  function FromBe32(b: seq<Byte>): (v: nat)
    requires |b| == 4
    ensures v < 0x1_0000_0000
  {
    var b0: int, b1: int, b2: int, b3: int := b[0], b[1], b[2], b[3];
    b0 * 0x100_0000 + b1 * 0x1_0000 + b2 * 256 + b3
  }

  /** The low 16 bits of a number, most significant byte first. */
  function Be16(v: int): (r: seq<Byte>)
    ensures |r| == 2
  {
    [v / 256 % 256, v % 256]
  }

  function FromBe16(b: seq<Byte>): (v: nat)
    requires |b| == 2
    ensures v < 0x1_0000
  {
    var b0: int, b1: int := b[0], b[1];
    b0 * 256 + b1
  }

  lemma Be32Back(v: int)
    ensures FromBe32(Be32(v)) == v % 0x1_0000_0000
  {
    var w := v % 0x1_0000_0000;
    assert w == w / 256 * 256 + w % 256;
    assert w / 256 == w / 0x1_0000 * 256 + w / 256 % 256;
    assert w / 0x1_0000 == w / 0x100_0000 * 256 + w / 0x1_0000 % 256;
  }

  lemma FromBe32Back(b: seq<Byte>)
    requires |b| == 4
    ensures Be32(FromBe32(b)) == b
  {
    var b0: int, b1: int, b2: int, b3: int := b[0], b[1], b[2], b[3];
    var v := FromBe32(b);
    assert v == (b0 * 0x1_0000 + b1 * 256 + b2) * 256 + b3;
    Digit(b0 * 0x1_0000 + b1 * 256 + b2, b3);
    Digit(b0 * 256 + b1, b2);
    Digit(b0, b1);
    assert v / 0x1_0000 == v / 256 / 256 && v / 0x100_0000 == v / 0x1_0000 / 256;
  }

  lemma Digit(high: nat, low: nat)
    requires low < 256
    ensures (high * 256 + low) / 256 == high && (high * 256 + low) % 256 == low
  {
  }

  lemma Be16Back(v: int)
    ensures FromBe16(Be16(v)) == v % 0x1_0000
  {
  }

  lemma FromBe16Back(b: seq<Byte>)
    requires |b| == 2
    ensures Be16(FromBe16(b)) == b
  {
  }
}
