/** Fixed-width integers as bytes. */
module Endian {
  import opened Prelude

  const WORD: nat := 0x1_0000_0000_0000_0000

  function LittleEndian(n: nat, width: nat): (b: Bytes)
    ensures |b| == width
  {
    if width == 0 then [] else [n % 256] + LittleEndian(n / 256, width - 1)
  }

  function FromLittleEndian(b: Bytes): nat {
    if b == [] then 0 else b[0] + 256 * FromLittleEndian(b[1..])
  }

  function Power256(k: nat): nat {
    if k == 0 then 1 else 256 * Power256(k - 1)
  }

  lemma {:induction false} LittleEndianRoundTrip(n: nat, width: nat)
    requires n < Power256(width)
    ensures FromLittleEndian(LittleEndian(n, width)) == n
  {
    if width > 0 {
      LittleEndianRoundTrip(n / 256, width - 1);
      assert LittleEndian(n, width)[1..] == LittleEndian(n / 256, width - 1);
    }
  }

  lemma WordIsEightBytes()
    ensures Power256(8) == WORD
  {
    assert Power256(4) == 256 * (256 * (256 * (256 * Power256(0))));
    assert Power256(8) == 256 * (256 * (256 * (256 * Power256(4))));
  }

  /** The bytes as they are written, lowest first. */
  lemma LittleEndianBytes(n: nat)
    ensures LittleEndian(n, 1) == [n % 256]
    ensures LittleEndian(n, 2) == [n % 256, n / 256 % 256]
    ensures LittleEndian(n, 4) == [n % 256, n / 0x100 % 256, n / 0x1_0000 % 256, n / 0x100_0000 % 256]
    ensures LittleEndian(n, 8) == LittleEndian(n, 4) + LittleEndian(n / 0x1_0000_0000, 4)
  {
    var m := n / 0x1_0000_0000;
    assert LittleEndian(n, 1) == [n % 256] + LittleEndian(n / 256, 0);
    assert LittleEndian(n / 256, 1) == [n / 256 % 256] + LittleEndian(n / 256 / 256, 0);
    assert LittleEndian(n, 2) == [n % 256] + LittleEndian(n / 256, 1);
    FourLittleEndian(n, 0);
    FourLittleEndian(n, 4);
    FourLittleEndian(m, 0);
  }

  lemma FourLittleEndian(n: nat, more: nat)
    ensures LittleEndian(n, 4 + more)
         == [n % 256, n / 0x100 % 256, n / 0x1_0000 % 256, n / 0x100_0000 % 256] + LittleEndian(n / 0x1_0000_0000, more)
  {
    var n1, n2, n3 := n / 256, n / 256 / 256, n / 256 / 256 / 256;
    assert LittleEndian(n, 4 + more) == [n % 256] + LittleEndian(n1, 3 + more);
    assert LittleEndian(n1, 3 + more) == [n1 % 256] + LittleEndian(n2, 2 + more);
    assert LittleEndian(n2, 2 + more) == [n2 % 256] + LittleEndian(n3, 1 + more);
    assert LittleEndian(n3, 1 + more) == [n3 % 256] + LittleEndian(n3 / 256, more);
    assert n2 == n / 0x1_0000 && n3 == n / 0x100_0000 && n3 / 256 == n / 0x1_0000_0000;
  }

  lemma LowestFirst(x: byte, n: nat, width: nat)
    ensures LittleEndian(x + 256 * n, width + 1) == [x] + LittleEndian(n, width)
    ensures n < Power256(width) ==> x + 256 * n < Power256(width + 1)
  {
    var v := x + 256 * n;
    assert v % 256 == x && v / 256 == n;
    assert Power256(width + 1) == 256 * Power256(width);
  }

  lemma {:induction false} BytesRoundTrip(b: Bytes)
    ensures LittleEndian(FromLittleEndian(b), |b|) == b && FromLittleEndian(b) < Power256(|b|)
  {
    if b != [] {
      BytesRoundTrip(b[1..]);
      LowestFirst(b[0], FromLittleEndian(b[1..]), |b| - 1);
      assert b == [b[0]] + b[1..];
    }
  }
}
