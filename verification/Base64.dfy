/** Base64 with the URL-safe alphabet and no padding (section 5 of RFC 4648), as the engine `URL_SAFE_NO_PAD` applies it. */
module Base64 {
  import opened Prelude

  type sextet = x: int | 0 <= x < 64

  function Symbol(v: sextet): char {
    if v < 26 then 'A' + v as char
    else if v < 52 then 'a' + (v - 26) as char
    else if v < 62 then '0' + (v - 52) as char
    else if v == 62 then '-' else '_'
  }

  function Value(c: char): Option<sextet> {
    if 'A' <= c <= 'Z' then Some(c as int - 'A' as int)
    else if 'a' <= c <= 'z' then Some(c as int - 'a' as int + 26)
    else if '0' <= c <= '9' then Some(c as int - '0' as int + 52)
    else if c == '-' then Some(62)
    else if c == '_' then Some(63)
    else None
  }

  /** The symbols of one group of one to three bytes. */
  function Group(b: Bytes): (s: seq<sextet>)
    requires 1 <= |b| <= 3
    ensures |s| == |b| + 1
  {
    if |b| == 1 then [b[0] / 4, b[0] % 4 * 16]
    else if |b| == 2 then [b[0] / 4, b[0] % 4 * 16 + b[1] / 16, b[1] % 16 * 4]
    else [b[0] / 4, b[0] % 4 * 16 + b[1] / 16, b[1] % 16 * 4 + b[2] / 64, b[2] % 64]
  }

  /** The bytes of a group; unused low bits must be zero. */
  function Ungroup(v: seq<sextet>): Option<Bytes>
    requires 2 <= |v| <= 4
  {
    var w: seq<int> := v;
    var b0: byte := w[0] * 4 + w[1] / 16;
    if |v| == 2 then if w[1] % 16 == 0 then Some([b0]) else None
    else
      var b1: byte := w[1] % 16 * 16 + w[2] / 4;
      if |v| == 3 then if w[2] % 4 == 0 then Some([b0, b1]) else None
      else var b2: byte := w[2] % 4 * 64 + w[3]; Some([b0, b1, b2])
  }

  lemma GroupRoundTrip(b: Bytes)
    requires 1 <= |b| <= 3
    ensures Ungroup(Group(b)) == Some(b)
  {
    assert b == if |b| == 1 then [b[0]] else if |b| == 2 then [b[0], b[1]] else [b[0], b[1], b[2]];
  }

  /** How a byte is divided among two sextets, at each of the three places. */
  lemma Borders(a: sextet, b: sextet, c: sextet, d: sextet)
    ensures (a * 4 + b / 16) / 4 == a && (a * 4 + b / 16) % 4 == b / 16 && b == b / 16 * 16 + b % 16
    ensures (b % 16 * 16 + c / 4) / 16 == b % 16 && (b % 16 * 16 + c / 4) % 16 == c / 4 && c == c / 4 * 4 + c % 4
    ensures (c % 4 * 64 + d) / 64 == c % 4 && (c % 4 * 64 + d) % 64 == d
  {
  }

  lemma UngroupRoundTrip(v: seq<sextet>)
    requires 2 <= |v| <= 4 && Ungroup(v).Some?
    ensures var b := Ungroup(v).value; |b| == |v| - 1 && Group(b) == v
  {
    Borders(v[0], v[1], if |v| > 2 then v[2] else 0, if |v| > 3 then v[3] else 0);
    assert v == if |v| == 2 then [v[0], v[1]] else if |v| == 3 then [v[0], v[1], v[2]] else [v[0], v[1], v[2], v[3]];
  }

  function Symbols(v: seq<sextet>): (s: string)
    ensures |s| == |v|
  {
    seq(|v|, i requires 0 <= i < |v| => Symbol(v[i]))
  }

  function Values(s: string): (v: Option<seq<sextet>>)
    ensures v.Some? ==> |v.value| == |s|
  {
    if forall c <- s :: Value(c).Some?
    then Some(seq(|s|, i requires 0 <= i < |s| => assert s[i] in s; Value(s[i]).value))
    else None
  }

  lemma SymbolRoundTrip(v: sextet)
    ensures Value(Symbol(v)) == Some(v) && Symbol(v) != '.'
  {
  }

  lemma SymbolsRoundTrip(v: seq<sextet>)
    ensures Values(Symbols(v)) == Some(v)
  {
    forall i | 0 <= i < |v| ensures Value(Symbols(v)[i]) == Some(v[i]) {
      SymbolRoundTrip(v[i]);
    }
    assert Values(Symbols(v)).value == v;
  }

  lemma ValuesRoundTrip(s: string)
    requires Values(s).Some?
    ensures Symbols(Values(s).value) == s
  {
    forall i | 0 <= i < |s| ensures Symbol(Values(s).value[i]) == s[i] {
      assert s[i] in s;
    }
  }

  function Encode(b: Bytes): string
    decreases |b|
  {
    if |b| == 0 then ""
    else if |b| <= 3 then Symbols(Group(b))
    else Symbols(Group(b[..3])) + Encode(b[3..])
  }

  function DecodeGroup(s: string): Option<Bytes> {
    if |s| < 2 || |s| > 4 then None
    else match Values(s) case None => None case Some(v) => Ungroup(v)
  }

  function Decode(s: string): Option<Bytes>
    decreases |s|
  {
    if |s| == 0 then Some([])
    else if |s| <= 4 then DecodeGroup(s)
    else match (DecodeGroup(s[..4]), Decode(s[4..]))
      case (Some(b), Some(rest)) => Some(b + rest)
      case _ => None
  }

  lemma {:induction false} DecodeEncode(b: Bytes)
    ensures Decode(Encode(b)) == Some(b)
    decreases |b|
  {
    if |b| > 3 {
      GroupRoundTrip(b[..3]);
      SymbolsRoundTrip(Group(b[..3]));
      DecodeEncode(b[3..]);
      var s, rest := Symbols(Group(b[..3])), Encode(b[3..]);
      assert (s + rest)[..4] == s && (s + rest)[4..] == rest;
      assert b[..3] + b[3..] == b;
      assert |rest| > 0;
    } else if |b| > 0 {
      GroupRoundTrip(b);
      SymbolsRoundTrip(Group(b));
    }
  }

  lemma DecodeGroupExact(s: string)
    requires DecodeGroup(s).Some?
    ensures var b := DecodeGroup(s).value; |b| == |s| - 1 && Symbols(Group(b)) == s
  {
    UngroupRoundTrip(Values(s).value);
    ValuesRoundTrip(s);
  }

  /** A decodable text is the encoding of what it decodes to: there is no second spelling of the same bytes. */
  lemma {:induction false} EncodeDecode(s: string)
    requires Decode(s).Some?
    ensures Encode(Decode(s).value) == s
    decreases |s|
  {
    if |s| > 4 {
      DecodeGroupExact(s[..4]);
      EncodeDecode(s[4..]);
      var b, rest := DecodeGroup(s[..4]).value, Decode(s[4..]).value;
      assert (b + rest)[..3] == b && (b + rest)[3..] == rest;
      assert rest != [];
      assert s[..4] + s[4..] == s;
    } else if |s| > 0 {
      DecodeGroupExact(s);
    }
  }

  lemma {:induction false} NoDot(b: Bytes)
    ensures '.' !in Encode(b)
    decreases |b|
  {
    if |b| > 0 {
      var v := Group(if |b| <= 3 then b else b[..3]);
      forall i | 0 <= i < |v| ensures Symbols(v)[i] != '.' {
        SymbolRoundTrip(v[i]);
      }
      if |b| > 3 {
        NoDot(b[3..]);
      }
    }
  }

  // ---- The encoding read off the standard ----

  function ByteAt(b: Bytes, i: nat): nat {
    if i < |b| then b[i] else 0
  }

  /** The i-th six bits: three bytes, missing ones zero, are a number of 24 bits, taken from the top. */
  function SixBits(b: Bytes, i: nat): sextet {
    var n := ByteAt(b, i / 4 * 3) * 65536 + ByteAt(b, i / 4 * 3 + 1) * 256 + ByteAt(b, i / 4 * 3 + 2);
    match i % 4
    case 0 => n / 262144
    case 1 => n / 4096 % 64
    case 2 => n / 64 % 64
    case _ => n % 64
  }

  lemma Low64(a: nat, b: nat)
    requires b < 64
    ensures (64 * a + b) / 64 == a && (64 * a + b) % 64 == b
  {
  }

  lemma TopBits(x: byte, y: byte, z: byte)
    ensures (x * 65536 + y * 256 + z) / 262144 == x / 4
  {
    assert x * 65536 + y * 256 + z == 262144 * (x / 4) + (x % 4 * 65536 + y * 256 + z);
  }

  lemma UpperBits(x: byte, y: byte, z: byte)
    ensures (x * 65536 + y * 256 + z) / 4096 % 64 == x % 4 * 16 + y / 16
  {
    var q := x * 16 + y / 16;
    assert x * 65536 + y * 256 + z == 4096 * q + (y % 16 * 256 + z);
    assert (4096 * q + (y % 16 * 256 + z)) / 4096 == q;
    assert q == 64 * (x / 4) + (x % 4 * 16 + y / 16);
    Low64(x / 4, x % 4 * 16 + y / 16);
  }

  lemma LowerBits(x: byte, y: byte, z: byte)
    ensures (x * 65536 + y * 256 + z) / 64 % 64 == y % 16 * 4 + z / 64
  {
    Low64(x * 1024 + y * 4 + z / 64, z % 64);
    assert x * 65536 + y * 256 + z == 64 * (x * 1024 + y * 4 + z / 64) + z % 64;
    Low64(x * 16 + y / 16, y % 16 * 4 + z / 64);
    assert x * 1024 + y * 4 + z / 64 == 64 * (x * 16 + y / 16) + (y % 16 * 4 + z / 64);
  }

  lemma LastBits(x: byte, y: byte, z: byte)
    ensures (x * 65536 + y * 256 + z) % 64 == z % 64
  {
    Low64(x * 1024 + y * 4 + z / 64, z % 64);
    assert x * 65536 + y * 256 + z == 64 * (x * 1024 + y * 4 + z / 64) + z % 64;
  }

  lemma GroupBits(b: Bytes, i: nat)
    requires 1 <= |b| <= 3 && i <= |b|
    ensures Group(b)[i] == SixBits(b, i)
  {
    var x, y, z := ByteAt(b, 0), ByteAt(b, 1), ByteAt(b, 2);
    assert i / 4 == 0 && i % 4 == i;
    TopBits(x, y, z);
    UpperBits(x, y, z);
    LowerBits(x, y, z);
    LastBits(x, y, z);
  }

  lemma SixBitsShift(b: Bytes, i: nat)
    requires |b| > 3
    ensures i < 4 ==> SixBits(b[..3], i) == SixBits(b, i)
    ensures i >= 4 ==> SixBits(b[3..], i - 4) == SixBits(b, i)
  {
    if i >= 4 {
      assert i / 4 == (i - 4) / 4 + 1 && i % 4 == (i - 4) % 4;
    }
  }

  /**
   * The text has no padding, and its i-th character is the one that table 2 of the standard gives the i-th
   * six bits: A to Z, a to z, 0 to 9, minus and underline.
   */
  lemma {:induction false} EncodedAt(b: Bytes, i: nat)
    ensures |Encode(b)| == (4 * |b| + 2) / 3
    ensures i < |Encode(b)| ==>
      var v, c := SixBits(b, i), Encode(b)[i] as int;
      c == if v < 26 then 65 + v else if v < 52 then 97 + v - 26 else if v < 62 then 48 + v - 52 else if v == 62 then 45 else 95
    decreases |b|
  {
    hide SixBits, Group;
    if 1 <= |b| <= 3 {
      if i <= |b| {
        GroupBits(b, i);
      }
    } else if |b| > 3 {
      EncodedAt(b[3..], if i < 4 then 0 else i - 4);
      SixBitsShift(b, i);
      if i < 4 {
        GroupBits(b[..3], i);
      }
    }
  }
}
