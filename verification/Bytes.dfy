/** Bytes and fixed-size byte strings shared by the other modules. */
module Bytes {
  type byte = x: int | 0 <= x < 256

  type Hash = s: seq<byte> | |s| == 32 witness seq(32, _ => 0)

  /** A byte-string hash such as the double SHA-256 of `gen_hash`; kept as a parameter wherever
      a result does not depend on which function it is. */
  type Hasher = seq<byte> -> Hash

  function Reverse<T>(s: seq<T>): (r: seq<T>)
    ensures |r| == |s|
    ensures forall i :: 0 <= i < |s| ==> r[i] == s[|s| - 1 - i]
  {
    seq(|s|, i requires 0 <= i < |s| => s[|s| - 1 - i])
  }

  /** The value of a byte string read most significant byte first. */
  function BigEndian(s: seq<byte>): nat {
    if |s| == 0 then 0 else 256 * BigEndian(s[..|s| - 1]) + s[|s| - 1]
  }

  /** The value of a byte string read least significant byte first. */
  function LittleEndian(s: seq<byte>): nat {
    if |s| == 0 then 0 else s[0] + 256 * LittleEndian(s[1..])
  }

  /** The `n` low-order bytes of `v`, least significant first, as `htole32`/`htole64` store them. */
  function ToLittleEndian(v: nat, n: nat): (s: seq<byte>)
    ensures |s| == n
  {
    if n == 0 then [] else [v % 256] + ToLittleEndian(v / 256, n - 1)
  }

  function Pow(b: nat, e: nat): (p: nat)
    ensures b > 0 ==> p > 0
  {
    if e == 0 then 1 else b * Pow(b, e - 1)
  }

  lemma MulAssociative(a: int, b: int, c: int)
    ensures a * (b * c) == a * b * c
  {}

  lemma {:induction false} PowAdd(b: nat, d: nat, e: nat)
    ensures Pow(b, d + e) == Pow(b, d) * Pow(b, e)
  {
    if d > 0 {
      PowAdd(b, d - 1, e);
      MulAssociative(b, Pow(b, d - 1), Pow(b, e));
    }
  }

  lemma {:induction false} PowMonotone(b: nat, d: nat, e: nat)
    requires b > 0 && d <= e
    ensures Pow(b, d) <= Pow(b, e)
  {
    if d < e {
      PowMonotone(b, d, e - 1);
    }
  }

  /** Storing a number in `n` bytes and reading it back keeps it modulo 256^n. */
  lemma {:induction false} LittleEndianRoundTrip(v: nat, n: nat)
    requires v < Pow(256, n)
    ensures LittleEndian(ToLittleEndian(v, n)) == v
  {
    if n > 0 {
      assert v / 256 < Pow(256, n - 1);
      LittleEndianRoundTrip(v / 256, n - 1);
      assert ToLittleEndian(v, n)[1..] == ToLittleEndian(v / 256, n - 1);
    }
  }

  /** What the two readings and the writing of four bytes are, digit by digit. */
  lemma FourBytes(a: byte, b: byte, c: byte, d: byte)
    ensures LittleEndian([a, b, c, d]) == a + 256 * b + 65536 * c + 16777216 * d
    ensures BigEndian([a, b, c, d]) == 16777216 * a + 65536 * b + 256 * c + d
    ensures ToLittleEndian(a + 256 * b + 65536 * c + 16777216 * d, 4) == [a, b, c, d]
  {
    var s: seq<byte> := [a, b, c, d];
    assert s[1..] == [b, c, d] && [b, c, d][1..] == [c, d] && [c, d][1..] == [d] && [d][1..] == [];
    assert LittleEndian([d]) == d;
    assert LittleEndian([c, d]) == c + 256 * d;
    assert LittleEndian([b, c, d]) == b + 256 * (c + 256 * d);
    assert s[..3] == [a, b, c] && [a, b, c][..2] == [a, b] && [a, b][..1] == [a] && [a][..0] == [];
    assert BigEndian([a]) == a;
    assert BigEndian([a, b]) == 256 * a + b;
    assert BigEndian([a, b, c]) == 256 * (256 * a + b) + c;
    StoredAgain(s);
  }

  lemma LittleStep(a: byte, v: nat)
    ensures (a + 256 * v) % 256 == a && (a + 256 * v) / 256 == v
  {}

  /** Reading most significant byte first is reading the bytes turned round least significant first. */
  lemma {:induction false} BigIsReversed(s: seq<byte>)
    ensures BigEndian(s) == LittleEndian(Reverse(s))
  {
    if |s| > 0 {
      BigIsReversed(s[..|s| - 1]);
      assert Reverse(s)[1..] == Reverse(s[..|s| - 1]);
    }
  }

  lemma {:induction false} LittleBelow(s: seq<byte>)
    ensures LittleEndian(s) < Pow(256, |s|)
  {
    if |s| > 0 {
      LittleBelow(s[1..]);
    }
  }

  /** Reading a byte string and storing the number gives the bytes back. */
  lemma {:induction false} StoredAgain(s: seq<byte>)
    ensures ToLittleEndian(LittleEndian(s), |s|) == s
  {
    if |s| > 0 {
      StoredAgain(s[1..]);
      LittleStep(s[0], LittleEndian(s[1..]));
    }
  }

  lemma DivUnique(x: nat, d: nat, q: nat, r: nat)
    requires d > 0 && x == d * q + r && r < d
    ensures x / d == q && x % d == r
  {
    assert d * (x / d - q) == r - x % d;
    SmallMultiple(d, x / d - q);
  }

  lemma SmallMultiple(d: int, k: int)
    requires -d < d * k < d
    ensures k == 0
  {}

  lemma HalfMod(x: nat, d: nat)
    requires d > 0
    ensures x % (2 * d) == 2 * (x / 2 % d) + x % 2
  {
    var q, r := x / 2 / d, x / 2 % d;
    assert x / 2 == d * q + r;
    assert x == 2 * (d * q) + 2 * r + x % 2;
    assert 2 * (d * q) == 2 * d * q;
    DivUnique(x, 2 * d, q, 2 * r + x % 2);
  }

  lemma PowersOf256()
    ensures Pow(256, 1) == 256 && Pow(256, 2) == 0x1_0000 && Pow(256, 3) == 0x100_0000 && Pow(256, 4) == 0x1_0000_0000
    ensures Pow(256, 8) == 0x1_0000_0000_0000_0000
  {
    PowAdd(256, 4, 4);
  }
}
