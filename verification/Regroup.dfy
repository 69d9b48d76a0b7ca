/** `convert_bits_5to8` of cashaddr_simple.c against the bit strings it regroups. The five bits of a symbol
    and the eight of a byte are written most significant first; a conversion takes the same bits in groups
    of the other size. */
module Regroup {
  import opened Bytes
  import opened Polymod

  // ----- bit strings -----

  /** The `n` low-order bits of `x`, most significant first. */
  ghost function Bits(x: nat, n: nat): (b: seq<bool>)
    ensures |b| == n
  {
    if n == 0 then [] else Bits(x / 2, n - 1) + [x % 2 == 1]
  }

  ghost function Zeros(n: nat): (b: seq<bool>)
    ensures |b| == n
  {
    seq(n, _ => false)
  }

  /** The bits of 5-bit groups, in order. */
  ghost function Bits5(in5: seq<Symbol>): (b: seq<bool>)
    ensures |b| == 5 * |in5|
  {
    if |in5| == 0 then [] else Bits5(in5[..|in5| - 1]) + Bits(in5[|in5| - 1] as int, 5)
  }

  /** The bits of bytes, in order. */
  ghost function Bits8(bytes: seq<byte>): (b: seq<bool>)
    ensures |b| == 8 * |bytes|
  {
    if |bytes| == 0 then [] else Bits8(bytes[..|bytes| - 1]) + Bits(bytes[|bytes| - 1], 8)
  }

  lemma {:induction false} BitsSplit(x: nat, n: nat, m: nat)
    ensures Bits(x, n + m) == Bits(x / Pow(2, m), n) + Bits(x, m)
    decreases m
  {
    if m > 0 {
      BitsSplit(x / 2, n, m - 1);
      DivDiv(x, Pow(2, m - 1));
      assert n + m - 1 == n + (m - 1);
    } else {
      assert Bits(x, 0) == [];
    }
  }

  lemma DivDiv(x: nat, d: nat)
    requires d > 0
    ensures x / 2 / d == x / (2 * d)
  {
    var q, r := x / 2 / d, x / 2 % d;
    var y := d * q;
    assert x / 2 == y + r;
    assert x == 2 * y + (2 * r + x % 2);
    assert 2 * y == 2 * d * q;
    DivUnique(x, 2 * d, q, 2 * r + x % 2);
  }

  lemma {:induction false} BitsOfSum(x: nat, y: nat, n: nat, m: nat)
    requires y < Pow(2, m)
    ensures Bits(x * Pow(2, m) + y, n + m) == Bits(x, n) + Bits(y, m)
  {
    var d := Pow(2, m);
    BitsSplit(x * d + y, n, m);
    DivUnique(x * d + y, d, x, y);
    LowBits(x, y, m);
  }

  lemma {:induction false} LowBits(x: nat, y: nat, m: nat)
    ensures Bits(x * Pow(2, m) + y, m) == Bits(y, m)
    decreases m
  {
    if m > 0 {
      var d := Pow(2, m - 1);
      assert x * Pow(2, m) == 2 * (x * d);
      assert (2 * (x * d) + y) / 2 == x * d + y / 2;
      assert (2 * (x * d) + y) % 2 == y % 2;
      LowBits(x, y / 2, m - 1);
    }
  }

  /** Equal bits are equal numbers. */
  lemma {:induction false} BitsInjective(x: nat, y: nat, n: nat)
    requires x < Pow(2, n) && y < Pow(2, n) && Bits(x, n) == Bits(y, n)
    ensures x == y
  {
    if n > 0 {
      assert Bits(x, n)[..n - 1] == Bits(x / 2, n - 1) && Bits(y, n)[..n - 1] == Bits(y / 2, n - 1);
      BitsInjective(x / 2, y / 2, n - 1);
      assert Bits(x, n)[n - 1] == Bits(y, n)[n - 1];
    }
  }

  lemma {:induction false} ZeroBits(x: nat, n: nat)
    ensures Bits(x, n) == Zeros(n) <==> x % Pow(2, n) == 0
  {
    if n > 0 {
      ZeroBits(x / 2, n - 1);
      assert Zeros(n) == Zeros(n - 1) + [false];
      assert Bits(x, n)[..n - 1] == Bits(x / 2, n - 1) && Zeros(n)[..n - 1] == Zeros(n - 1);
      assert Bits(x, n)[n - 1] == (x % 2 == 1);
      HalfMod(x, Pow(2, n - 1));
    }
  }

  // ----- the conversion -----

  lemma TwoTo32()
    ensures Pow(2, 32) == 0x1_0000_0000
  {
    assert Pow(2, 8) == 256;
    PowAdd(2, 8, 8);
    PowAdd(2, 16, 16);
  }

  /** The 32-bit accumulator may lose its high bits without the pending ones changing. */
  lemma BitsOfWord(x: nat, n: nat)
    requires n <= 32
    ensures Bits(x % 0x1_0000_0000, n) == Bits(x, n)
  {
    TwoTo32();
    PowAdd(2, 32 - n, n);
    var q, r := x / 0x1_0000_0000, x % 0x1_0000_0000;
    MulAssociative(q, Pow(2, 32 - n), Pow(2, n));
    assert x == q * Pow(2, 32 - n) * Pow(2, n) + r;
    LowBits(q * Pow(2, 32 - n), r, n);
  }

  lemma PushGroup(acc: nat, bits: nat, value: nat)
    requires bits < 8 && value < 32
    ensures Bits((acc * 32 + value) % 0x1_0000_0000, bits + 5) == Bits(acc, bits) + Bits(value, 5)
  {
    assert Pow(2, 5) == 32;
    BitsOfSum(acc, value, bits, 5);
    BitsOfWord(acc * 32 + value, bits + 5);
  }

  lemma PopByte(acc: nat, bits: nat)
    ensures Bits(acc, 8 + bits) == Bits(acc / Pow(2, bits) % 256, 8) + Bits(acc, bits)
  {
    hide Bits;
    var x := acc / Pow(2, bits);
    BitsSplit(acc, 8, bits);
    LowByteBits(x);
  }

  lemma LowByteBits(x: nat)
    ensures Bits(x % 256, 8) == Bits(x, 8)
  {
    hide Bits;
    assert Pow(2, 8) == 256;
    LowBits(x / 256, x % 256, 8);
  }

  lemma LowByteOfWord(x: nat)
    ensures x % 0x1_0000_0000 % 256 == x % 256
  {}

  lemma ShiftedLow(acc: nat)
    ensures acc * 128 % 256 == 0 <==> acc % 2 == 0
    ensures acc * 64 % 256 == 0 <==> acc % 4 == 0
    ensures acc * 32 % 256 == 0 <==> acc % 8 == 0
    ensures acc * 16 % 256 == 0 <==> acc % 16 == 0
  {
    ScaleMod(acc, 128, 2);
    ScaleMod(acc, 64, 4);
    ScaleMod(acc, 32, 8);
    ScaleMod(acc, 16, 16);
  }

  lemma ScaleMod(x: nat, c: nat, d: nat)
    requires c > 0 && d > 0
    ensures c * d > 0 && x * c % (c * d) == c * (x % d)
  {
    assert x == d * (x / d) + x % d;
    assert x * c == c * d * (x / d) + c * (x % d);
    assert c * (x % d) < c * d;
    DivUnique(x * c, c * d, x / d, c * (x % d));
  }

  lemma SmallPowers()
    ensures Pow(2, 1) == 2 && Pow(2, 2) == 4 && Pow(2, 3) == 8 && Pow(2, 4) == 16
    ensures Pow(2, 5) == 32 && Pow(2, 6) == 64 && Pow(2, 7) == 128
  {}

  /** The padding test at the end of `convert_bits_5to8`. */
  method PaddingIsZero(acc: nat, bits: nat) returns (ok: bool)
    requires bits < 8
    ensures ok <==> bits < 5 && Bits(acc, bits) == Zeros(bits)
  {
    ok := !(bits >= 5 || (bits > 0 && acc * Pow(2, 8 - bits) % 0x1_0000_0000 % 256 != 0));
    hide Pow, Bits;
    SmallPowers();
    ZeroBits(acc, bits);
    LowByteOfWord(acc * Pow(2, 8 - bits));
    ShiftedLow(acc);
  }

  /** The inner loop of `convert_bits_5to8`: moves whole bytes from the accumulator to the output. */
  method DrainBytes(out: array<byte>, start: nat, acc: nat, pending: nat) returns (bits: nat, outlen: nat)
    requires 8 * start + pending <= 8 * out.Length + 7
    modifies out
    ensures bits < 8 && start <= outlen <= out.Length && 8 * outlen + bits == 8 * start + pending
    ensures Bits8(out[..outlen]) + Bits(acc, bits) == Bits8(old(out[..start])) + Bits(acc, pending)
  {
    hide Bits;
    bits, outlen := pending, start;
    while bits >= 8
      invariant start <= outlen <= out.Length && 8 * outlen + bits == 8 * start + pending
      invariant Bits8(out[..outlen]) + Bits(acc, bits) == Bits8(old(out[..start])) + Bits(acc, pending)
    {
      bits := bits - 8;
      PopByte(acc, bits);
      out[outlen] := acc / Pow(2, bits) % 256;
      outlen := outlen + 1;
      assert out[..outlen][..outlen - 1] == out[..outlen - 1];
    }
  }

  /** `convert_bits_5to8`: the bytes written are the groups' bits in order, and it succeeds when the
      bits left over are fewer than five and all zero. The output never holds more than one byte
      for every eight bits taken in, so the caller's 65 bytes suffice for 104 groups. */
  method ConvertBits5To8(out: array<byte>, in5: seq<Symbol>) returns (ok: bool, outlen: nat)
    requires 5 * |in5| / 8 <= out.Length
    modifies out
    ensures outlen == 5 * |in5| / 8
    ensures Bits5(in5)[..8 * outlen] == Bits8(out[..outlen])
    ensures ok <==> 5 * |in5| % 8 < 5 && Bits5(in5)[8 * outlen..] == Zeros(5 * |in5| % 8)
  {
    hide Bits, Bits5, Bits8;
    var acc: nat, bits: nat := 0, 0;
    outlen := 0;
    EmptyBits();
    NoGroups(in5, out[..0]);
    for i := 0 to |in5|
      invariant bits < 8 && 5 * i == 8 * outlen + bits
      invariant Bits5(in5[..i]) == Bits8(out[..outlen]) + Bits(acc, bits)
    {
      var value := in5[i] as int;
      NextGroup(in5, i);
      PushGroup(acc, bits, value);
      acc := (acc * 32 + value) % 0x1_0000_0000;
      bits := bits + 5;
      bits, outlen := DrainBytes(out, outlen, acc, bits);
    }
    assert in5[..|in5|] == in5;
    ok := PaddingIsZero(acc, bits);
  }

  lemma NoGroups(in5: seq<Symbol>, none: seq<byte>)
    requires none == []
    ensures Bits5(in5[..0]) == [] && Bits8(none) == []
  {}

  lemma NextGroup(in5: seq<Symbol>, i: nat)
    requires i < |in5|
    ensures Bits5(in5[..i + 1]) == Bits5(in5[..i]) + Bits(in5[i] as int, 5)
  {
    assert in5[..i + 1][..i] == in5[..i];
  }

  lemma EmptyBits()
    ensures Bits(0, 0) == []
  {}

  // ----- both directions -----

  /** `in5` is the regrouping of `bytes`: the same bits followed by the fewest zeros that fill the
      last group. */
  ghost predicate Regroups(in5: seq<Symbol>, bytes: seq<byte>) {
    && 0 <= 5 * |in5| - 8 * |bytes| < 5
    && Bits5(in5) == Bits8(bytes) + Zeros(5 * |in5| - 8 * |bytes|)
  }

  ghost function Value(b: seq<bool>): (x: nat)
    ensures x < Pow(2, |b|)
  {
    if |b| == 0 then 0 else 2 * Value(b[..|b| - 1]) + if b[|b| - 1] then 1 else 0
  }

  ghost function ToSymbol(b: seq<bool>): Symbol
    requires |b| == 5
  {
    SmallPowers();
    Value(b) as bv5
  }

  /** Cuts a bit string into 5-bit groups. */
  ghost function Groups(b: seq<bool>): (in5: seq<Symbol>)
    requires |b| % 5 == 0
    ensures 5 * |in5| == |b|
  {
    if |b| == 0 then [] else Groups(b[..|b| - 5]) + [ToSymbol(b[|b| - 5..])]
  }

  /** The regrouping the CashAddr specification prescribes for a byte string. */
  ghost function Regroup8To5(bytes: seq<byte>): (in5: seq<Symbol>) {
    PadLength(0, |bytes|);
    Groups(Bits8(bytes) + Zeros((5 - 8 * |bytes| % 5) % 5))
  }

  lemma {:induction false} ValueBits(b: seq<bool>)
    ensures Bits(Value(b), |b|) == b
  {
    if |b| > 0 {
      ValueBits(b[..|b| - 1]);
    }
  }

  lemma SymbolBits(b: seq<bool>)
    requires |b| == 5
    ensures Bits(ToSymbol(b) as int, 5) == b
  {
    SmallPowers();
    ValueBits(b);
    SymbolValue(Value(b));
  }

  lemma SymbolValue(x: nat)
    requires x < 32
    ensures (x as bv5) as int == x
  {}

  lemma {:induction false} GroupsBits(b: seq<bool>)
    requires |b| % 5 == 0
    ensures Bits5(Groups(b)) == b
    decreases |b|
  {
    hide Bits, ToSymbol, Groups, Bits5;
    GroupStep(b);
    if |b| > 0 {
      var front, last := b[..|b| - 5], b[|b| - 5..];
      GroupsBits(front);
      SymbolBits(last);
      LastGroup(Groups(front), ToSymbol(last));
      assert b == front + last;
    }
  }

  lemma GroupStep(b: seq<bool>)
    requires |b| % 5 == 0
    ensures |b| == 0 ==> Bits5(Groups(b)) == []
    ensures |b| > 0 ==> Groups(b) == Groups(b[..|b| - 5]) + [ToSymbol(b[|b| - 5..])]
  {}

  lemma LastGroup(v: seq<Symbol>, x: Symbol)
    ensures Bits5(v + [x]) == Bits5(v) + Bits(x as int, 5)
  {
    assert (v + [x])[..|v|] == v;
  }

  lemma {:induction false} Bits5Injective(v: seq<Symbol>, w: seq<Symbol>)
    requires |v| == |w| && Bits5(v) == Bits5(w)
    ensures v == w
    decreases |v|
  {
    hide Bits;
    if |v| > 0 {
      var n := |v| - 1;
      assert Bits5(v)[..5 * n] == Bits5(v[..n]) && Bits5(w)[..5 * n] == Bits5(w[..n]);
      Bits5Injective(v[..n], w[..n]);
      assert Bits5(v)[5 * n..] == Bits(v[n] as int, 5) && Bits5(w)[5 * n..] == Bits(w[n] as int, 5);
      assert Pow(2, 5) == 32;
      BitsInjective(v[n] as int, w[n] as int, 5);
      SameSymbol(v[n], w[n]);
    }
  }

  lemma SameSymbol(v: Symbol, w: Symbol)
    requires v as int == w as int
    ensures v == w
  {
    assert (v as int) as bv5 == v;
  }

  lemma {:induction false} Bits8Injective(v: seq<byte>, w: seq<byte>)
    requires |v| == |w| && Bits8(v) == Bits8(w)
    ensures v == w
    decreases |v|
  {
    hide Bits;
    if |v| > 0 {
      var n := |v| - 1;
      assert Bits8(v)[..8 * n] == Bits8(v[..n]) && Bits8(w)[..8 * n] == Bits8(w[..n]);
      Bits8Injective(v[..n], w[..n]);
      assert Bits8(v)[8 * n..] == Bits(v[n], 8) && Bits8(w)[8 * n..] == Bits(w[n], 8);
      assert Pow(2, 8) == 256;
      BitsInjective(v[n], w[n], 8);
    }
  }

  /** The regrouping exists, is unique, and determines the bytes. */
  lemma RegroupExact(in5: seq<Symbol>, bytes: seq<byte>)
    ensures Regroups(in5, bytes) <==> in5 == Regroup8To5(bytes)
  {
    hide Bits5, Bits8, Groups, Bits;
    var n := |bytes|;
    var pad := (5 - 8 * n % 5) % 5;
    GroupsBits(Bits8(bytes) + Zeros(pad));
    PadLength(|in5|, n);
    if Regroups(in5, bytes) {
      Bits5Injective(in5, Regroup8To5(bytes));
    }
  }

  /** The padding is the only one that is less than a symbol. */
  lemma PadLength(k: nat, n: nat)
    ensures (8 * n + (5 - 8 * n % 5) % 5) % 5 == 0
    ensures 0 <= 5 * k - 8 * n < 5 <==> 5 * k == 8 * n + (5 - 8 * n % 5) % 5
  {}

  lemma RegroupInjective(v: seq<byte>, w: seq<byte>)
    requires |v| == |w| && Regroup8To5(v) == Regroup8To5(w)
    ensures v == w
  {
    RegroupExact(Regroup8To5(v), v);
    RegroupExact(Regroup8To5(w), w);
    var b := Bits5(Regroup8To5(v));
    assert b[..8 * |v|] == Bits8(v) && b[..8 * |v|] == Bits8(w);
    Bits8Injective(v, w);
  }
}
