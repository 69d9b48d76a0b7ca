/** The hex conversions of libckpool: `__bin2hex`, `_validhex` and `_hex2bin`. */
module Hex {
  import opened Bytes

  const DIGITS := "0123456789abcdef"

  /** `hex2bin_tbl`: the value of a hex digit of either case, -1 for any other character. */
  function Nibble(c: char): (n: int)
    ensures -1 <= n < 16
  {
    if '0' <= c <= '9' then c as int - '0' as int
    else if 'a' <= c <= 'f' then c as int - 'a' as int + 10
    else if 'A' <= c <= 'F' then c as int - 'A' as int + 10
    else -1
  }

  ghost predicate AllHex(s: string) {
    forall i :: 0 <= i < |s| ==> Nibble(s[i]) >= 0
  }

  /** `s` is the hex text of exactly `len` bytes. */
  ghost predicate IsHexOf(s: string, len: nat) {
    |s| == 2 * len && AllHex(s)
  }

  /** The bytes a hex text stands for. */
  ghost function HexDecode(s: string): (b: seq<byte>)
    requires |s| % 2 == 0 && AllHex(s)
    ensures |b| == |s| / 2
  {
    seq(|s| / 2, i requires 0 <= i < |s| / 2 => (16 * Nibble(s[2 * i]) + Nibble(s[2 * i + 1])) as byte)
  }

  /** Texts put together decode to bytes put together. */
  lemma DecodeConcat(s: string, t: string)
    requires |s| % 2 == 0 && |t| % 2 == 0 && AllHex(s) && AllHex(t)
    ensures |s + t| % 2 == 0 && AllHex(s + t) && HexDecode(s + t) == HexDecode(s) + HexDecode(t)
  {}

  // ----- hexadecimal numerals -----

  /** `c` writes the digit `d`, in either letter case. */
  predicate Writes(c: char, d: nat) {
    d < 16 && (c == "0123456789abcdef"[d] || c == "0123456789ABCDEF"[d])
  }

  /** `s` is the hexadecimal numeral of `v`, with as many digits as it has characters. */
  predicate Numeral(s: string, v: nat) {
    if |s| == 0 then v == 0 else Writes(s[|s| - 1], v % 16) && Numeral(s[..|s| - 1], v / 16)
  }

  lemma NibbleWrites(c: char, d: nat)
    requires d < 16
    ensures Writes(c, d) <==> Nibble(c) == d
  {
    assert "0123456789abcdef" == ['0', '1', '2', '3', '4', '5', '6', '7', '8', '9', 'a', 'b', 'c', 'd', 'e', 'f'];
    assert "0123456789ABCDEF" == ['0', '1', '2', '3', '4', '5', '6', '7', '8', '9', 'A', 'B', 'C', 'D', 'E', 'F'];
  }

  /** The texts of an even number of hex digits are the numerals of what their bytes read, most
      significant byte first. */
  lemma {:induction false} DecodedNumeral(s: string, v: nat)
    requires |s| % 2 == 0
    ensures Numeral(s, v) <==> AllHex(s) && BigEndian(HexDecode(s)) == v
    decreases |s|
  {
    hide AllHex, HexDecode, Numeral, Writes, Nibble;
    if |s| == 0 {
      NoNumeral(v);
    } else {
      var n := |s| - 2;
      LastTwo(s, v);
      NibbleWrites(s[n + 1], v % 16);
      NibbleWrites(s[n], v / 16 % 16);
      DecodedNumeral(s[..n], v / 256);
      LastPair(s);
      if AllHex(s) {
        TwoDigitsLast(BigEndian(HexDecode(s[..n])), Nibble(s[n]), Nibble(s[n + 1]), v);
      }
    }
  }

  lemma NoNumeral(v: nat)
    ensures (Numeral("", v) <==> v == 0) && AllHex("") && HexDecode("") == [] && BigEndian([]) == 0
  {}

  lemma TwoDigitsLast(b: nat, x: nat, y: nat, v: nat)
    requires x < 16 && y < 16
    ensures 256 * b + 16 * x + y == v <==> v % 16 == y && v / 16 % 16 == x && v / 256 == b
  {
    var q := v / 16;
    assert v == 16 * q + v % 16 && q == 16 * (q / 16) + q % 16;
    DivUnique(v, 256, q / 16, 16 * (q % 16) + v % 16);
    if 256 * b + 16 * x + y == v {
      DivUnique(v, 16, 16 * b + x, y);
      DivUnique(16 * b + x, 16, b, x);
    }
  }

  lemma LastTwo(s: string, v: nat)
    requires |s| >= 2
    ensures var n := |s| - 2;
      Numeral(s, v) <==> Writes(s[n + 1], v % 16) && Writes(s[n], v / 16 % 16) && Numeral(s[..n], v / 256)
  {
    hide Writes;
    var t := s[..|s| - 1];
    assert t[..|t| - 1] == s[..|s| - 2] && t[|t| - 1] == s[|s| - 2];
    assert v / 16 / 16 == v / 256;
  }

  lemma LastPair(s: string)
    requires |s| >= 2 && |s| % 2 == 0
    ensures var n := |s| - 2; AllHex(s) <==> AllHex(s[..n]) && Nibble(s[n]) >= 0 && Nibble(s[n + 1]) >= 0
    ensures var n := |s| - 2;
      AllHex(s) ==>
        && HexDecode(s) == HexDecode(s[..n]) + [(16 * Nibble(s[n]) + Nibble(s[n + 1])) as byte]
        && BigEndian(HexDecode(s)) == 256 * BigEndian(HexDecode(s[..n])) + 16 * Nibble(s[n]) + Nibble(s[n + 1])
  {
    hide Nibble;
    assert s == s[..|s| - 2] + [s[|s| - 2], s[|s| - 1]];
  }

  /** `__bin2hex`, high nibble first. */
  method Bin2Hex(p: seq<byte>) returns (s: string)
    ensures IsHexOf(s, |p|) && HexDecode(s) == p
    ensures forall c :: c in s ==> c in DIGITS
  {
    hide HexDecode, AllHex;
    s := "";
    NoDigits();
    for i := 0 to |p|
      invariant IsHexOf(s, i) && HexDecode(s) == p[..i]
      invariant forall c :: c in s ==> c in DIGITS
    {
      var two := [DIGITS[p[i] / 16], DIGITS[p[i] % 16]];
      TwoDigits(p[i]);
      DecodeConcat(s, two);
      assert p[..i + 1] == p[..i] + [p[i]];
      s := s + two;
    }
  }

  lemma NoDigits()
    ensures AllHex("") && HexDecode("") == []
  {}

  lemma TwoDigits(b: byte)
    ensures var two := [DIGITS[b / 16], DIGITS[b % 16]]; AllHex(two) && HexDecode(two) == [b]
  {
    hide Nibble;
    DigitValues(b / 16);
    DigitValues(b % 16);
  }

  lemma DigitValues(n: nat)
    requires n < 16
    ensures Nibble(DIGITS[n]) == n
  {
    assert DIGITS == ['0', '1', '2', '3', '4', '5', '6', '7', '8', '9', 'a', 'b', 'c', 'd', 'e', 'f'];
  }

  /** `_validhex`: a non-empty even number of hex digits. */
  method ValidHex(buf: string) returns (valid: bool)
    ensures valid <==> |buf| > 0 && |buf| % 2 == 0 && AllHex(buf)
  {
    if |buf| == 0 || |buf| % 2 != 0 {
      return false;
    }
    for i := 0 to |buf|
      invariant forall k :: 0 <= k < i ==> Nibble(buf[k]) >= 0
    {
      if Nibble(buf[i]) == -1 {
        return false;
      }
    }
    return true;
  }

  /** `_hex2bin`: `out` is what has been stored by the time it stops, which on success is the
      whole of the text. It succeeds only when the text is exactly `len` bytes long. */
  method Hex2Bin(hexstr: string, len: nat) returns (ok: bool, out: seq<byte>)
    ensures ok <==> IsHexOf(hexstr, len)
    ensures ok ==> out == HexDecode(hexstr)
    ensures |out| <= len && 2 * |out| <= |hexstr|
    ensures AllHex(hexstr[..2 * |out|]) && out == HexDecode(hexstr[..2 * |out|])
    ensures |out| < len ==> |hexstr[2 * |out|..]| < 2 || !AllHex(hexstr[2 * |out|..2 * |out| + 2])
  {
    out := [];
    var p, left := 0, len;
    while p < |hexstr| && left > 0
      invariant 0 <= p <= |hexstr| && p == 2 * |out| && |out| + left == len
      invariant AllHex(hexstr[..p]) && out == HexDecode(hexstr[..p])
      decreases left
    {
      if p + 1 == |hexstr| {
        return false, out;
      }
      var nibble1, nibble2 := Nibble(hexstr[p]), Nibble(hexstr[p + 1]);
      if nibble1 < 0 || nibble2 < 0 {
        assert !(Nibble(hexstr[p..p + 2][0]) >= 0 && Nibble(hexstr[p..p + 2][1]) >= 0);
        return false, out;
      }
      out := out + [(16 * nibble1 + nibble2) as byte];
      p, left := p + 2, left - 1;
    }
    ok := left == 0 && p == |hexstr|;
    assert hexstr[..|hexstr|] == hexstr;
  }
}
