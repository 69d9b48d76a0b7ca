/** `bch_b58decode_strict` of libckpool.c and the Base58Check encoder of the Go API: what a text means as
    a number, the decoder that multiplies and adds in a buffer of 25 bytes, and the encoder that divides
    until nothing is left. */
module Base58 {
  import opened Bytes

  const ALPHABET := "123456789ABCDEFGHJKLMNPQRSTUVWXYZabcdefghijkmnopqrstuvwxyz"

  // ----- what a Base58 text means -----

  /** The digit of a character, or 58 outside the alphabet. */
  function Digit(c: char): (d: nat)
    ensures d <= 58
  {
    var x := c as int;
    if '1' <= c <= '9' then x - '1' as int
    else if 'A' <= c <= 'H' then x - 'A' as int + 9
    else if 'J' <= c <= 'N' then x - 'J' as int + 17
    else if 'P' <= c <= 'Z' then x - 'P' as int + 22
    else if 'a' <= c <= 'k' then x - 'a' as int + 33
    else if 'm' <= c <= 'z' then x - 'm' as int + 44
    else 58
  }

  lemma DigitsToH(d: nat)
    requires d < 17
    ensures Digit(ALPHABET[d]) == d
  {
    assert ALPHABET[..33] == ['1', '2', '3', '4', '5', '6', '7', '8', '9', 'A', 'B', 'C', 'D', 'E', 'F', 'G', 'H',
      'J', 'K', 'L', 'M', 'N', 'P', 'Q', 'R', 'S', 'T', 'U', 'V', 'W', 'X', 'Y', 'Z'];
    assert ALPHABET[..33][d] == ALPHABET[d];
  }

  lemma DigitsToZ(d: nat)
    requires 17 <= d < 33
    ensures Digit(ALPHABET[d]) == d
  {
    assert ALPHABET[..33] == ['1', '2', '3', '4', '5', '6', '7', '8', '9', 'A', 'B', 'C', 'D', 'E', 'F', 'G', 'H',
      'J', 'K', 'L', 'M', 'N', 'P', 'Q', 'R', 'S', 'T', 'U', 'V', 'W', 'X', 'Y', 'Z'];
    assert ALPHABET[..33][d] == ALPHABET[d];
  }

  lemma LowerLetters()
    ensures |ALPHABET| == 58 && ALPHABET[33..] == ['a', 'b', 'c', 'd', 'e', 'f', 'g', 'h', 'i', 'j', 'k',
      'm', 'n', 'o', 'p', 'q', 'r', 's', 't', 'u', 'v', 'w', 'x', 'y', 'z']
  {}

  lemma DigitsFromA(d: nat)
    requires 33 <= d < 46
    ensures Digit(ALPHABET[d]) == d
  {
    hide ALPHABET;
    LowerLetters();
    assert ALPHABET[33..][d - 33] == ALPHABET[d];
  }

  lemma DigitsFromP(d: nat)
    requires 46 <= d < 58
    ensures Digit(ALPHABET[d]) == d
  {
    assert ALPHABET[46..] == ['o', 'p', 'q', 'r', 's', 't', 'u', 'v', 'w', 'x', 'y', 'z'];
    assert ALPHABET[46..][d - 46] == ALPHABET[d];
  }

  /** `Digit` is the position in the alphabet. */
  lemma DigitBack(d: nat)
    requires d < 58
    ensures Digit(ALPHABET[d]) == d
  {
    if d < 17 {
      DigitsToH(d);
    } else if d < 33 {
      DigitsToZ(d);
    } else if d < 46 {
      DigitsFromA(d);
    } else {
      DigitsFromP(d);
    }
  }

  ghost predicate InAlphabet(s: string) {
    forall i :: 0 <= i < |s| ==> Digit(s[i]) < 58
  }

  /** The number a text of alphabet characters stands for. */
  ghost function Value(s: string): nat
    requires InAlphabet(s)
  {
    if |s| == 0 then 0 else 58 * Value(s[..|s| - 1]) + Digit(s[|s| - 1])
  }

  lemma {:induction false} ValueGrows(s: string, i: nat)
    requires InAlphabet(s) && i <= |s|
    ensures Value(s[..i]) <= Value(s)
    decreases |s|
  {
    if i < |s| {
      var init := s[..|s| - 1];
      ValueGrows(init, i);
      assert init[..i] == s[..i];
    } else {
      assert s[..i] == s;
    }
  }

  // ----- big-endian numbers -----

  lemma Horner(base: nat, v: nat, p: nat, y: nat, d: nat)
    ensures base * (v * p + y) + d == v * (base * p) + (base * y + d)
  {
    assert base * (v * p) == v * (base * p);
  }

  lemma {:induction false} BigEndianSplit(a: seq<byte>, b: seq<byte>)
    ensures BigEndian(a + b) == BigEndian(a) * Pow(256, |b|) + BigEndian(b)
    decreases |b|
  {
    if |b| == 0 {
      assert a + b == a;
    } else {
      var front := b[..|b| - 1];
      BigEndianSplit(a, front);
      assert (a + b)[..|a + b| - 1] == a + front;
      Horner(256, BigEndian(a), Pow(256, |b| - 1), BigEndian(front), b[|b| - 1]);
    }
  }

  lemma {:induction false} BigEndianBound(s: seq<byte>)
    ensures BigEndian(s) < Pow(256, |s|)
  {
    if |s| > 0 {
      BigEndianBound(s[..|s| - 1]);
    }
  }

  lemma {:induction false} BigEndianInjective(a: seq<byte>, b: seq<byte>)
    requires |a| == |b| && BigEndian(a) == BigEndian(b)
    ensures a == b
  {
    if |a| > 0 {
      var n := |a| - 1;
      BigEndianInjective(a[..n], b[..n]);
      assert a == a[..n] + [a[n]] && b == b[..n] + [b[n]];
    }
  }

  // ----- the decoder -----

  /** The carry loop: multiplies the number in the buffer by 58 and adds a digit, in place. What
      does not fit comes out as the carry. */
  method MulAdd(out25: array<byte>, digit: nat) returns (carry: nat)
    requires out25.Length == 25
    modifies out25
    ensures carry * Pow(256, 25) + BigEndian(out25[..]) == 58 * BigEndian(old(out25[..])) + digit
  {
    ghost var was := out25[..];
    carry := digit;
    var j := 24;
    assert out25[25..] == [] == was[25..];
    while j >= 0
      invariant -1 <= j <= 24
      invariant out25[..j + 1] == was[..j + 1]
      invariant carry * Pow(256, 24 - j) + BigEndian(out25[j + 1..]) == 58 * BigEndian(was[j + 1..]) + digit
    {
      ghost var rest := out25[j + 1..];
      ghost var c := carry;
      var b: int := out25[j];
      carry := carry + 58 * b;
      ghost var sum := carry;
      out25[j] := carry % 256;
      carry := carry / 256;
      assert out25[j..] == [(sum % 256) as byte] + rest;
      assert was[j..] == [was[j]] + was[j + 1..];
      CarryStep(c, was[j], sum, rest, was[j + 1..], digit);
      j := j - 1;
    }
    assert out25[0..] == out25[..] && was[0..] == was;
  }

  lemma CarryStep(c: nat, b: byte, sum: nat, rest: seq<byte>, wasRest: seq<byte>, digit: nat)
    requires |rest| == |wasRest| && sum == c + 58 * b
    requires c * Pow(256, |rest|) + BigEndian(rest) == 58 * BigEndian(wasRest) + digit
    ensures sum / 256 * Pow(256, |rest| + 1) + BigEndian([(sum % 256) as byte] + rest)
         == 58 * BigEndian([b] + wasRest) + digit
  {
    var p := Pow(256, |rest|);
    var low: byte := sum % 256;
    BigEndianSplit([low], rest);
    BigEndianSplit([b], wasRest);
    assert BigEndian([low]) == low && BigEndian([b]) == b;
    CarryArithmetic(c, b, p, sum / 256, low, BigEndian(rest), BigEndian(wasRest), digit);
  }

  lemma CarryArithmetic(c: nat, b: nat, p: nat, high: nat, low: nat, x: nat, y: nat, digit: nat)
    requires 256 * high + low == c + 58 * b && c * p + x == 58 * y + digit
    ensures high * (256 * p) + (low * p + x) == 58 * (b * p + y) + digit
  {
    assert (256 * high + low) * p == high * (256 * p) + low * p;
    assert (c + 58 * b) * p == c * p + 58 * (b * p);
  }

  /** `bch_b58decode_strict`: succeeds exactly on the texts of 1 to 100 alphabet characters whose
      value is below 256^25, and leaves that value in the buffer. */
  method B58DecodeStrict(s: string, out25: array<byte>) returns (ok: bool)
    requires out25.Length == 25
    modifies out25
    ensures ok <==> 1 <= |s| <= 100 && InAlphabet(s) && Value(s) < Pow(256, 25)
    ensures ok ==> BigEndian(out25[..]) == Value(s)
  {
    hide Pow, BigEndian, Digit;
    if |s| == 0 || |s| > 100 {
      return false;
    }
    forall i | 0 <= i < 25 {
      out25[i] := 0;
    }
    ZeroBuffer(out25[..]);
    for i := 0 to |s|
      invariant InAlphabet(s[..i]) && BigEndian(out25[..]) == Value(s[..i])
      invariant Value(s[..i]) < Pow(256, 25)
    {
      var digit := Digit(s[i]);
      if digit == 58 {
        return false;
      }
      assert s[..i + 1][..i] == s[..i];
      var carry := MulAdd(out25, digit);
      BigEndianBound(out25[..]);
      if carry != 0 {
        if InAlphabet(s) {
          ValueGrows(s, i + 1);
          AtLeastOne(carry, Pow(256, 25));
        }
        return false;
      }
    }
    assert s[..|s|] == s;
    ok := true;
  }

  lemma AtLeastOne(c: nat, p: nat)
    requires c > 0
    ensures c * p >= p
  {}

  lemma {:induction false} ZeroBuffer(s: seq<byte>)
    requires forall i :: 0 <= i < |s| ==> s[i] == 0
    ensures BigEndian(s) == 0 && 0 < Pow(256, |s|)
  {
    if |s| > 0 {
      ZeroBuffer(s[..|s| - 1]);
    }
  }

  // ----- Base58Check -----

  /** What a Base58Check text encodes: version byte, hash, and the first four bytes of their hash. */
  function CheckBytes(dsha: Hasher, version: byte, hash: seq<byte>): (full: seq<byte>)
    ensures |full| == |hash| + 5
  {
    [version] + hash + dsha([version] + hash)[..4]
  }

  /** `s` is a text that the strict decoder reads as this version byte and 20-byte hash, with a
      correct checksum. */
  ghost predicate IsLegacyOf(dsha: Hasher, s: string, version: byte, hash: seq<byte>) {
    && |hash| == 20 && 1 <= |s| <= 100 && InAlphabet(s)
    && Value(s) == BigEndian(CheckBytes(dsha, version, hash))
  }

  lemma LegacyUnambiguous(dsha: Hasher, s: string, v: byte, h: seq<byte>, v': byte, h': seq<byte>)
    requires IsLegacyOf(dsha, s, v, h) && IsLegacyOf(dsha, s, v', h')
    ensures v == v' && h == h'
  {
    var a, b := CheckBytes(dsha, v, h), CheckBytes(dsha, v', h');
    BigEndianInjective(a, b);
    assert a[0] == v && b[0] == v' && a[1..21] == h && b[1..21] == h';
  }

  // ----- the Go encoder -----

  /** `v` shifted left by `e` base-58 digits. */
  ghost function Shifted(v: nat, e: nat): nat {
    v * Pow(58, e)
  }

  lemma ShiftedStep(v: nat, e: nat, y: nat, d: nat)
    ensures 58 * (Shifted(v, e) + y) + d == Shifted(v, e + 1) + (58 * y + d)
    ensures Shifted(v, 0) == v && Shifted(0, e) == 0
  {
    Horner(58, v, Pow(58, e), y, d);
  }

  lemma {:induction false} ValueConcat(s: string, t: string)
    requires InAlphabet(s) && InAlphabet(t)
    ensures InAlphabet(s + t) && Value(s + t) == Shifted(Value(s), |t|) + Value(t)
    decreases |t|
  {
    hide Digit, Shifted;
    if |t| == 0 {
      assert s + t == s;
      ShiftedStep(Value(s), 0, 0, 0);
    } else {
      var front := t[..|t| - 1];
      ValueConcat(s, front);
      assert (s + t)[..|s + t| - 1] == s + front;
      ShiftedStep(Value(s), |t| - 1, Value(front), Digit(t[|t| - 1]));
    }
  }

  lemma PrependDigit(num: nat, out: string)
    requires num > 0 && InAlphabet(out)
    ensures
      var longer := [ALPHABET[num % 58]] + out;
      && InAlphabet(longer)
      && Shifted(num / 58, |longer|) + Value(longer) == Shifted(num, |out|) + Value(out)
      && Pow(58, |out|) <= Shifted(num, |out|)
  {
    hide Digit, Value;
    var digit := [ALPHABET[num % 58]];
    DigitBack(num % 58);
    ValueConcat(digit, out);
    OneDigit(digit);
    SplitDigit(num, Pow(58, |out|));
  }

  lemma OneDigit(s: string)
    requires |s| == 1 && InAlphabet(s)
    ensures Value(s) == Digit(s[0])
  {
    assert s[..0] == "";
  }

  lemma SplitDigit(num: nat, p: nat)
    requires num > 0
    ensures num / 58 * (58 * p) + num % 58 * p == num * p && p <= num * p
  {
    assert (num / 58 * 58 + num % 58) * p == num / 58 * (58 * p) + num % 58 * p;
  }

  lemma PrependOne(out: string)
    requires InAlphabet(out)
    ensures InAlphabet("1" + out) && Value("1" + out) == Value(out)
  {
    ValueConcat("1", out);
    assert Value("1") == 0;
  }

  lemma TwentyFiveBytes()
    ensures Pow(256, 25) <= Pow(58, 35)
  {
    assert Pow(256, 5) == 1099511627776 && Pow(58, 7) == 2207984167552;
    PowAdd(256, 5, 5);
    PowAdd(256, 10, 10);
    PowAdd(256, 5, 20);
    PowAdd(58, 7, 7);
    PowAdd(58, 14, 14);
    PowAdd(58, 7, 28);
  }

  /** Every leading zero byte costs one character and saves at least one. */
  lemma DigitCount(k: nat, zeros: nat, value: nat)
    requires zeros <= 25 && value < Pow(256, 25 - zeros) && (k > 0 ==> Pow(58, k - 1) <= value)
    ensures k + zeros <= 35
  {
    hide Pow;
    if k + zeros > 35 {
      PowMonotone(58, 35 - zeros, k - 1);
      PowAdd(58, 35 - zeros, zeros);
      PowAdd(256, 25 - zeros, zeros);
      PowBase(zeros);
      TwentyFiveBytes();
      ProductLess(Pow(58, 35 - zeros), Pow(256, 25 - zeros), Pow(58, zeros), Pow(256, zeros));
      assert false;
    }
  }

  lemma {:induction false} PowBase(e: nat)
    ensures Pow(58, e) <= Pow(256, e)
  {
    if e > 0 {
      PowBase(e - 1);
    }
  }

  lemma ProductLess(a: nat, b: nat, c: nat, d: nat)
    requires a < b && 0 < c <= d
    ensures a * c < b * d
  {
    assert a * c <= a * d < b * d;
  }

  /** `encodeLegacyAddress`: divides the number out digit by digit and prepends a '1' for every
      leading zero byte. */
  method EncodeLegacyAddress(dsha: Hasher, pubkeyHash: seq<byte>) returns (s: string)
    ensures |pubkeyHash| != 20 ==> s == ""
    ensures |pubkeyHash| == 20 ==> IsLegacyOf(dsha, s, 0, pubkeyHash) && |s| <= 35
  {
    hide Pow, BigEndian, Value, InAlphabet;
    if |pubkeyHash| != 20 {
      return "";
    }
    var full := CheckBytes(dsha, 0, pubkeyHash);
    s := DigitsOf(BigEndian(full));
    var k := |s|;
    var zeros := 0;
    while zeros < |full| && full[zeros] == 0
      invariant zeros <= |full| && |s| == k + zeros
      invariant forall i :: 0 <= i < zeros ==> full[i] == 0
      invariant InAlphabet(s) && Value(s) == BigEndian(full)
    {
      PrependOne(s);
      s := "1" + s;
      zeros := zeros + 1;
    }
    assert full[0] == 0;
    ZeroBuffer(full[..zeros]);
    BigEndianSplit(full[..zeros], full[zeros..]);
    assert full == full[..zeros] + full[zeros..];
    BigEndianBound(full[zeros..]);
    DigitCount(k, zeros, BigEndian(full));
  }

  /** The division loop of `encodeLegacyAddress`. */
  method DigitsOf(value: nat) returns (out: string)
    ensures InAlphabet(out) && Value(out) == value
    ensures |out| > 0 ==> Pow(58, |out| - 1) <= value
  {
    hide Pow, Digit, Value, InAlphabet, Shifted;
    var num := value;
    out := "";
    EmptyText();
    ShiftedStep(value, 0, 0, 0);
    while num > 0
      invariant InAlphabet(out) && Shifted(num, |out|) + Value(out) == value
      invariant |out| > 0 ==> Pow(58, |out| - 1) <= value
    {
      PrependDigit(num, out);
      out := [ALPHABET[num % 58]] + out;
      num := num / 58;
    }
    ShiftedStep(0, |out|, 0, 0);
  }

  lemma EmptyText()
    ensures InAlphabet("") && Value("") == 0
  {}
}
