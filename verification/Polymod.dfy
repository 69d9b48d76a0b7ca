/** The CashAddr checksum of cashaddr_simple.c: a linear code over 5-bit symbols. */
module Polymod {
  type Symbol = bv5

  // ----- the code -----

  /** Addition in the code: states and symbols are vectors of bits. */
  function Plus(c: bv64, d: bv64): bv64 { c ^ d }

  /** What the five bits shifted out of the 40-bit state fold back into it. */
  function Generator(c0: bv64): bv64 {
    Plus(Plus(Plus(Plus(Masked(c0, 0x01, 0x98f2bc8e61), Masked(c0, 0x02, 0x79b76d99e2)),
      Masked(c0, 0x04, 0xf33e5fb3c4)), Masked(c0, 0x08, 0xae2eabe2a8)), Masked(c0, 0x10, 0x1e4f43e470))
  }

  function Masked(c0: bv64, bit: bv64, g: bv64): bv64 {
    if c0 & bit != 0 then g else 0
  }

  function Top(c: bv64): bv64 { c >> 35 }

  function Step(c: bv64, v: Symbol): bv64 {
    Plus(Shift(c, v), Generator(Top(c)))
  }

  function Shift(c: bv64, v: Symbol): bv64 {
    ((c & 0x07ffffffff) << 5) ^ (v as bv64)
  }

  /** The state reached from `c` by feeding in `vs`. */
  function Feed(c: bv64, vs: seq<Symbol>): bv64 {
    if |vs| == 0 then c else Step(Feed(c, vs[..|vs| - 1]), vs[|vs| - 1])
  }

  /** `polymod`. */
  method PolymodOf(values: seq<Symbol>) returns (c: bv64)
    ensures c == Feed(1, values)
  {
    hide Step;
    c := 1;
    for i := 0 to |values|
      invariant c == Feed(1, values[..i])
    {
      assert values[..i + 1][..i] == values[..i];
      c := PolymodStep(c, values[i]);
    }
    assert values[..|values|] == values;
  }

  /** The body of the loop of `polymod`. */
  method PolymodStep(was: bv64, value: Symbol) returns (c: bv64)
    ensures c == Step(was, value)
  {
    hide Masked, Plus;
    var c0 := was >> 35;
    c := ((was & 0x07ffffffff) << 5) ^ (value as bv64);
    ghost var shifted := c;
    c := XorIf(c, c0, 0x01, 0x98f2bc8e61);
    c := XorIf(c, c0, 0x02, 0x79b76d99e2);
    c := XorIf(c, c0, 0x04, 0xf33e5fb3c4);
    c := XorIf(c, c0, 0x08, 0xae2eabe2a8);
    c := XorIf(c, c0, 0x10, 0x1e4f43e470);
    PlusChain(shifted, Masked(c0, 0x01, 0x98f2bc8e61), Masked(c0, 0x02, 0x79b76d99e2),
              Masked(c0, 0x04, 0xf33e5fb3c4), Masked(c0, 0x08, 0xae2eabe2a8), Masked(c0, 0x10, 0x1e4f43e470));
  }

  method XorIf(c: bv64, c0: bv64, bit: bv64, g: bv64) returns (r: bv64)
    ensures r == Plus(c, Masked(c0, bit, g))
  {
    hide Plus;
    XorIsPlus(c, g);
    PlusZero(c);
    r := c;
    if c0 & bit != 0 {
      r := c ^ g;
    }
  }

  lemma XorIsPlus(c: bv64, d: bv64)
    ensures c ^ d == Plus(c, d)
  {}

  lemma PlusZero(c: bv64)
    ensures Plus(c, 0) == c
  {}

  lemma PlusAssociative(c: bv64, d: bv64, e: bv64)
    ensures Plus(Plus(c, d), e) == Plus(c, Plus(d, e))
  {}

  lemma PlusChain(c: bv64, a: bv64, b: bv64, d: bv64, e: bv64, f: bv64)
    ensures Plus(Plus(Plus(Plus(Plus(c, a), b), d), e), f) == Plus(c, Plus(Plus(Plus(Plus(a, b), d), e), f))
  {
    hide Plus;
    PlusAssociative(c, a, b);
    PlusAssociative(c, Plus(a, b), d);
    PlusAssociative(c, Plus(Plus(a, b), d), e);
    PlusAssociative(c, Plus(Plus(Plus(a, b), d), e), f);
  }

  // ----- one step -----

  ghost predicate InRange(c: bv64) {
    c < 0x100_0000_0000
  }

  lemma StepInRange(c: bv64, v: Symbol)
    ensures InRange(Step(c, v))
  {
    hide Masked, Shift, Plus, Top, InRange;
    MaskedInRange(Top(c), 0x01, 0x98f2bc8e61);
    MaskedInRange(Top(c), 0x02, 0x79b76d99e2);
    MaskedInRange(Top(c), 0x04, 0xf33e5fb3c4);
    MaskedInRange(Top(c), 0x08, 0xae2eabe2a8);
    MaskedInRange(Top(c), 0x10, 0x1e4f43e470);
    var a, b, d, e := Masked(Top(c), 0x01, 0x98f2bc8e61), Masked(Top(c), 0x02, 0x79b76d99e2),
                      Masked(Top(c), 0x04, 0xf33e5fb3c4), Masked(Top(c), 0x08, 0xae2eabe2a8);
    PlusInRange(a, b);
    PlusInRange(Plus(a, b), d);
    PlusInRange(Plus(Plus(a, b), d), e);
    PlusInRange(Plus(Plus(Plus(a, b), d), e), Masked(Top(c), 0x10, 0x1e4f43e470));
    ShiftInRange(c, v);
    PlusInRange(Shift(c, v), Generator(Top(c)));
  }

  lemma PlusInRange(c: bv64, d: bv64)
    requires InRange(c) && InRange(d)
    ensures InRange(Plus(c, d))
  {}

  lemma ShiftInRange(c: bv64, v: Symbol)
    ensures InRange(Shift(c, v))
  {}

  lemma MaskedInRange(c0: bv64, bit: bv64, g: bv64)
    requires g < 0x100_0000_0000
    ensures InRange(Masked(c0, bit, g))
  {}

  /** The low five bits of the feedback are the bits that were shifted out. */
  lemma GeneratorLow(c0: bv64)
    requires c0 < 32
    ensures Generator(c0) & 31 == c0
  {}

  lemma ShiftedOutEqual(c: bv64, d: bv64, v: Symbol, g: bv64, h: bv64)
    requires InRange(c) && InRange(d) && g & 31 == Top(c) && h & 31 == Top(d)
    requires Plus(Shift(c, v), g) == Plus(Shift(d, v), h)
    ensures Top(c) == Top(d)
  {}

  lemma ShiftedInEqual(c: bv64, d: bv64, v: Symbol, g: bv64)
    requires Top(c) == Top(d) && Plus(Shift(c, v), g) == Plus(Shift(d, v), g)
    ensures c == d
  {}

  lemma TopIsSmall(c: bv64)
    requires InRange(c)
    ensures Top(c) < 32
  {}

  /** A step loses nothing: the state before it can be told from the state after it. */
  lemma StepInjective(c: bv64, d: bv64, v: Symbol)
    requires InRange(c) && InRange(d) && Step(c, v) == Step(d, v)
    ensures c == d
  {
    hide Generator, Shift, Plus, Top, InRange;
    TopIsSmall(c);
    TopIsSmall(d);
    GeneratorLow(Top(c));
    GeneratorLow(Top(d));
    ShiftedOutEqual(c, d, v, Generator(Top(c)), Generator(Top(d)));
    ShiftedInEqual(c, d, v, Generator(Top(c)));
  }

  lemma MaskedLinear(c: bv64, d: bv64, bit: bv64, g: bv64)
    requires c & bit == 0 || c & bit == bit
    requires d & bit == 0 || d & bit == bit
    ensures Masked(Plus(c, d), bit, g) == Plus(Masked(c, bit, g), Masked(d, bit, g))
  {
    assert (c ^ d) & bit == (c & bit) ^ (d & bit);
  }

  lemma OneBit(c: bv64)
    ensures c & 0x01 == 0 || c & 0x01 == 0x01
    ensures c & 0x02 == 0 || c & 0x02 == 0x02
    ensures c & 0x04 == 0 || c & 0x04 == 0x04
    ensures c & 0x08 == 0 || c & 0x08 == 0x08
    ensures c & 0x10 == 0 || c & 0x10 == 0x10
  {}

  lemma PlusSwap(a: bv64, b: bv64, c: bv64, d: bv64)
    ensures Plus(Plus(a, b), Plus(c, d)) == Plus(Plus(a, c), Plus(b, d))
  {
    hide Plus;
    PlusAssociative(a, b, Plus(c, d));
    PlusAssociative(b, c, d);
    PlusCommutative(b, c);
    PlusAssociative(c, b, d);
    PlusAssociative(a, c, Plus(b, d));
  }

  lemma PlusCommutative(c: bv64, d: bv64)
    ensures Plus(c, d) == Plus(d, c)
  {}

  lemma GeneratorLinear(c: bv64, d: bv64)
    ensures Generator(Plus(c, d)) == Plus(Generator(c), Generator(d))
  {
    hide Masked, Plus;
    OneBit(c);
    OneBit(d);
    MaskedLinear(c, d, 0x01, 0x98f2bc8e61);
    MaskedLinear(c, d, 0x02, 0x79b76d99e2);
    MaskedLinear(c, d, 0x04, 0xf33e5fb3c4);
    MaskedLinear(c, d, 0x08, 0xae2eabe2a8);
    MaskedLinear(c, d, 0x10, 0x1e4f43e470);
    var a, b, d', e := Masked(c, 0x01, 0x98f2bc8e61), Masked(c, 0x02, 0x79b76d99e2),
                       Masked(c, 0x04, 0xf33e5fb3c4), Masked(c, 0x08, 0xae2eabe2a8);
    var p, q, r, s := Masked(d, 0x01, 0x98f2bc8e61), Masked(d, 0x02, 0x79b76d99e2),
                      Masked(d, 0x04, 0xf33e5fb3c4), Masked(d, 0x08, 0xae2eabe2a8);
    PlusSwap(a, p, b, q);
    PlusSwap(Plus(a, b), Plus(p, q), d', r);
    PlusSwap(Plus(Plus(a, b), d'), Plus(Plus(p, q), r), e, s);
    PlusSwap(Plus(Plus(Plus(a, b), d'), e), Plus(Plus(Plus(p, q), r), s),
             Masked(c, 0x10, 0x1e4f43e470), Masked(d, 0x10, 0x1e4f43e470));
  }

  lemma ShiftLinear(c: bv64, d: bv64, v: Symbol, w: Symbol)
    ensures Shift(Plus(c, d), PlusSymbol(v, w)) == Plus(Shift(c, v), Shift(d, w))
    ensures Top(Plus(c, d)) == Plus(Top(c), Top(d))
  {}

  /** Two words added symbol by symbol reach the sum of the states they reach. */
  lemma StepLinear(c: bv64, d: bv64, v: Symbol, w: Symbol)
    ensures Step(Plus(c, d), PlusSymbol(v, w)) == Plus(Step(c, v), Step(d, w))
  {
    hide Generator, Shift, Plus, Top, PlusSymbol;
    ShiftLinear(c, d, v, w);
    GeneratorLinear(Top(c), Top(d));
    PlusSwap(Shift(c, v), Shift(d, w), Generator(Top(c)), Generator(Top(d)));
  }

  // ----- words of any length -----

  lemma {:induction false} FeedInRange(c: bv64, vs: seq<Symbol>)
    requires InRange(c)
    ensures InRange(Feed(c, vs))
  {
    hide Step;
    if |vs| > 0 {
      FeedInRange(c, vs[..|vs| - 1]);
      StepInRange(Feed(c, vs[..|vs| - 1]), vs[|vs| - 1]);
    }
  }

  lemma {:induction false} FeedConcat(c: bv64, a: seq<Symbol>, b: seq<Symbol>)
    ensures Feed(c, a + b) == Feed(Feed(c, a), b)
    decreases |b|
  {
    hide Step;
    if |b| == 0 {
      assert a + b == a;
    } else {
      FeedConcat(c, a, b[..|b| - 1]);
      assert (a + b)[..|a + b| - 1] == a + b[..|b| - 1];
    }
  }

  /** Whatever follows, two different states stay different. */
  lemma {:induction false} FeedInjective(c: bv64, d: bv64, vs: seq<Symbol>)
    requires InRange(c) && InRange(d) && Feed(c, vs) == Feed(d, vs)
    ensures c == d
  {
    hide Step;
    if |vs| > 0 {
      var init := vs[..|vs| - 1];
      FeedInRange(c, init);
      FeedInRange(d, init);
      StepInjective(Feed(c, init), Feed(d, init), vs[|vs| - 1]);
      FeedInjective(c, d, init);
    }
  }

  function PlusSymbol(v: Symbol, w: Symbol): Symbol { v ^ w }

  function PlusWord(vs: seq<Symbol>, ws: seq<Symbol>): (r: seq<Symbol>)
    requires |vs| == |ws|
    ensures |r| == |vs|
  {
    seq(|vs|, i requires 0 <= i < |vs| => PlusSymbol(vs[i], ws[i]))
  }

  lemma {:induction false} FeedLinear(c: bv64, d: bv64, vs: seq<Symbol>, ws: seq<Symbol>)
    requires |vs| == |ws|
    ensures Feed(Plus(c, d), PlusWord(vs, ws)) == Plus(Feed(c, vs), Feed(d, ws))
    decreases |vs|
  {
    hide Step, Plus, PlusSymbol;
    if |vs| > 0 {
      var n := |vs| - 1;
      FeedLinear(c, d, vs[..n], ws[..n]);
      assert PlusWord(vs, ws)[..n] == PlusWord(vs[..n], ws[..n]);
      StepLinear(Feed(c, vs[..n]), Feed(d, ws[..n]), vs[n], ws[n]);
    }
  }

  /** A bound on the state that at most eight symbols can reach from zero. */
  ghost predicate Below(c: bv64, n: nat)
    requires n <= 8
  {
    c < [0x1, 0x20, 0x400, 0x8000, 0x10_0000, 0x200_0000, 0x4000_0000, 0x8_0000_0000, 0x100_0000_0000][n]
  }

  lemma SmallStep(c: bv64, v: Symbol)
    requires c < 0x8_0000_0000
    ensures Step(c, v) == (c << 5) ^ (v as bv64)
    ensures Step(c, v) == 0 ==> c == 0 && v == 0
  {
    assert Top(c) == 0;
    assert Generator(0) == 0;
  }

  lemma SmallStepBelow(n: nat, c: bv64, v: Symbol)
    requires n < 8 && Below(c, n)
    ensures Below(Step(c, v), n + 1)
    ensures Step(c, v) == 0 ==> c == 0 && v == 0
  {
    hide Step;
    if n == 0 {} else if n == 1 {} else if n == 2 {} else if n == 3 {} else if n == 4 {}
    else if n == 5 {} else if n == 6 {} else {}
    assert c < 0x8_0000_0000;
    SmallStep(c, v);
  }

  lemma ZeroBelow()
    ensures Below(0, 0)
  {}

  /** From the zero state up to eight symbols are only shifted in, so they can all be read off. */
  lemma {:induction false} ShortWord(vs: seq<Symbol>)
    requires |vs| <= 8
    ensures Below(Feed(0, vs), |vs|)
    ensures Feed(0, vs) == 0 ==> forall i :: 0 <= i < |vs| ==> vs[i] == 0
  {
    hide Step, Below;
    if |vs| == 0 {
      ZeroBelow();
    } else {
      var n := |vs| - 1;
      ShortWord(vs[..n]);
      SmallStepBelow(n, Feed(0, vs[..n]), vs[n]);
      assert forall i :: 0 <= i < n ==> vs[i] == vs[..n][i];
    }
  }

  lemma PlusSelf(c: bv64)
    ensures Plus(c, c) == 0
  {}

  lemma PlusSymbolZero(v: Symbol, w: Symbol)
    requires PlusSymbol(v, w) == 0
    ensures v == w
  {}

  /** Eight or fewer symbols fed to the same state can be told apart. */
  lemma WindowInjective(s: bv64, v: seq<Symbol>, w: seq<Symbol>)
    requires |v| == |w| <= 8 && Feed(s, v) == Feed(s, w)
    ensures v == w
  {
    hide Step, Plus, PlusSymbol, Below, Feed;
    FeedLinear(s, s, v, w);
    PlusSelf(s);
    PlusSelf(Feed(s, v));
    ShortWord(PlusWord(v, w));
    forall i | 0 <= i < |v|
      ensures v[i] == w[i]
    {
      assert PlusWord(v, w)[i] == 0;
      PlusSymbolZero(v[i], w[i]);
    }
  }

  /** Words that agree outside a window of eight symbols have different checksums, so any error
      confined to eight consecutive symbols of an accepted address is noticed. */
  lemma BurstDetected(c: bv64, a: seq<Symbol>, v: seq<Symbol>, w: seq<Symbol>, b: seq<Symbol>)
    requires InRange(c) && |v| == |w| <= 8
    requires Feed(c, a + v + b) == Feed(c, a + w + b)
    ensures v == w
  {
    hide Feed, InRange;
    var s := Feed(c, a);
    FeedConcat(c, a + v, b);
    FeedConcat(c, a + w, b);
    FeedConcat(c, a, v);
    FeedConcat(c, a, w);
    FeedInRange(c, a);
    FeedInRange(s, v);
    FeedInRange(s, w);
    FeedInjective(Feed(s, v), Feed(s, w), b);
    WindowInjective(s, v, w);
  }

  // ----- checksums -----

  function Digit(x: bv64): Symbol { (x & 31) as bv5 }

  function Right5(x: bv64): bv64 { x >> 5 }

  /** The eight 5-bit digits of a 40-bit number, most significant first. */
  function Digits(m: bv64): (t: seq<Symbol>)
    ensures |t| == 8
  {
    var x1 := Right5(m);
    var x2 := Right5(x1);
    var x3 := Right5(x2);
    var x4 := Right5(x3);
    var x5 := Right5(x4);
    var x6 := Right5(x5);
    [Digit(Right5(x6)), Digit(x6), Digit(x5), Digit(x4), Digit(x3), Digit(x2), Digit(x1), Digit(m)]
  }

  function ZeroWord(n: nat): (z: seq<Symbol>)
    ensures |z| == n
  {
    seq(n, _ => 0)
  }

  /** The eight symbols that complete a word which has reached state `s`. */
  function Checksum(s: bv64): (t: seq<Symbol>)
    ensures |t| == 8
  {
    Digits(Plus(Feed(s, ZeroWord(8)), 1))
  }

  lemma AppendDigit(c: bv64, x: bv64)
    requires InRange(x) && c == Right5(x)
    ensures Step(c, Digit(x)) == x
  {
    assert c < 0x8_0000_0000;
    SmallStep(c, Digit(x));
    assert ((x >> 5) << 5) ^ (((x & 31) as bv5) as bv64) == x;
  }

  lemma Right5InRange(m: bv64)
    requires InRange(m)
    ensures InRange(Right5(m))
  {}

  lemma EightRights(m: bv64)
    requires InRange(m)
    ensures Right5(Right5(Right5(Right5(Right5(Right5(Right5(Right5(m)))))))) == 0
  {}

  lemma FeedDigit(vs: seq<Symbol>, n: nat, x: bv64)
    requires n < |vs| && Feed(0, vs[..n]) == Right5(x) && InRange(x) && vs[n] == Digit(x)
    ensures Feed(0, vs[..n + 1]) == x
  {
    hide Step, Digit, Right5, InRange;
    assert vs[..n + 1][..n] == vs[..n];
    AppendDigit(Right5(x), x);
  }

  lemma FeedNothing(vs: seq<Symbol>)
    ensures Feed(0, vs[..0]) == 0
  {}

  /** Feeding the digits of a number to the zero state yields the number. */
  lemma FeedDigits(m: bv64)
    requires InRange(m)
    ensures Feed(0, Digits(m)) == m
  {
    hide Feed, Digit, InRange, Right5;
    var t := Digits(m);
    var x1 := Right5(m);
    var x2 := Right5(x1);
    var x3 := Right5(x2);
    var x4 := Right5(x3);
    var x5 := Right5(x4);
    var x6 := Right5(x5);
    var x7 := Right5(x6);
    Right5InRange(m);
    Right5InRange(x1);
    Right5InRange(x2);
    Right5InRange(x3);
    Right5InRange(x4);
    Right5InRange(x5);
    Right5InRange(x6);
    FeedNothing(t);
    EightRights(m);
    FeedDigit(t, 0, x7);
    FeedDigit(t, 1, x6);
    FeedDigit(t, 2, x5);
    FeedDigit(t, 3, x4);
    FeedDigit(t, 4, x3);
    FeedDigit(t, 5, x2);
    FeedDigit(t, 6, x1);
    FeedDigit(t, 7, m);
    assert t[..8] == t;
  }

  lemma OneInRange()
    ensures InRange(1) && InRange(0)
  {}

  lemma PlusBack(f: bv64)
    ensures Plus(f, Plus(f, 1)) == 1
  {}

  /** After every word exactly one eight-symbol checksum is accepted. */
  lemma ExactlyOneChecksum(s: bv64, t: seq<Symbol>)
    requires InRange(s) && |t| == 8
    ensures Feed(s, t) == 1 <==> t == Checksum(s)
  {
    hide Feed, Plus, InRange, Digits;
    var f := Feed(s, ZeroWord(8));
    OneInRange();
    FeedInRange(s, ZeroWord(8));
    PlusInRange(f, 1);
    FeedLinear(s, 0, ZeroWord(8), Checksum(s));
    PlusZero(s);
    ZeroWordIsZero(Checksum(s));
    FeedDigits(Plus(f, 1));
    PlusBack(f);
    if Feed(s, t) == 1 {
      WindowInjective(s, t, Checksum(s));
    }
  }

  lemma ZeroWordIsZero(t: seq<Symbol>)
    ensures PlusWord(ZeroWord(|t|), t) == t
  {
    forall i | 0 <= i < |t|
      ensures PlusWord(ZeroWord(|t|), t)[i] == t[i]
    {
      PlusZeroSymbol(t[i]);
    }
  }

  lemma PlusZeroSymbol(v: Symbol)
    ensures PlusSymbol(0, v) == v
  {}

  // ----- linear over the field of 32 elements -----

  /** Every symbol of a state multiplied by x in GF(2)[x] / (x^5 + x^3 + 1). */
  function TimesX(c: bv64): bv64 {
    Plus(Plus(LowBits(c), Carry(c)), Raise(Carry(c)))
  }

  /** All but the highest bit of every symbol, one place up. */
  function LowBits(c: bv64): bv64 {
    (c & 0x7bdef7bdef) << 1
  }

  function Raise(c: bv64): bv64 { c << 3 }

  /** The highest bit of every symbol, in its lowest place. */
  function Carry(c: bv64): bv64 {
    (c >> 4) & 0x842108421
  }

  /** A single symbol multiplied by x. */
  function SymbolTimesX(v: Symbol): Symbol {
    if v & 16 != 0 then (v << 1) ^ 9 else v << 1
  }

  function WordTimesX(vs: seq<Symbol>): (r: seq<Symbol>)
    ensures |r| == |vs|
  {
    seq(|vs|, i requires 0 <= i < |vs| => SymbolTimesX(vs[i]))
  }

  lemma TimesXLinear(c: bv64, d: bv64)
    ensures TimesX(Plus(c, d)) == Plus(TimesX(c), TimesX(d))
  {
    hide Plus, LowBits, Carry, Raise;
    PartsLinear(c, d);
    RaiseLinear(Carry(c), Carry(d));
    PlusSwap(LowBits(c), LowBits(d), Carry(c), Carry(d));
    PlusSwap(Plus(LowBits(c), Carry(c)), Plus(LowBits(d), Carry(d)), Raise(Carry(c)), Raise(Carry(d)));
  }

  lemma PartsLinear(c: bv64, d: bv64)
    ensures LowBits(Plus(c, d)) == Plus(LowBits(c), LowBits(d)) && Carry(Plus(c, d)) == Plus(Carry(c), Carry(d))
  {}

  lemma RaiseLinear(c: bv64, d: bv64)
    ensures Raise(Plus(c, d)) == Plus(Raise(c), Raise(d))
  {}

  lemma ShiftTimesX(c: bv64, v: Symbol)
    requires InRange(c)
    ensures Shift(TimesX(c), SymbolTimesX(v)) == TimesX(Shift(c, v)) && Top(TimesX(c)) == TimesX(Top(c))
  {}

  /** The five constants are one, multiplied by powers of x. */
  lemma ConstantsTimesX()
    ensures TimesX(0x98f2bc8e61) == 0x79b76d99e2 && TimesX(0x79b76d99e2) == 0xf33e5fb3c4
    ensures TimesX(0xf33e5fb3c4) == 0xae2eabe2a8 && TimesX(0xae2eabe2a8) == 0x1e4f43e470
    ensures TimesX(0x1e4f43e470) == Plus(0x98f2bc8e61, 0xae2eabe2a8)
  {}

  lemma GeneratorTimesX(c0: bv64)
    requires c0 < 32
    ensures Generator(TimesX(c0)) == TimesX(Generator(c0))
  {}

  /** A step is linear over that field too. */
  lemma StepTimesX(c: bv64, v: Symbol)
    requires InRange(c)
    ensures Step(TimesX(c), SymbolTimesX(v)) == TimesX(Step(c, v))
  {
    hide Generator, Shift, Plus, Top, InRange, TimesX, SymbolTimesX;
    TopIsSmall(c);
    ShiftTimesX(c, v);
    GeneratorTimesX(Top(c));
    TimesXLinear(Shift(c, v), Generator(Top(c)));
  }

  /** And so is the whole checksum: a word multiplied by a field element reaches the state multiplied by
      it. */
  lemma {:induction false} FeedTimesX(c: bv64, vs: seq<Symbol>)
    requires InRange(c)
    ensures Feed(TimesX(c), WordTimesX(vs)) == TimesX(Feed(c, vs))
    decreases |vs|
  {
    hide Step, TimesX, SymbolTimesX, InRange;
    if |vs| > 0 {
      var front := vs[..|vs| - 1];
      FeedTimesX(c, front);
      assert WordTimesX(vs)[..|vs| - 1] == WordTimesX(front);
      FeedInRange(c, front);
      StepTimesX(Feed(c, front), vs[|vs| - 1]);
    }
  }
}
