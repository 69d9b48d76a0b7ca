/** Bitwise operations on numbers of any width. */
module Bitwise {
  import opened Bytes

  /** Bitwise or. */
  function Or(a: nat, b: nat): (r: nat)
    decreases a + b
  {
    if a == 0 && b == 0 then 0 else (if a % 2 == 1 || b % 2 == 1 then 1 else 0) + 2 * Or(a / 2, b / 2)
  }

  /** Bitwise and with the complement. */
  function AndNot(a: nat, b: nat): (r: nat) {
    if a == 0 then 0 else (if a % 2 == 1 && b % 2 == 0 then 1 else 0) + 2 * AndNot(a / 2, b / 2)
  }

  predicate Bit(v: nat, k: nat) {
    if k == 0 then v % 2 == 1 else Bit(v / 2, k - 1)
  }

  lemma {:induction false} OrBits(a: nat, b: nat, k: nat)
    ensures Bit(Or(a, b), k) <==> Bit(a, k) || Bit(b, k)
    decreases k
  {
    hide Or;
    OrHalf(a, b);
    if k > 0 {
      OrBits(a / 2, b / 2, k - 1);
    }
  }

  lemma OrHalf(a: nat, b: nat)
    ensures Or(a, b) / 2 == Or(a / 2, b / 2) && (Or(a, b) % 2 == 1 <==> a % 2 == 1 || b % 2 == 1)
  {}

  lemma {:induction false} NoBits(k: nat)
    ensures !Bit(0, k)
  {
    if k > 0 {
      NoBits(k - 1);
    }
  }

  lemma {:induction false} AndNotZero(a: nat, b: nat)
    ensures AndNot(a, b) == 0 <==> forall k: nat :: Bit(a, k) ==> Bit(b, k)
    decreases a
  {
    if a == 0 {
      forall k: nat
        ensures !Bit(a, k)
      {
        NoBits(k);
      }
    } else {
      AndNotZero(a / 2, b / 2);
      if AndNot(a, b) == 0 {
        forall k: nat | Bit(a, k)
          ensures Bit(b, k)
        {
          if k > 0 {
            assert Bit(a / 2, k - 1);
          }
        }
      } else if AndNot(a / 2, b / 2) != 0 {
        var k: nat :| Bit(a / 2, k) && !Bit(b / 2, k);
        assert Bit(a, k + 1) && !Bit(b, k + 1);
        assert exists m: nat :: Bit(a, m) && !Bit(b, m);
      } else {
        assert Bit(a, 0) && !Bit(b, 0);
        assert exists k: nat :: Bit(a, k) && !Bit(b, k);
      }
    }
  }

  /** Bitwise and. */
  function And(a: nat, b: nat): (r: nat)
    ensures r <= b
    decreases a
  {
    if a == 0 then 0 else (if a % 2 == 1 && b % 2 == 1 then 1 else 0) + 2 * And(a / 2, b / 2)
  }

  /** Masking with one less than a power of two is taking the remainder. */
  lemma {:induction false} MaskIsRemainder(a: nat, n: nat)
    ensures And(a, Pow(2, n) - 1) == a % Pow(2, n)
    decreases n
  {
    if n == 0 {
      NothingAnd(a);
    } else {
      var p := Pow(2, n - 1);
      assert (2 * p - 1) / 2 == p - 1 && (2 * p - 1) % 2 == 1;
      MaskIsRemainder(a / 2, n - 1);
      HalfMod(a, p);
    }
  }

  lemma {:induction false} NothingAnd(a: nat)
    ensures And(a, 0) == 0
    decreases a
  {
    if a > 0 {
      NothingAnd(a / 2);
    }
  }

  /** High and low parts are or-ed by themselves. */
  lemma {:induction false} OrParts(x: nat, y: nat, u: nat, v: nat, n: nat)
    requires u < Pow(2, n) && v < Pow(2, n)
    ensures Or(x * Pow(2, n) + u, y * Pow(2, n) + v) == Or(x, y) * Pow(2, n) + Or(u, v)
    ensures Or(u, v) < Pow(2, n)
    decreases n
  {
    hide Or;
    if n == 0 {
      NothingOr();
      assert x * Pow(2, n) == x && y * Pow(2, n) == y && Or(x, y) * Pow(2, n) == Or(x, y);
    } else {
      var p := Pow(2, n - 1);
      OrParts(x, y, u / 2, v / 2, n - 1);
      OrHalves(x * p, y * p, u, v);
      Doubled(x, p);
      Doubled(y, p);
      Doubled(Or(x, y), p);
      assert Pow(2, n) == 2 * p;
    }
  }

  lemma NothingOr()
    ensures Or(0, 0) == 0
  {}

  lemma Doubled(a: nat, p: nat)
    ensures a * (2 * p) == 2 * (a * p)
  {}

  lemma OrHalves(a: nat, b: nat, u: nat, v: nat)
    ensures Or(2 * a + u, 2 * b + v) == 2 * Or(a + u / 2, b + v / 2) + Or(u, v) - 2 * Or(u / 2, v / 2)
    ensures Or(u, v) <= 2 * Or(u / 2, v / 2) + 1
  {
    assert (2 * a + u) / 2 == a + u / 2 && (2 * a + u) % 2 == u % 2;
    assert (2 * b + v) / 2 == b + v / 2 && (2 * b + v) % 2 == v % 2;
  }
}
