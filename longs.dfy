/** C# 64-bit signed integer arithmetic (`long`): its range, long.Parse, the
    truncating `/` and `%` operators, the wrap-around of unchecked
    multiplication, and the congruences that reasoning about `%` needs. */
module Longs {
  import opened Wrappers
  import Seqs
  import Strings

  const MinLong: int := -0x8000_0000_0000_0000
  const MaxLong: int := 0x7FFF_FFFF_FFFF_FFFF
  const Modulus: int := 0x1_0000_0000_0000_0000

  predicate InLong(v: int)
  {
    MinLong <= v <= MaxLong
  }

  function Abs(a: int): nat
  {
    if a < 0 then -a else a
  }

  /** long.Parse: out of range is an OverflowException (None). */
  function ParseLong(s: string): (r: Option<int>)
    ensures r.Some? <==> Strings.ParseInt(s).Some? && InLong(Strings.ParseInt(s).value)
    ensures r.Some? ==> r == Strings.ParseInt(s)
  {
    match Strings.ParseInt(s)
    case Some(v) => if InLong(v) then Some(v) else None
    case None => None
  }

  /** C# `a / b`: the quotient rounded toward zero. */
  function Quot(a: int, b: int): int
    requires b != 0
  {
    var q: int := Abs(a) / Abs(b);
    if (a < 0) == (b < 0) then q else -q
  }

  /** C# `a % b`: the remainder is smaller than the divisor and takes the sign
      of the dividend. */
  function Rem(a: int, b: int): (r: int)
    requires b != 0
    ensures Abs(r) < Abs(b) && Abs(r) <= Abs(a)
    ensures r != 0 ==> ((r < 0) <==> (a < 0))
  {
    ModBelow(Abs(a), Abs(b));
    var r: int := Abs(a) % Abs(b);
    if a < 0 then -r else r
  }

  /** A remainder lies below the divisor and does not exceed the dividend. */
  lemma ModBelow(x: nat, m: nat)
    requires m > 0
    ensures 0 <= x % m < m && x % m <= x
  {
    if x < m {
      assert x == m * 0 + x;
    }
  }

  /** Division by one changes nothing. */
  lemma QuotOne(a: int)
    ensures Quot(a, 1) == a
  {
  }

  /** The remainder is congruent to the dividend, and it is zero exactly when
      the divisor divides the dividend. */
  lemma RemCongruent(a: int, b: int)
    requires b != 0
    ensures Congruent(Rem(a, b), a, b)
    ensures Rem(a, b) == 0 <==> a % b == 0
  {
    var r := Rem(a, b);
    var s := RemMultiple(a, b);
    MultipleCongruent(r, a, b, s);
    CongruentDivisible(r, a, b);
    SmallMultiple(r, b);
  }

  /** A value smaller than the divisor is a multiple of it only when zero. */
  lemma SmallMultiple(r: int, b: int)
    requires b != 0 && Abs(r) < Abs(b)
    ensures r % b == 0 <==> r == 0
  {
    if r % b == 0 {
      var j := CongruentWitness(r, 0, b);
      MulSmall(b, j);
    }
  }

  /** The remainder differs from the dividend by a multiple of the divisor. */
  lemma RemMultiple(a: int, b: int) returns (s: int)
    requires b != 0
    ensures Rem(a, b) - a == b * s
  {
    var m: int := Abs(b);
    var q: int := Abs(a) / m;
    assert Abs(a) == m * q + Abs(a) % m;
    var k: int;
    if a < 0 {
      k := q;
      assert Rem(a, b) - a == m * k;
    } else {
      k := -q;
      assert Rem(a, b) - a == -(m * q);
      assert -(m * q) == m * k;
    }
    if b < 0 {
      s := -k;
      assert m * k == b * s;
    } else {
      s := k;
    }
  }

  /** Unchecked C# arithmetic keeps the low 64 bits, read as signed. */
  function Wrap(v: int): (r: int)
    ensures InLong(r)
    ensures Congruent(r, v, Modulus)
    ensures InLong(v) ==> r == v
  {
    WrapBounds(v);
    (v - MinLong) % Modulus + MinLong
  }

  lemma WrapBounds(v: int)
    ensures InLong((v - MinLong) % Modulus + MinLong)
    ensures Congruent((v - MinLong) % Modulus + MinLong, v, Modulus)
    ensures InLong(v) ==> (v - MinLong) % Modulus + MinLong == v
  {
    var r: int := (v - MinLong) % Modulus + MinLong;
    assert v - MinLong == Modulus * ((v - MinLong) / Modulus) + (v - MinLong) % Modulus;
    assert r - v == Modulus * (-((v - MinLong) / Modulus));
    MultipleCongruent(r, v, Modulus, -((v - MinLong) / Modulus));
    if InLong(v) {
      ModUnique(v - MinLong, Modulus, 0, v - MinLong);
    }
  }

  /** LINQ Aggregate(1L, (agg, x) => agg * x) in an unchecked context: each
      partial product wraps, which gives the true product wrapped once. */
  function UncheckedProduct(s: seq<int>): (r: int)
    ensures r == Wrap(Seqs.Product(s))
  {
    if s == [] then 1
    else
      var init: int := UncheckedProduct(s[..|s| - 1]);
      WrapMul(Seqs.Product(s[..|s| - 1]), s[|s| - 1]);
      Wrap(init * s[|s| - 1])
  }

  /** Wrapping a factor first does not change the wrapped product. */
  lemma WrapMul(a: int, b: int)
    ensures Wrap(Wrap(a) * b) == Wrap(a * b)
  {
    CongruentMul(Wrap(a), a, b, Modulus);
    WrapCongruent(Wrap(a) * b, a * b);
  }

  /** Congruent values modulo 2^64 wrap to the same long. */
  lemma WrapCongruent(a: int, b: int)
    requires Congruent(a, b, Modulus)
    ensures Wrap(a) == Wrap(b)
  {
    assert Congruent(a - MinLong, b - MinLong, Modulus);
    CongruentSameMod(a - MinLong, b - MinLong, Modulus);
  }

  // ---------------------------------------------------------------------------
  // Congruences
  // ---------------------------------------------------------------------------

  lemma AbsMul(a: int, b: int)
    ensures Abs(a * b) == Abs(a) * Abs(b)
  {
    if a < 0 && b < 0 {
      assert a * b == (-a) * (-b);
    } else if a < 0 && b > 0 {
      assert a * b == -((-a) * b);
    } else if a > 0 && b < 0 {
      assert a * b == -(a * (-b));
    }
  }

  lemma {:induction false} MulMono(m: nat, t: nat)
    requires t >= 1
    ensures m * t >= m
    decreases t
  {
    if t > 1 {
      MulMono(m, t - 1);
      assert m * t == m * (t - 1) + m;
    }
  }

  lemma MulSmall(m: int, t: int)
    requires m != 0 && Abs(m * t) < Abs(m)
    ensures t == 0
  {
    if t != 0 {
      AbsMul(m, t);
      MulMono(Abs(m), Abs(t));
    }
  }

  lemma ModUnique(x: int, m: int, q: int, r: int)
    requires m != 0 && x == m * q + r && 0 <= r < Abs(m)
    ensures x % m == r
  {
    var q': int := x / m;
    var r': int := x % m;
    assert x == m * q' + r';
    assert m * (q - q') == r' - r;
    MulSmall(m, q - q');
  }

  /** `a` and `b` leave the same remainder modulo `m`. */
  predicate Congruent(a: int, b: int, m: int)
    requires m != 0
  {
    (a - b) % m == 0
  }

  lemma CongruentWitness(a: int, b: int, m: int) returns (k: int)
    requires m != 0
    ensures Congruent(a, b, m) <==> a - b == m * k
  {
    k := (a - b) / m;
    if a - b == m * k {
      ModUnique(a - b, m, k, 0);
    }
  }

  lemma MultipleCongruent(a: int, b: int, m: int, k: int)
    requires m != 0 && a - b == m * k
    ensures Congruent(a, b, m)
  {
    ModUnique(a - b, m, k, 0);
  }

  lemma CongruentMul(a: int, b: int, c: int, m: int)
    requires m != 0 && Congruent(a, b, m)
    ensures Congruent(a * c, b * c, m)
  {
    var k := CongruentWitness(a, b, m);
    assert a * c - b * c == m * (k * c);
    MultipleCongruent(a * c, b * c, m, k * c);
  }

  lemma CongruentTrans(a: int, b: int, c: int, m: int)
    requires m != 0 && Congruent(a, b, m) && Congruent(b, c, m)
    ensures Congruent(a, c, m)
  {
    var k := CongruentWitness(a, b, m);
    var j := CongruentWitness(b, c, m);
    assert a - c == m * (k + j);
    MultipleCongruent(a, c, m, k + j);
  }

  lemma CongruentDivisor(a: int, b: int, m: int, d: int)
    requires m != 0 && d != 0 && m % d == 0 && Congruent(a, b, m)
    ensures Congruent(a, b, d)
  {
    var k := CongruentWitness(a, b, m);
    var j := CongruentWitness(m, 0, d);
    assert a - b == d * (j * k);
    MultipleCongruent(a, b, d, j * k);
  }

  lemma CongruentSym(a: int, b: int, m: int)
    requires m != 0 && Congruent(a, b, m)
    ensures Congruent(b, a, m)
  {
    var k := CongruentWitness(a, b, m);
    MultipleCongruent(b, a, m, -k);
  }

  /** Congruent values leave the same (Euclidean) remainder. */
  lemma CongruentSameMod(a: int, b: int, m: int)
    requires m != 0 && Congruent(a, b, m)
    ensures a % m == b % m
  {
    var k := CongruentWitness(a, b, m);
    assert b == m * (b / m) + b % m;
    assert a == m * (b / m + k) + b % m;
    ModUnique(a, m, b / m + k, b % m);
  }

  lemma CongruentDivisible(a: int, b: int, d: int)
    requires d != 0 && Congruent(a, b, d)
    ensures a % d == 0 <==> b % d == 0
  {
    var k := CongruentWitness(a, b, d);
    if a % d == 0 {
      var j := CongruentWitness(a, 0, d);
      MultipleCongruent(b, 0, d, j - k);
    }
    if b % d == 0 {
      var j := CongruentWitness(b, 0, d);
      MultipleCongruent(a, 0, d, j + k);
    }
  }
}
