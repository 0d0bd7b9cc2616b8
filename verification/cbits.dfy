/**
 C's `<<`, `>>` and `|` on the non-negative `int` values the driver computes with,
 stated over unbounded naturals. Every use in the driver works on values below 2^16
 after integer promotion, so no shift here can overflow or be applied to a negative
 operand; the lemmas below say when a bitwise OR is an ordinary sum and how a word
 splits into bit fields.
 */
module CBits {

  /** 2^n. */
  function Pow2(n: nat): (r: nat)
    ensures r >= 1
  {
    if n == 0 then 1 else 2 * Pow2(n - 1)
  }

  /** `x << n` for a non-negative `x` that does not overflow. */
  function ShiftLeft(x: nat, n: nat): nat
  {
    x * Pow2(n)
  }

  /** `x >> n` for a non-negative `x`: the low `n` bits are dropped. */
  function ShiftRight(x: nat, n: nat): nat
  {
    var p := Pow2(n);
    DivNonNeg(x, p);
    x / p
  }

  /**
   The quotient is a `nat`. Stated separately because leaving the fact to the
   subset-type check of `ShiftRight` makes the solver search non-linear arithmetic.
   */
  lemma DivNonNeg(x: nat, d: nat)
    requires d > 0
    ensures x / d >= 0
  {
  }

  /**
   Bitwise inclusive OR of two `n`-bit values, decided one bit at a time from the most
   significant end: bit `n-1` of the result is set when it is set in either operand.
   */
  function OrBits(a: nat, b: nat, n: nat): (r: nat)
    requires a < Pow2(n) && b < Pow2(n)
    ensures r < Pow2(n)
    ensures a <= r && b <= r
  {
    if n == 0 then 0
    else
      var h := Pow2(n - 1);
      var a' := if a >= h then a - h else a;
      var b' := if b >= h then b - h else b;
      (if a >= h || b >= h then h else 0) + OrBits(a', b', n - 1)
  }

  /** How many bits of an operand `Or` looks at: every `|` in the driver joins values below 2^16. */
  const OperandBits: nat := 16

  /** C's `a | b` on the promoted `int` operands. */
  function Or(a: nat, b: nat): (r: nat)
    requires a < 65536 && b < 65536
    ensures a <= r < 65536 && b <= r
  {
    Pow2Values();
    OrBits(a, b, OperandBits)
  }

  /** The `width` bits of `w` starting at bit `lo`: `(w >> lo) & ((1 << width) - 1)`. */
  function BitField(w: nat, lo: nat, width: nat): (r: nat)
    ensures r < Pow2(width)
  {
    ShiftRight(w, lo) % Pow2(width)
  }

  lemma Pow2Add(a: nat, b: nat)
    ensures Pow2(a + b) == Pow2(a) * Pow2(b)
  {
    if b > 0 {
      var x, y := Pow2(a), Pow2(b - 1);
      Pow2Add(a, b - 1);
      assert Pow2(a + b) == 2 * (x * y);
      assert Pow2(b) == 2 * y;
      MulAssoc(2, x, y);
    }
  }

  /** The powers of two the register layout uses. */
  lemma Pow2Values()
    ensures Pow2(0) == 1 && Pow2(1) == 2 && Pow2(2) == 4 && Pow2(3) == 8 && Pow2(4) == 16
    ensures Pow2(7) == 128 && Pow2(8) == 256 && Pow2(11) == 2048
    ensures Pow2(13) == 8192 && Pow2(14) == 16384 && Pow2(15) == 32768
    ensures Pow2(16) == 65536
  {
    assert Pow2(1) == 2;
    assert Pow2(2) == 4;
    assert Pow2(3) == 8;
    assert Pow2(4) == 16;
    assert Pow2(5) == 32;
    assert Pow2(6) == 64;
    assert Pow2(7) == 128;
    assert Pow2(8) == 256;
    assert Pow2(9) == 512;
    assert Pow2(10) == 1024;
    assert Pow2(11) == 2048;
    assert Pow2(12) == 4096;
    assert Pow2(13) == 8192;
    assert Pow2(14) == 16384;
    assert Pow2(15) == 32768;
  }

  /**
   Quotient and remainder are the unique pair with `x == q * d + r` and `0 <= r < d`
   (Dafny's division rounds so that the remainder is never negative).
   */
  lemma DivModUnique(x: int, d: nat, q: int, r: nat)
    requires d > 0 && r < d
    requires x == q * d + r
    ensures x / d == q && x % d == r
  {
    var q', r' := x / d, x % d;
    assert q' * d + r' == q * d + r;
    if q' > q {
      assert q' * d >= (q + 1) * d by { MulMonoInt(q + 1, q', d); }
      assert false;
    } else if q' < q {
      assert q * d >= (q' + 1) * d by { MulMonoInt(q' + 1, q, d); }
      assert false;
    }
  }

  lemma MulMonoInt(a: int, b: int, c: nat)
    requires a <= b
    ensures a * c <= b * c
  {
    MulMono(0, b - a, c);
    MulDist(b - a, a, c);
  }

  /** A multiple of `d` is its quotient times `d`. */
  lemma ExactDiv(x: int, d: nat)
    requires d > 0 && x % d == 0
    ensures x == x / d * d
  {
  }

  lemma MulAssoc(a: int, b: int, c: int)
    ensures a * (b * c) == (a * b) * c == b * (a * c)
  {
  }

  lemma MulDist(a: int, b: int, c: int)
    ensures (a + b) * c == a * c + b * c
  {
  }

  lemma MulMono(a: nat, b: nat, c: nat)
    requires a <= b
    ensures a * c <= b * c
  {
    assert b * c == a * c + (b - a) * c;
  }

  /** Multiplying by a positive number keeps distinct values distinct. */
  lemma MulCancel(a: int, b: int, c: nat)
    requires c > 0 && a != b
    ensures a * c != b * c
  {
    if a < b {
      MulMonoInt(a + 1, b, c);
      MulDist(a, 1, c);
    } else {
      MulMonoInt(b + 1, a, c);
      MulDist(b, 1, c);
    }
  }

  /** Scaling by a positive step keeps the sign. */
  lemma ScaledSign(i: int, c: nat)
    requires c > 0
    ensures i * c < 0 <==> i < 0
  {
    if i < 0 {
      MulMonoInt(i, -1, c);
    } else {
      MulMonoInt(0, i, c);
    }
  }

  /**
   A bitwise OR of a multiple of 2^k with a value below 2^k touches disjoint bits,
   so it equals their sum.
   */
  lemma OrAdd(a: nat, b: nat, k: nat)
    requires a < 65536 && b < 65536
    requires a % Pow2(k) == 0 && b < Pow2(k)
    ensures Or(a, b) == a + b
  {
    assert Pow2(OperandBits) == 65536 by { Pow2Values(); }
    OrBitsAdd(a, b, k, OperandBits);
  }

  /** `OrAdd` for `n`-bit operands. */
  lemma {:induction false} OrBitsAdd(a: nat, b: nat, k: nat, n: nat)
    requires a < Pow2(n) && b < Pow2(n)
    requires a % Pow2(k) == 0 && b < Pow2(k)
    ensures OrBits(a, b, n) == a + b
    decreases n
  {
    if n == 0 {
    } else if n - 1 < k {
      // a is a multiple of 2^k below 2^n <= 2^k, so it is 0
      Pow2Mono(n, k);
      DivModUnique(a, Pow2(k), 0, a);
      OrBitsZero(b, n);
    } else {
      var h := Pow2(n - 1);
      Pow2Mono(k, n - 1);
      PowDivides(k, n - 1);
      if a >= h {
        SubMultiple(a, h, Pow2(k));
        OrBitsAdd(a - h, b, k, n - 1);
      } else {
        OrBitsAdd(a, b, k, n - 1);
      }
    }
  }

  /** 2^k divides 2^m when `k <= m`. */
  lemma PowDivides(k: nat, m: nat)
    requires k <= m
    ensures Pow2(m) % Pow2(k) == 0
  {
    var j := m - k;
    var x, pk, pj := Pow2(m), Pow2(k), Pow2(j);
    Pow2Add(k, j);
    assert x == pk * pj;
    MulAssoc(1, pj, pk);
    DivModUnique(x, pk, pj, 0);
  }

  /** The difference of two multiples of `p` is a multiple of `p`. */
  lemma SubMultiple(a: nat, h: nat, p: nat)
    requires p > 0 && a % p == 0 && h % p == 0 && a >= h
    ensures (a - h) % p == 0
  {
    var x, y := a / p, h / p;
    assert a == x * p && h == y * p;
    if x < y {
      MulMono(x + 1, y, p);
      MulDist(x, 1, p);
    }
    MulDist(x - y, y, p);
    DivModUnique(a - h, p, x - y, 0);
  }

  /** `0 | b == b`. */
  lemma {:induction false} OrBitsZero(b: nat, n: nat)
    requires b < Pow2(n)
    ensures OrBits(0, b, n) == b
  {
    if n > 0 {
      var h := Pow2(n - 1);
      OrBitsZero(if b >= h then b - h else b, n - 1);
    }
  }

  lemma {:induction false} Pow2Mono(a: nat, b: nat)
    requires a <= b
    ensures Pow2(a) <= Pow2(b)
    decreases b
  {
    if a < b {
      Pow2Mono(a, b - 1);
    }
  }

  /** Extracting a field from a word built as `hi | c << lo | low` gives back `c`. */
  lemma BitFieldOf(hi: nat, c: nat, low: nat, lo: nat, width: nat)
    requires c < Pow2(width) && low < Pow2(lo)
    ensures BitField(hi * Pow2(lo + width) + c * Pow2(lo) + low, lo, width) == c
  {
    var pl, pw := Pow2(lo), Pow2(width);
    Pow2Add(lo, width);
    var q := hi * pw + c;
    Regroup(hi, c, low, pl, pw);
    DivModUnique(hi * Pow2(lo + width) + c * pl + low, pl, q, low);
    DivModUnique(q, pw, hi, c);
  }

  lemma Regroup(hi: nat, c: nat, low: nat, pl: nat, pw: nat)
    ensures hi * (pl * pw) + c * pl + low == (hi * pw + c) * pl + low
  {
    MulAssoc(hi, pl, pw);
    MulDist(hi * pw, c, pl);
  }

  /**
   The bits of `w` below `lo + width` are the field at `lo` followed by the bits below `lo`:
   `w % 2^(lo+width) == BitField(w, lo, width) * 2^lo + w % 2^lo`.
   */
  lemma ModSplit(w: nat, lo: nat, width: nat)
    ensures w % Pow2(lo + width) == BitField(w, lo, width) * Pow2(lo) + w % Pow2(lo)
  {
    var pl, pw := Pow2(lo), Pow2(width);
    Pow2Add(lo, width);
    NestedDivMod(w, pl, pw);
  }

  /** Dividing by `pl` and then by `pw` is dividing by `pl * pw`, and the remainders nest. */
  lemma NestedDivMod(w: nat, pl: nat, pw: nat)
    requires pl > 0 && pw > 0
    ensures w % (pl * pw) == (w / pl) % pw * pl + w % pl
  {
    var a, b := w / pl, w % pl;
    var f, t := a % pw, a / pw;
    assert w == a * pl + b;
    assert a == t * pw + f;
    assert w == (t * pw + f) * pl + b;
    Regroup(t, f, b, pl, pw);
    DigitBound(f, b, pl, pw);
    DivModUnique(w, pl * pw, t, f * pl + b);
  }

  /** A digit below `pw` followed by a digit below `pl` is a number below `pl * pw`. */
  lemma DigitBound(f: nat, b: nat, pl: nat, pw: nat)
    requires f < pw && b < pl
    ensures f * pl + b < pl * pw
  {
    MulMono(f, pw - 1, pl);
    MulDist(pw - 1, 1, pl);
  }
}
