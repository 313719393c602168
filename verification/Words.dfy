/** Machine words as natural numbers with the bitwise operators of C.

    A word is an unbounded natural number; Bit(w, k) is its k-th binary digit.  Every
    operator is defined by its own arithmetic and promises what it does to each bit, so
    that later proofs are about bits or about numbers, whichever is easier.
 */
module Words {

  type Word = nat

  function Pow2(k: nat): (p: nat)
    ensures p >= 1
  {
    if k == 0 then 1 else 2 * Pow2(k - 1)
  }

  predicate Bit(w: Word, k: nat) {
    if k == 0 then w % 2 == 1 else Bit(w / 2, k - 1)
  }

  function B2N(b: bool): (r: nat)
  {
    if b then 1 else 0
  }

  /** The k-th bit as a number, `rdbit(w, k)` in the source. */
  function RdBit(w: Word, k: nat): (r: nat)
    ensures r == B2N(Bit(w, k))
  {
    var r := And(Shr(w, k), 1);
    assert Bit(Shr(w, k), 0) == Bit(w, k);
    assert Bit(r, 0) == Bit(w, k);
    assert r < 2 by { BitsBelow(1, 1); BelowByBits(r, 1); }
    r
  }

  function Shr(w: Word, k: nat): (r: Word)
    ensures forall j: nat {:trigger Bit(r, j)} :: Bit(r, j) == Bit(w, j + k)
    decreases k
  {
    if k == 0 then w else
      var r := Shr(w / 2, k - 1);
      assert forall j: nat {:trigger Bit(r, j)} :: Bit(r, j) == Bit(w, j + k);
      r
  }

  function Shl(w: Word, k: nat): (r: Word)
    ensures forall j: nat {:trigger Bit(r, j)} :: Bit(r, j) == (j >= k && Bit(w, j - k))
    decreases k
  {
    if k == 0 then w else
      var x := Shl(w, k - 1);
      DoubleBits(x, 0, 2 * x);
      2 * x
  }

  function And(a: Word, b: Word): (r: Word)
    ensures forall k: nat {:trigger Bit(r, k)} :: Bit(r, k) == (Bit(a, k) && Bit(b, k))
    decreases a + b
  {
    if a == 0 || b == 0 then
      ZeroBits(); 0
    else
      var x := And(a / 2, b / 2);
      var c := if a % 2 == 1 && b % 2 == 1 then 1 else 0;
      DoubleBits(x, c, 2 * x + c);
      2 * x + c
  }

  function Or(a: Word, b: Word): (r: Word)
    ensures forall k: nat {:trigger Bit(r, k)} :: Bit(r, k) == (Bit(a, k) || Bit(b, k))
    decreases a + b
  {
    if a == 0 && b == 0 then
      ZeroBits(); 0
    else
      var x := Or(a / 2, b / 2);
      var c := if a % 2 == 1 || b % 2 == 1 then 1 else 0;
      DoubleBits(x, c, 2 * x + c);
      2 * x + c
  }

  function Xor(a: Word, b: Word): (r: Word)
    ensures forall k: nat {:trigger Bit(r, k)} :: Bit(r, k) == (Bit(a, k) != Bit(b, k))
    decreases a + b
  {
    if a == 0 && b == 0 then
      ZeroBits(); 0
    else
      var x := Xor(a / 2, b / 2);
      var c := if a % 2 != b % 2 then 1 else 0;
      DoubleBits(x, c, 2 * x + c);
      2 * x + c
  }

  /** a & ~b */
  function AndNot(a: Word, b: Word): (r: Word)
    ensures forall k: nat {:trigger Bit(r, k)} :: Bit(r, k) == (Bit(a, k) && !Bit(b, k))
  {
    Xor(a, And(a, b))
  }

  /** `ones(T, k)`: k one bits. */
  function Ones(k: nat): (r: Word)
    requires k >= 1
    ensures r == Pow2(k) - 1
    ensures forall j: nat {:trigger Bit(r, j)} :: Bit(r, j) == (j < k)
  {
    ShlPow2(2, k - 1);
    OnesBits(k, Pow2(k) - 1);
    Shl(2, k - 1) - 1
  }

  lemma {:induction false} ZeroBitsUpTo(k: nat)
    ensures !Bit(0, k)
  {
    if k > 0 { ZeroBitsUpTo(k - 1); }
  }

  lemma ZeroBits()
    ensures forall k: nat {:trigger Bit(0, k)} :: !Bit(0, k)
  {
    forall k: nat { ZeroBitsUpTo(k); }
  }

  lemma DoubleBits(x: nat, c: nat, w: Word)
    requires c <= 1 && w == 2 * x + c
    ensures forall k: nat {:trigger Bit(w, k)} :: Bit(w, k) == (if k == 0 then c == 1 else Bit(x, k - 1))
  {
    assert w / 2 == x;
  }

  lemma {:induction false} ShlPow2(w: nat, k: nat)
    ensures Shl(w, k) == w * Pow2(k)
  {
    if k > 0 {
      ShlPow2(w, k - 1);
      var p := Pow2(k - 1);
      assert Shl(w, k) == 2 * Shl(w, k - 1) && Pow2(k) == 2 * p;
      DoubleFactor(p, w);
    }
  }

  lemma {:induction false} OnesBits(k: nat, w: Word)
    requires w == Pow2(k) - 1
    ensures forall j: nat {:trigger Bit(w, j)} :: Bit(w, j) == (j < k)
  {
    if k == 0 {
      ZeroBits();
    } else {
      OnesBits(k - 1, Pow2(k - 1) - 1);
      DoubleBits(Pow2(k - 1) - 1, 1, w);
    }
  }

  lemma {:induction false} Pow2Bits(n: nat)
    ensures forall k: nat {:trigger Bit(Pow2(n), k)} :: Bit(Pow2(n), k) == (k == n)
  {
    if n == 0 {
      ZeroBits();
      DoubleBits(0, 1, 1);
    } else {
      Pow2Bits(n - 1);
      DoubleBits(Pow2(n - 1), 0, Pow2(n));
    }
  }

  lemma {:induction false} Pow2Add(a: nat, b: nat)
    ensures Pow2(a + b) == Pow2(a) * Pow2(b)
  {
    if a > 0 {
      Pow2Add(a - 1, b);
      var x, y, z := Pow2(a - 1), Pow2(b), Pow2(a - 1 + b);
      assert Pow2(a) == 2 * x && Pow2(a + b) == 2 * z && z == x * y;
      DoubleFactor(x, y);
    }
  }

  lemma DoubleFactor(x: nat, y: nat)
    ensures (2 * x) * y == 2 * (x * y)
  {
  }

  /** Words are equal when their bits are. */
  lemma {:induction false} BitsEqual(a: Word, b: Word)
    requires forall k: nat :: Bit(a, k) == Bit(b, k)
    ensures a == b
    decreases a + b
  {
    assert Bit(a, 0) == Bit(b, 0);
    if a != 0 || b != 0 {
      forall k: nat ensures Bit(a / 2, k) == Bit(b / 2, k) {
        assert Bit(a, k + 1) == Bit(b, k + 1);
      }
      BitsEqual(a / 2, b / 2);
    }
  }

  lemma {:induction false} BitsBelow(w: Word, n: nat)
    requires w < Pow2(n)
    ensures forall k: nat {:trigger Bit(w, k)} :: k >= n ==> !Bit(w, k)
    decreases n
  {
    if n == 0 {
      ZeroBits();
    } else {
      BitsBelow(w / 2, n - 1);
      forall k: nat | k >= n ensures !Bit(w, k) { assert Bit(w, k) == Bit(w / 2, k - 1); }
    }
  }

  lemma {:induction false} BelowByBits(w: Word, n: nat)
    requires forall k: nat :: k >= n ==> !Bit(w, k)
    ensures w < Pow2(n)
    decreases w
  {
    if w == 0 {
    } else if n == 0 {
      forall k: nat ensures Bit(w, k) == Bit(0, k) { ZeroBitsUpTo(k); assert !Bit(w, k); }
      BitsEqual(w, 0);
    } else {
      forall k: nat | k >= n - 1 ensures !Bit(w / 2, k) { assert !Bit(w, k + 1); }
      BelowByBits(w / 2, n - 1);
    }
  }

  /** Words of at most n bits are equal when their lower n bits are. */
  lemma BitsEqualBelow(a: Word, b: Word, n: nat)
    requires a < Pow2(n) && b < Pow2(n)
    requires forall k: nat :: k < n ==> Bit(a, k) == Bit(b, k)
    ensures a == b
  {
    BitsBelow(a, n);
    BitsBelow(b, n);
    BitsEqual(a, b);
  }

  lemma {:induction false} ShrPow2(w: Word, k: nat)
    ensures Shr(w, k) == w / Pow2(k)
  {
    if k > 0 {
      ShrPow2(w / 2, k - 1);
      DivDiv(w, Pow2(k - 1));
    }
  }

  lemma DivDiv(w: nat, m: nat)
    requires m >= 1
    ensures w / 2 / m == w / (2 * m)
  {
    var q := w / (2 * m);
    var r := w % (2 * m);
    assert w == (2 * m) * q + r;
    assert (2 * m) * q == 2 * (m * q);
    assert w / 2 == m * q + r / 2;
    DivModOf(q, r / 2, m);
  }

  /** Quotient and remainder are determined by what they add up to. */
  lemma DivModOf(q: int, r: nat, m: nat)
    requires r < m
    ensures (q * m + r) / m == q && (q * m + r) % m == r
  {
    var x := q * m + r;
    var q', r' := x / m, x % m;
    assert x == q' * m + r';
    assert (q - q') * m == r' - r;
    if q' < q { ProductAtLeast(q - q', m); }
    if q < q' { ProductAtLeast(q' - q, m); }
  }

  lemma ProductAtLeast(k: int, m: nat)
    requires k >= 1
    ensures k * m >= m
  {
    assert k * m == (k - 1) * m + m;
    assert (k - 1) * m >= 0;
  }

  lemma {:induction false} MulMono(m: nat, a: nat, b: nat)
    requires a <= b
    ensures m * a <= m * b
  {
    if a < b {
      MulMono(m, a, b - 1);
      assert m * b == m * (b - 1) + m;
    }
  }

  /** Putting n low bits c under x. */
  lemma AppendBits(x: Word, c: Word, n: nat, w: Word)
    requires c < Pow2(n) && w == x * Pow2(n) + c
    ensures Or(Shl(x, n), c) == w
    ensures forall k: nat {:trigger Bit(w, k)} ::
              Bit(w, k) == if k < n then Bit(c, k) else Bit(x, k - n)
  {
    AppendBitsAux(x, c, n, w);
    BitsBelow(c, n);
    BitsEqual(Or(Shl(x, n), c), w);
  }

  lemma {:induction false} AppendBitsAux(x: Word, c: Word, n: nat, w: Word)
    requires c < Pow2(n) && w == x * Pow2(n) + c
    ensures forall k: nat {:trigger Bit(w, k)} ::
              Bit(w, k) == if k < n then Bit(c, k) else Bit(x, k - n)
    decreases n
  {
    if n > 0 {
      var y := x * Pow2(n - 1) + c / 2;
      AppendBitsAux(x, c / 2, n - 1, y);
      assert w == 2 * y + c % 2 by {
        assert x * Pow2(n) == 2 * (x * Pow2(n - 1));
      }
      DoubleBits(y, c % 2, w);
    }
  }

  /** Masking with n ones is the remainder, shifting by n the quotient. */
  lemma SplitWord(x: Word, c: Word, n: nat)
    requires n >= 1 && c < Pow2(n)
    ensures And(x * Pow2(n) + c, Ones(n)) == c
    ensures Shr(x * Pow2(n) + c, n) == x
  {
    var w := x * Pow2(n) + c;
    AppendBits(x, c, n, w);
    BitsBelow(c, n);
    BitsEqual(And(w, Ones(n)), c);
    BitsEqual(Shr(w, n), x);
  }

  lemma XorBelow(a: Word, b: Word, n: nat)
    requires a < Pow2(n) && b < Pow2(n)
    ensures Xor(a, b) < Pow2(n)
  {
    BitsBelow(a, n);
    BitsBelow(b, n);
    BelowByBits(Xor(a, b), n);
  }

  lemma XorAssoc(a: Word, b: Word, c: Word)
    ensures Xor(Xor(a, b), c) == Xor(a, Xor(b, c))
  {
    BitsEqual(Xor(Xor(a, b), c), Xor(a, Xor(b, c)));
  }

  lemma XorComm(a: Word, b: Word)
    ensures Xor(a, b) == Xor(b, a)
  {
    BitsEqual(Xor(a, b), Xor(b, a));
  }

  lemma XorZero(a: Word)
    ensures Xor(a, 0) == a && Xor(0, a) == a
  {
    ZeroBits();
    BitsEqual(Xor(a, 0), a);
    BitsEqual(Xor(0, a), a);
  }

  /** Xor is its own inverse. */
  lemma XorCancel(a: Word, b: Word)
    ensures Xor(Xor(a, b), b) == a && Xor(b, Xor(b, a)) == a
  {
    BitsEqual(Xor(Xor(a, b), b), a);
    BitsEqual(Xor(b, Xor(b, a)), a);
  }

  /** A word is its part above n bits and its part below. */
  lemma JoinWord(w: Word, n: nat)
    requires n >= 1
    ensures And(w, Ones(n)) < Pow2(n)
    ensures w == Shr(w, n) * Pow2(n) + And(w, Ones(n))
  {
    var x, c := Shr(w, n), And(w, Ones(n));
    BelowByBits(c, n);
    AppendBits(x, c, n, x * Pow2(n) + c);
    BitsEqual(w, x * Pow2(n) + c);
  }

  /** A number with top digit v below q and lower part c below p. */
  lemma JoinBelow(v: nat, c: nat, p: nat, q: nat)
    requires c < p
    ensures v < q <==> v * p + c < q * p
  {
    if v < q {
      MulMono(p, v + 1, q);
    } else {
      MulMono(p, q, v);
    }
  }

  /** The product of two sizes, by counting, so that proofs see no product. */
  function Times(a: nat, b: nat): (r: nat)
  {
    if b == 0 then 0 else Times(a, b - 1) + a
  }

  lemma {:induction false} TimesIs(a: nat, b: nat)
    ensures Times(a, b) == a * b == b * a
  {
    if b > 0 {
      TimesIs(a, b - 1);
      assert a * b == a * (b - 1) + a;
    }
  }

  lemma TimesMono(a: nat, b: nat, c: nat)
    requires b <= c
    ensures Times(a, b) <= Times(a, c)
  {
    TimesIs(a, b);
    TimesIs(a, c);
    MulMono(a, b, c);
  }

  lemma TimesAdd(a: nat, b: nat, c: nat)
    ensures Times(a, b + c) == Times(a, b) + Times(a, c)
  {
    TimesIs(a, b);
    TimesIs(a, c);
    TimesIs(a, b + c);
  }

  lemma TimesOne(a: nat)
    ensures Times(a, 1) == a && Times(1, a) == a && Times(a, 0) == 0
  {
    TimesIs(a, 1);
    TimesIs(1, a);
  }

  lemma TimesSwap(a: nat, b: nat)
    ensures Times(a, b) == Times(b, a)
  {
    TimesIs(a, b);
    TimesIs(b, a);
  }

  /** The number of words made of `fields` fields of `width` bits. */
  function Points(width: nat, fields: nat): (r: nat)
    ensures r >= 1
  {
    Pow2(Times(width, fields))
  }

  lemma PointsSwap(width: nat, fields: nat)
    ensures Points(width, fields) == Points(fields, width)
  {
    TimesSwap(width, fields);
  }

  lemma PointsNone(width: nat)
    ensures Points(width, 0) == 1
  {
    TimesOne(width);
  }

  lemma PointsByTimes(width: nat, fields: nat)
    ensures Points(width, fields) == Pow2(Times(width, fields))
  {
  }

  lemma PointsSnoc(width: nat, fields: nat)
    ensures Points(width, fields + 1) == Points(width, fields) * Pow2(width)
    ensures Points(width, fields + 1) == Pow2(width) * Points(width, fields)
  {
    hide *;
    PointsByTimes(width, fields);
    PointsByTimes(width, fields + 1);
    TimesAdd(width, fields, 1);
    TimesOne(width);
    Pow2Add(Times(width, fields), width);
    Commute(Points(width, fields), Pow2(width));
  }

  lemma Commute(a: nat, b: nat)
    ensures a * b == b * a
  {
  }
}
