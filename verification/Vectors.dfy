/** Vectors in space, and determinants. */
module Vectors {
  datatype Vec = Vec(x: real, y: real, z: real)

  function Product(a: real, b: real, c: real): (p: real)
  {
    a * b * c
  }

  function Cross(a: Vec, b: Vec): (c: Vec)
  {
    Vec(a.y * b.z - b.y * a.z, b.x * a.z - a.x * b.z, a.x * b.y - b.x * a.y)
  }

  function Scalar(a: Vec, b: Vec): (p: real)
  {
    a.x * b.x + a.y * b.y + a.z * b.z
  }

  function Det(a: Vec, b: Vec, c: Vec): (d: real)
  {
    Scalar(a, Cross(b, c))
  }

  lemma TimesDifference(a: real, p: real, q: real, r: real, s: real)
    ensures a * (p * q - r * s) == Product(a, p, q) - Product(a, s, r)
  {
    var t, u := p * q, r * s;
    assert a * (t - u) == a * t - a * u;
  }

  lemma Exchanged(a: real, b: real, c: real)
    ensures Product(a, b, c) == Product(b, a, c) == Product(a, c, b) == Product(b, c, a) == Product(c, b, a)
  {
  }

  /** The six products of a determinant. */
  lemma DetProducts(a: Vec, b: Vec, c: Vec)
    ensures Det(a, b, c) == Product(a.x, b.y, c.z) - Product(a.x, b.z, c.y) +
                            Product(a.y, b.z, c.x) - Product(a.y, b.x, c.z) +
                            Product(a.z, b.x, c.y) - Product(a.z, b.y, c.x)
    ensures a.y * Cross(b, c).y == Product(a.y, b.z, c.x) - Product(a.y, b.x, c.z)
  {
    hide Product;
    TimesDifference(a.x, b.y, c.z, c.y, b.z);
    TimesDifference(a.y, c.x, b.z, b.x, c.z);
    TimesDifference(a.z, b.x, c.y, c.x, b.y);
    Exchanged(a.y, c.x, b.z);
    Exchanged(a.y, c.z, b.x);
  }

  lemma CrossIsOrthogonal(a: Vec, b: Vec)
    ensures Det(a, a, b) == 0.0 && Det(b, a, b) == 0.0
  {
    hide Product, Det;
    DetProducts(a, a, b);
    DetProducts(b, a, b);
    Exchanged(a.x, a.y, b.z);
    Exchanged(a.y, a.z, b.x);
    Exchanged(a.z, a.x, b.y);
    Exchanged(b.x, a.y, b.z);
    Exchanged(b.y, a.z, b.x);
    Exchanged(b.z, a.x, b.y);
  }

  lemma DetTurns(a: Vec, b: Vec, c: Vec)
    ensures Det(a, b, c) == Det(b, c, a)
  {
    hide Product, Det;
    DetProducts(a, b, c);
    DetProducts(b, c, a);
    Exchanged(a.x, b.y, c.z);
    Exchanged(a.x, b.z, c.y);
    Exchanged(a.y, b.z, c.x);
    Exchanged(a.y, b.x, c.z);
    Exchanged(a.z, b.x, c.y);
    Exchanged(a.z, b.y, c.x);
  }

  lemma ScalarCombination(a: Vec, b: Vec, c: Vec, p: real, q: real, r: real, s: Vec)
    ensures Scalar(Vec(p * a.x + q * b.x + r * c.x, p * a.y + q * b.y + r * c.y,
                          p * a.z + q * b.z + r * c.z), s) ==
            p * Scalar(a, s) + q * Scalar(b, s) + r * Scalar(c, s)
  {
  }

  // ---------- Tetrahedra ----------

  function Minus(a: Vec, b: Vec): (c: Vec)
  {
    Vec(a.x - b.x, a.y - b.y, a.z - b.z)
  }

  lemma DetSwaps(a: Vec, b: Vec, c: Vec)
    ensures Det(a, c, b) == -Det(a, b, c) && Det(b, a, c) == -Det(a, b, c) && Det(c, b, a) == -Det(a, b, c)
  {
    hide Product, Det;
    DetProducts(a, b, c);
    DetProducts(a, c, b);
    DetTurns(a, c, b);
    DetTurns(c, b, a);
    Exchanged(a.x, b.y, c.z);
    Exchanged(a.x, b.z, c.y);
    Exchanged(a.z, b.x, c.y);
    Exchanged(a.z, b.y, c.x);
  }

  lemma ProductMinus(a: real, b: real, p: real, q: real)
    ensures Product(a - b, p, q) == Product(a, p, q) - Product(b, p, q)
  {
    var t := p * q;
    assert Product(a - b, p, q) == (a - b) * t && Product(a, p, q) == a * t && Product(b, p, q) == b * t;
  }

  lemma DetMinus(a: Vec, b: Vec, c: Vec, d: Vec)
    ensures Det(Minus(a, b), c, d) == Det(a, c, d) - Det(b, c, d)
  {
    hide Product, Det;
    DetProducts(Minus(a, b), c, d);
    DetProducts(a, c, d);
    DetProducts(b, c, d);
    ProductMinus(a.x, b.x, c.y, d.z);
    ProductMinus(a.x, b.x, c.z, d.y);
    ProductMinus(a.y, b.y, c.z, d.x);
    ProductMinus(a.y, b.y, c.x, d.z);
    ProductMinus(a.z, b.z, c.x, d.y);
    ProductMinus(a.z, b.z, c.y, d.x);
  }

  /** Six times the signed volume of a tetrahedron. */
  function Tetra(a: Vec, b: Vec, c: Vec, d: Vec): (v: real)
  {
    Det(Minus(b, a), Minus(c, a), Minus(d, a))
  }

  /** It is the sum of those of the cones from the origin over its faces. */
  lemma TetraByCones(a: Vec, b: Vec, c: Vec, d: Vec)
    ensures Tetra(a, b, c, d) == Det(b, c, d) - Det(a, c, d) + Det(a, b, d) - Det(a, b, c)
  {
    hide Det, Minus;
    DetMinus(b, a, Minus(c, a), Minus(d, a));
    SecondMinus(b, c, a, Minus(d, a));
    SecondMinus(a, c, a, Minus(d, a));
    ThirdMinus(b, c, d, a);
    ThirdMinus(b, a, d, a);
    ThirdMinus(a, c, d, a);
    ThirdMinus(a, a, d, a);
    CrossIsOrthogonal(a, d);
    CrossIsOrthogonal(a, a);
    DetSwaps(a, b, d);
    DetTurns(a, b, c);
    DetSwaps(b, a, a);
    DetSwaps(a, a, c);
  }

  lemma SecondMinus(a: Vec, b: Vec, c: Vec, d: Vec)
    ensures Det(a, Minus(b, c), d) == Det(a, b, d) - Det(a, c, d)
  {
    hide Det, Minus;
    DetMinus(b, c, d, a);
    DetTurns(a, Minus(b, c), d);
    DetTurns(a, b, d);
    DetTurns(a, c, d);
  }

  lemma ThirdMinus(a: Vec, b: Vec, c: Vec, d: Vec)
    ensures Det(a, b, Minus(c, d)) == Det(a, b, c) - Det(a, b, d)
  {
    hide Det, Minus;
    DetMinus(c, d, a, b);
    DetTurns(Minus(c, d), a, b);
    DetTurns(c, a, b);
    DetTurns(d, a, b);
  }
}
