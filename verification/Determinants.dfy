/**
 Determinants of three vectors: what they are in terms of a basis.

 Products are compared factor by factor with `Times`, so that each step is an identity between
 polynomials in plain variables.
 */
module Determinants {
  import opened Isosurface

  /** The signed volume spanned by three vectors. */
  function Det(u: Vec, v: Vec, w: Vec): real {
    Dot(Cross(u, v), w)
  }

  /** The vector with coefficients `c` in the basis `u`, `v`, `w`. */
  function Combine(c: Vec, u: Vec, v: Vec, w: Vec): Vec {
    Vec(c.x * u.x + c.y * v.x + c.z * w.x, c.x * u.y + c.y * v.y + c.z * w.y, c.x * u.z + c.y * v.z + c.z * w.z)
  }

  lemma Times(p: real, q: real, p': real, q': real)
    requires p == p' && q == q'
    ensures p * q == p' * q'
  {
  }

  // ----- linearity

  lemma Spread(c: Vec, u: real, v: real, w: real, n: real, p: real)
    requires p == c.x * u + c.y * v + c.z * w
    ensures n * p == c.x * (n * u) + c.y * (n * v) + c.z * (n * w)
  {
    Times(n, p, n, c.x * u + c.y * v + c.z * w);
  }

  lemma Gather(c: real, a: real, b: real, d: real, s: real)
    requires s == a + b + d
    ensures c * s == c * a + c * b + c * d
  {
    Times(c, s, c, a + b + d);
  }

  lemma DotCombine(n: Vec, c: Vec, u: Vec, v: Vec, w: Vec)
    ensures Dot(n, Combine(c, u, v, w)) == c.x * Dot(n, u) + c.y * Dot(n, v) + c.z * Dot(n, w)
  {
    var p := Combine(c, u, v, w);
    Spread(c, u.x, v.x, w.x, n.x, p.x);
    Spread(c, u.y, v.y, w.y, n.y, p.y);
    Spread(c, u.z, v.z, w.z, n.z, p.z);
    Gather(c.x, n.x * u.x, n.y * u.y, n.z * u.z, Dot(n, u));
    Gather(c.y, n.x * v.x, n.y * v.y, n.z * v.z, Dot(n, v));
    Gather(c.z, n.x * w.x, n.y * w.y, n.z * w.z, Dot(n, w));
  }

  // ----- order of the vectors

  lemma Determinant(u: Vec, v: Vec, w: Vec)
    ensures Det(u, v, w) == u.y * v.z * w.x - u.z * v.y * w.x + u.z * v.x * w.y - u.x * v.z * w.y
                            + u.x * v.y * w.z - u.y * v.x * w.z
  {
    var n := Cross(u, v);
    Times(n.x, w.x, u.y * v.z - u.z * v.y, w.x);
    Times(n.y, w.y, u.z * v.x - u.x * v.z, w.y);
    Times(n.z, w.z, u.x * v.y - u.y * v.x, w.z);
  }

  lemma DetRotate(u: Vec, v: Vec, w: Vec)
    ensures Det(v, w, u) == Det(u, v, w) == Det(w, u, v)
  {
    Determinant(u, v, w);
    Determinant(v, w, u);
    Determinant(w, u, v);
  }

  lemma DetSwap(u: Vec, v: Vec, w: Vec)
    ensures Det(v, u, w) == 0.0 - Det(u, v, w)
  {
    Determinant(u, v, w);
    Determinant(v, u, w);
  }

  lemma DetTwice(u: Vec, v: Vec)
    ensures Det(u, v, u) == 0.0 && Det(u, v, v) == 0.0
  {
    Determinant(u, v, u);
    Determinant(u, v, v);
  }

  // ----- the determinant is multiplicative

  /** A combination against two of the basis vectors leaves the share of the third. */
  lemma DetOfOne(a: Vec, u: Vec, v: Vec, w: Vec, p: Vec)
    requires p == Combine(a, u, v, w)
    ensures Det(u, p, v) == 0.0 - a.z * Det(u, v, w) && Det(u, p, w) == a.y * Det(u, v, w)
  {
    DetRotate(u, p, v);
    DetRotate(u, p, w);
    DotCombine(Cross(v, u), a, u, v, w);
    DotCombine(Cross(w, u), a, u, v, w);
    DetTwice(v, u);
    DetTwice(w, u);
    DetSwap(u, v, w);
    DetRotate(u, v, w);
  }

  /** The share of the first basis vector in the normal of two combinations. */
  lemma DetOfPair(a: Vec, b: Vec, u: Vec, v: Vec, w: Vec, p: Vec, q: Vec)
    requires p == Combine(a, u, v, w) && q == Combine(b, u, v, w)
    ensures Det(p, q, u) == Cross(a, b).x * Det(u, v, w)
  {
    DetRotate(p, q, u);
    DotCombine(Cross(u, p), b, u, v, w);
    DetTwice(u, p);
    DetOfOne(a, u, v, w, p);
    PairShare(a.y, a.z, b.y, b.z, Det(u, v, w), Det(u, p, v), Det(u, p, w), Cross(a, b).x);
  }

  lemma PairShare(y: real, z: real, y': real, z': real, volume: real, second: real, third: real, share: real)
    requires second == 0.0 - z * volume && third == y * volume && share == y * z' - z * y'
    ensures y' * second + z' * third == share * volume
  {
    Times(y', second, y', 0.0 - z * volume);
    Times(z', third, z', y * volume);
    Times(share, volume, y * z' - z * y', volume);
  }

  lemma CombineRotated(a: Vec, u: Vec, v: Vec, w: Vec)
    ensures Combine(a, u, v, w) == Combine(Vec(a.y, a.z, a.x), v, w, u) == Combine(Vec(a.z, a.x, a.y), w, u, v)
  {
  }

  lemma DetOfPairs(a: Vec, b: Vec, u: Vec, v: Vec, w: Vec, p: Vec, q: Vec, volume: real)
    requires p == Combine(a, u, v, w) && q == Combine(b, u, v, w) && volume == Det(u, v, w)
    ensures var n := Cross(a, b);
            Det(p, q, u) == n.x * volume && Det(p, q, v) == n.y * volume && Det(p, q, w) == n.z * volume
  {
    CombineRotated(a, u, v, w);
    CombineRotated(b, u, v, w);
    DetOfPair(a, b, u, v, w, p, q);
    DetOfPair(Vec(a.y, a.z, a.x), Vec(b.y, b.z, b.x), v, w, u, p, q);
    DetOfPair(Vec(a.z, a.x, a.y), Vec(b.z, b.x, b.y), w, u, v, p, q);
    DetRotate(u, v, w);
  }

  /** The determinant of combinations is that of their coefficients times that of the basis. */
  lemma DetOfCombinations(a: Vec, b: Vec, c: Vec, u: Vec, v: Vec, w: Vec, p: Vec, q: Vec, r: Vec)
    requires p == Combine(a, u, v, w) && q == Combine(b, u, v, w) && r == Combine(c, u, v, w)
    ensures Det(p, q, r) == Det(a, b, c) * Det(u, v, w)
  {
    var n, volume := Cross(a, b), Det(u, v, w);
    DetOfPairs(a, b, u, v, w, p, q, volume);
    DotCombine(Cross(p, q), c, u, v, w);
    AllShares(c, n, volume, Det(p, q, u), Det(p, q, v), Det(p, q, w), Det(a, b, c));
  }

  lemma AllShares(c: Vec, n: Vec, volume: real, first: real, second: real, third: real, whole: real)
    requires first == n.x * volume && second == n.y * volume && third == n.z * volume
    requires whole == n.x * c.x + n.y * c.y + n.z * c.z
    ensures c.x * first + c.y * second + c.z * third == whole * volume
  {
    Times(c.x, first, c.x, n.x * volume);
    Times(c.y, second, c.y, n.y * volume);
    Times(c.z, third, c.z, n.z * volume);
    Times(whole, volume, n.x * c.x + n.y * c.y + n.z * c.z, volume);
  }

  // ----- points in the coordinates of a tetrahedron

  /** Point `q` has coordinates `k` over the edges `u`, `v`, `w` that leave `base`. */
  predicate At(q: Vec, k: Vec, base: Vec, u: Vec, v: Vec, w: Vec) {
    Sub(q, base) == Combine(k, u, v, w)
  }

  lemma AlongComponent(k: Vec, l: Vec, m: Vec, t: real, u: real, v: real, w: real, p: real, q: real, base: real)
    requires p - base == k.x * u + k.y * v + k.z * w && q - base == l.x * u + l.y * v + l.z * w && m == Along(k, l, t)
    ensures Between(p, q, t) - base == m.x * u + m.y * v + m.z * w
  {
    Times(t, q - p, t, (l.x * u + l.y * v + l.z * w) - (k.x * u + k.y * v + k.z * w));
    Times(m.x, u, k.x + t * (l.x - k.x), u);
    Times(m.y, v, k.y + t * (l.y - k.y), v);
    Times(m.z, w, k.z + t * (l.z - k.z), w);
  }

  /** One component of a point, by the components of the edges. */
  predicate Share(q: real, k: Vec, base: real, u: real, v: real, w: real) {
    q - base == k.x * u + k.y * v + k.z * w
  }

  lemma AtByShares(q: Vec, k: Vec, base: Vec, u: Vec, v: Vec, w: Vec)
    ensures At(q, k, base, u, v, w) <==>
            && Share(q.x, k, base.x, u.x, v.x, w.x) && Share(q.y, k, base.y, u.y, v.y, w.y)
            && Share(q.z, k, base.z, u.z, v.z, w.z)
  {
  }

  lemma AlongShare(k: Vec, l: Vec, t: real, u: real, v: real, w: real, p: real, q: real, base: real)
    requires Share(p, k, base, u, v, w) && Share(q, l, base, u, v, w)
    ensures Share(Between(p, q, t), Along(k, l, t), base, u, v, w)
  {
    AlongComponent(k, l, Along(k, l, t), t, u, v, w, p, q, base);
  }

  /** Points between two points have coordinates between theirs. */
  lemma AlongAt(p: Vec, k: Vec, q: Vec, l: Vec, t: real, base: Vec, u: Vec, v: Vec, w: Vec)
    requires At(p, k, base, u, v, w) && At(q, l, base, u, v, w)
    ensures At(Along(p, q, t), Along(k, l, t), base, u, v, w)
  {
    AtByShares(p, k, base, u, v, w);
    AtByShares(q, l, base, u, v, w);
    AlongShare(k, l, t, u.x, v.x, w.x, p.x, q.x, base.x);
    AlongShare(k, l, t, u.y, v.y, w.y, p.y, q.y, base.y);
    AlongShare(k, l, t, u.z, v.z, w.z, p.z, q.z, base.z);
    AtByShares(Along(p, q, t), Along(k, l, t), base, u, v, w);
  }

  lemma DifferenceComponent(k: Vec, l: Vec, m: Vec, u: real, v: real, w: real, p: real, q: real, base: real)
    requires p - base == k.x * u + k.y * v + k.z * w && q - base == l.x * u + l.y * v + l.z * w && m == Sub(k, l)
    ensures p - q == m.x * u + m.y * v + m.z * w
  {
    Times(m.x, u, k.x - l.x, u);
    Times(m.y, v, k.y - l.y, v);
    Times(m.z, w, k.z - l.z, w);
  }

  lemma DifferenceShare(k: Vec, l: Vec, u: real, v: real, w: real, p: real, q: real, base: real)
    requires Share(p, k, base, u, v, w) && Share(q, l, base, u, v, w)
    ensures Share(p - q, Sub(k, l), 0.0, u, v, w)
  {
    DifferenceComponent(k, l, Sub(k, l), u, v, w, p, q, base);
  }

  lemma FromZero(p: Vec, zero: Vec)
    requires zero == Vec(0.0, 0.0, 0.0)
    ensures Sub(p, zero) == p
  {
  }

  lemma DifferenceAt(p: Vec, k: Vec, q: Vec, l: Vec, base: Vec, u: Vec, v: Vec, w: Vec)
    requires At(p, k, base, u, v, w) && At(q, l, base, u, v, w)
    ensures Sub(p, q) == Combine(Sub(k, l), u, v, w)
  {
    AtByShares(p, k, base, u, v, w);
    AtByShares(q, l, base, u, v, w);
    DifferenceShare(k, l, u.x, v.x, w.x, p.x, q.x, base.x);
    DifferenceShare(k, l, u.y, v.y, w.y, p.y, q.y, base.y);
    DifferenceShare(k, l, u.z, v.z, w.z, p.z, q.z, base.z);
    AtByShares(Sub(p, q), Sub(k, l), Vec(0.0, 0.0, 0.0), u, v, w);
    FromZero(Sub(p, q), Vec(0.0, 0.0, 0.0));
  }

  lemma CornersAt(a: Vec, b: Vec, c: Vec, d: Vec)
    ensures var u, v, w := Sub(b, a), Sub(c, a), Sub(d, a);
            && At(a, Vec(0.0, 0.0, 0.0), a, u, v, w) && At(b, Vec(1.0, 0.0, 0.0), a, u, v, w)
            && At(c, Vec(0.0, 1.0, 0.0), a, u, v, w) && At(d, Vec(0.0, 0.0, 1.0), a, u, v, w)
  {
  }

  /** The normal of a triangle against a direction, by coordinates. */
  lemma NormalAt(e: Vec, g: Vec, h: Vec, i: Vec, j: Vec, k: Vec, direction: Vec, m: Vec, base: Vec, u: Vec, v: Vec, w: Vec)
    requires At(e, i, base, u, v, w) && At(g, j, base, u, v, w) && At(h, k, base, u, v, w)
    requires direction == Combine(m, u, v, w)
    ensures Dot(Cross(Sub(g, e), Sub(h, e)), direction) == Det(Sub(j, i), Sub(k, i), m) * Det(u, v, w)
  {
    DifferenceAt(g, j, e, i, base, u, v, w);
    DifferenceAt(h, k, e, i, base, u, v, w);
    DetOfCombinations(Sub(j, i), Sub(k, i), m, u, v, w, Sub(g, e), Sub(h, e), direction);
  }
}
