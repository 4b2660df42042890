/** Ratios between two positive prices, with a point at infinity, and how the ways of composing
    prices compose them. */
module Ratios {

  datatype Reach = Bounded(ratio: real) | Unbounded {
    predicate AtMostOne() {
      Bounded? && ratio <= 1.0
    }
  }

  predicate Le(u: Reach, v: Reach) {
    v.Unbounded? || (u.Bounded? && u.ratio <= v.ratio)
  }

  function Wider(u: Reach, v: Reach): Reach {
    if Le(u, v) then v else u
  }

  function Tighter(u: Reach, v: Reach): Reach {
    if Le(u, v) then u else v
  }

  function Times(u: Reach, v: Reach): Reach {
    if u.Bounded? && v.Bounded? then Bounded(Mul(u.ratio, v.ratio)) else Unbounded
  }

  function RootOf(root: real -> real, u: Reach): Reach {
    if u.Bounded? then Bounded(root(u.ratio)) else Unbounded
  }

  function Span(low: real, high: real): Reach {
    if low <= 0.0 then Unbounded else Bounded(high / low)
  }

  /** How far a two-source midpoint can move when its legs can move by `u` and `v`. */
  function MidpointReach(u: Reach, v: Reach, tolerance: Reach): Reach {
    if u.AtMostOne() && v.AtMostOne() then Bounded(1.0)
    else if v.AtMostOne() then Tighter(u, tolerance)
    else if u.AtMostOne() then Tighter(v, tolerance)
    else Tighter(Wider(u, v), Times(Tighter(u, v), tolerance))
  }

  function Mul(a: real, b: real): real {
    a * b
  }

  function Mid(a: real, b: real): real {
    (a + b) / 2.0
  }

  function Lesser(a: real, b: real): real {
    if a <= b then a else b
  }

  function Greater(a: real, b: real): real {
    if a >= b then a else b
  }

  ghost predicate IsRoot(root: real -> real) {
    forall x: real {:trigger root(x)} :: x >= 0.0 ==> root(x) >= 0.0 && root(x) * root(x) == x
  }

  /** Neither price exceeds the other by more than the factor `u`. */
  predicate Within(p: real, q: real, u: Reach) {
    u.Bounded? ==> p <= Mul(u.ratio, q) && q <= Mul(u.ratio, p)
  }

  // ----- one-sided facts about reals

  lemma Raise(a: real, b: real, u: real)
    requires a <= b && u >= 0.0
    ensures u * a <= u * b
  {
  }

  lemma RaiseStrictly(a: real, b: real, u: real)
    requires a < b && u > 0.0
    ensures u * a < u * b
  {
  }

  lemma Positive(a: real, b: real)
    requires a > 0.0 && b > 0.0
    ensures a * b > 0.0
  {
  }

  lemma PositiveFactor(f: real, q: real)
    requires f * q > 0.0 && q > 0.0
    ensures f > 0.0
  {
  }

  lemma Grow(p: real, u: real, v: real)
    requires p >= 0.0 && u <= v
    ensures u * p <= v * p
  {
  }

  lemma Shrink(p: real, u: real)
    requires p > 0.0 && u < 1.0
    ensures u * p < p
  {
  }

  lemma RatioAtLeastOne(p: real, q: real, u: real)
    requires p > 0.0 && q > 0.0 && p <= u * q && q <= u * p
    ensures u >= 1.0 && (u == 1.0 ==> p == q)
  {
    if u < 1.0 {
      calc {
        p;
      <=
        u * q;
      < { Shrink(q, u); }
        q;
      <=
        u * p;
      < { Shrink(p, u); }
        p;
      }
      assert false;
    }
  }

  lemma ProductAtMost(f: real, g: real, q: real, r: real, u: real, v: real)
    requires q > 0.0 && g > 0.0 && u >= 1.0 && f <= u * g && q <= v * r
    ensures Mul(f, q) <= Mul(Mul(u, v), Mul(g, r))
  {
    Positive(u, g);
    calc {
      f * q;
    <= { Grow(q, f, u * g); }
      (u * g) * q;
    <= { Raise(q, v * r, u * g); }
      (u * g) * (v * r);
    ==
      (u * v) * (g * r);
    }
  }

  lemma Square(a: real, b: real)
    requires 0.0 <= a < b
    ensures a * a < b * b
  {
    calc {
      a * a;
    <= { Raise(a, b, a); }
      a * b;
    < { RaiseStrictly(a, b, b); }
      b * b;
    }
  }

  lemma RootAtMost(p: real, q: real, w: real, u: real)
    requires p >= 0.0 && q >= 0.0 && w >= 0.0 && w * w == u && p * p <= u * (q * q)
    ensures p <= w * q
  {
    var b := w * q;
    assert b * b == (w * w) * (q * q);
    assert b >= 0.0;
    if p > b { Square(b, p); }
  }

  lemma WeightedAtMost(x: real, y: real, k: real, u: real)
    requires k > 0.0 && x <= u * y
    ensures k * x <= u * (k * y)
  {
    calc {
      k * x;
    <= { Raise(x, u * y, k); }
      k * (u * y);
    ==
      u * (k * y);
    }
  }

  lemma LesserAtMost(a: real, b: real, c: real, d: real, u: real)
    requires a <= u * c && b <= u * d
    ensures Lesser(a, b) <= u * Lesser(c, d)
  {
  }

  lemma SumAtMost(a: real, b: real, c: real, d: real, u: real)
    requires a <= u * c && b <= u * d
    ensures (a + b) / 2.0 <= u * ((c + d) / 2.0)
  {
    assert u * ((c + d) / 2.0) == (u * c + u * d) / 2.0;
  }

  /** Leg `a` anchors: it moved to `c` by at most `u`, and each pair agrees within `t`. */
  lemma AnchoredAtMost(a: real, b: real, c: real, d: real, u: real, t: real)
    requires u >= 0.0 && t > 0.0 && c <= u * a && d <= t * c && a <= t * b
    ensures Mid(c, d) <= Mul(Mul(u, t), Mid(a, b))
  {
    Raise(c, u * a, 1.0 + t);
    Raise(a, t * b, u);
    AnchoredIdentities(a, b, c, u, t);
  }

  lemma AnchoredIdentities(a: real, b: real, c: real, u: real, t: real)
    ensures (1.0 + t) * c == c + t * c
    ensures (1.0 + t) * (u * a) == u * a + t * (u * a)
    ensures (u * t) * ((a + b) / 2.0) == (t * (u * a) + u * (t * b)) / 2.0
  {
  }

  // ----- how composed prices compose the ratios of their parts

  predicate Paired(a: real, b: real, c: real, d: real, u: Reach, v: Reach) {
    a > 0.0 && b > 0.0 && c > 0.0 && d > 0.0 && Within(a, c, u) && Within(b, d, v)
  }

  lemma WithinBy(p: real, q: real, x: real, u: Reach)
    requires u.Bounded? && u.ratio == x && p <= Mul(x, q) && q <= Mul(x, p)
    ensures Within(p, q, u)
  {
  }

  lemma WithinWider(p: real, q: real, u: Reach, v: Reach)
    requires p > 0.0 && q > 0.0 && Within(p, q, u) && Le(u, v)
    ensures Within(p, q, v)
  {
    if v.Bounded? {
      Grow(p, u.ratio, v.ratio);
      Grow(q, u.ratio, v.ratio);
    }
  }

  lemma WithinSpan(p: real, q: real, low: real, high: real)
    requires low <= p <= high && low <= q <= high
    ensures Within(p, q, Span(low, high))
  {
    if low > 0.0 {
      var u := high / low;
      assert u * low == high;
      assert u > 0.0;
      Raise(low, p, u);
      Raise(low, q, u);
    }
  }

  lemma ProductScalars(a: real, b: real, c: real, d: real, u: real, v: real)
    requires a > 0.0 && b > 0.0 && c > 0.0 && d > 0.0
    requires a <= Mul(u, c) && c <= Mul(u, a) && b <= Mul(v, d) && d <= Mul(v, b)
    ensures Mul(a, b) <= Mul(Mul(u, v), Mul(c, d)) && Mul(c, d) <= Mul(Mul(u, v), Mul(a, b))
  {
    RatioAtLeastOne(a, c, u);
    ProductAtMost(a, c, b, d, u, v);
    ProductAtMost(c, a, d, b, u, v);
  }

  lemma WithinProduct(a: real, b: real, c: real, d: real, u: Reach, v: Reach)
    requires Paired(a, b, c, d, u, v)
    ensures Within(Mul(a, b), Mul(c, d), Times(u, v))
  {
    if u.Bounded? && v.Bounded? {
      ProductScalars(a, b, c, d, u.ratio, v.ratio);
      WithinBy(Mul(a, b), Mul(c, d), Mul(u.ratio, v.ratio), Times(u, v));
    }
  }

  lemma WithinWeighted(x: real, y: real, k: real, u: Reach)
    requires k > 0.0 && Within(x, y, u)
    ensures Within(Mul(k, x), Mul(k, y), u)
  {
    if u.Bounded? {
      WeightedAtMost(x, y, k, u.ratio);
      WeightedAtMost(y, x, k, u.ratio);
    }
  }

  lemma WithinRoot(root: real -> real, x: real, y: real, u: Reach)
    requires IsRoot(root) && x > 0.0 && y > 0.0 && Within(x, y, u)
    ensures Within(root(x), root(y), RootOf(root, u))
  {
    if u.Bounded? {
      RatioAtLeastOne(x, y, u.ratio);
      RootAtMost(root(x), root(y), root(u.ratio), u.ratio);
      RootAtMost(root(y), root(x), root(u.ratio), u.ratio);
      WithinBy(root(x), root(y), root(u.ratio), RootOf(root, u));
    }
  }

  lemma WithinRootProduct(root: real -> real, a: real, b: real, c: real, d: real, k: real, u: Reach, v: Reach)
    requires IsRoot(root) && Paired(a, b, c, d, u, v) && k > 0.0
    ensures Within(root(Mul(k, Mul(a, b))), root(Mul(k, Mul(c, d))), RootOf(root, Times(u, v)))
  {
    WithinProduct(a, b, c, d, u, v);
    Positive(a, b);
    Positive(c, d);
    WithinRootWeighted(root, Mul(a, b), Mul(c, d), k, Times(u, v));
  }

  lemma WithinRootWeighted(root: real -> real, x: real, y: real, k: real, u: Reach)
    requires IsRoot(root) && x > 0.0 && y > 0.0 && k > 0.0 && Within(x, y, u)
    ensures Within(root(Mul(k, x)), root(Mul(k, y)), RootOf(root, u))
  {
    WithinWeighted(x, y, k, u);
    Positive(k, x);
    Positive(k, y);
    WithinRoot(root, Mul(k, x), Mul(k, y), u);
  }

  lemma WithinLesser(a: real, b: real, c: real, d: real, k: real, u: Reach, v: Reach)
    requires Paired(a, b, c, d, u, v) && k > 0.0
    ensures Within(Mul(k, Lesser(a, b)), Mul(k, Lesser(c, d)), Wider(u, v))
  {
    if Le(u, v) { WithinWider(a, c, u, v); } else { WithinWider(b, d, v, u); }
    WithinLesserOf(a, b, c, d, k, Wider(u, v));
  }

  lemma WithinLesserOf(a: real, b: real, c: real, d: real, k: real, w: Reach)
    requires Within(a, c, w) && Within(b, d, w) && k > 0.0
    ensures Within(Mul(k, Lesser(a, b)), Mul(k, Lesser(c, d)), w)
  {
    if w.Bounded? { LesserScalars(a, b, c, d, k, w.ratio); }
  }

  lemma LesserScalars(a: real, b: real, c: real, d: real, k: real, u: real)
    requires k > 0.0 && a <= u * c && c <= u * a && b <= u * d && d <= u * b
    ensures Mul(k, Lesser(a, b)) <= Mul(u, Mul(k, Lesser(c, d))) && Mul(k, Lesser(c, d)) <= Mul(u, Mul(k, Lesser(a, b)))
  {
    LesserAtMost(a, b, c, d, u);
    LesserAtMost(c, d, a, b, u);
    WeightedAtMost(Lesser(a, b), Lesser(c, d), k, u);
    WeightedAtMost(Lesser(c, d), Lesser(a, b), k, u);
  }

  lemma WithinSum(a: real, b: real, c: real, d: real, u: Reach)
    requires Within(a, c, u) && Within(b, d, u)
    ensures Within(Mid(a, b), Mid(c, d), u)
  {
    if u.Bounded? {
      SumAtMost(a, b, c, d, u.ratio);
      SumAtMost(c, d, a, b, u.ratio);
    }
  }

  /** One leg fixed: the other stays within the tolerance of it. */
  lemma FixedLegScalars(a: real, b: real, c: real, t: real)
    requires a <= t * b && b <= t * a && a <= t * c && c <= t * a
    ensures Mid(a, b) <= Mul(t, Mid(a, c)) && Mid(a, c) <= Mul(t, Mid(a, b))
  {
    SumAtMost(a, b, c, a, t);
    SumAtMost(a, c, b, a, t);
  }

  /** Both legs may move: the less movable one anchors the pair. */
  lemma AnchoredScalars(a: real, b: real, c: real, d: real, u: real, t: real)
    requires a > 0.0 && c > 0.0 && t > 0.0 && a <= Mul(u, c) && c <= Mul(u, a)
    requires a <= Mul(t, b) && b <= Mul(t, a) && c <= Mul(t, d) && d <= Mul(t, c)
    ensures Mid(a, b) <= Mul(Mul(u, t), Mid(c, d)) && Mid(c, d) <= Mul(Mul(u, t), Mid(a, b))
  {
    RatioAtLeastOne(a, c, u);
    AnchoredAtMost(a, b, c, d, u, t);
    AnchoredAtMost(c, d, a, b, u, t);
  }

  lemma WithinAnchored(a: real, b: real, c: real, d: real, u: Reach, t: Reach)
    requires a > 0.0 && c > 0.0 && t.Bounded? && t.ratio > 0.0
    requires Within(a, c, u) && Within(a, b, t) && Within(c, d, t)
    ensures Within(Mid(a, b), Mid(c, d), Times(u, t))
  {
    if u.Bounded? {
      AnchoredScalars(a, b, c, d, u.ratio, t.ratio);
      WithinBy(Mid(a, b), Mid(c, d), Mul(u.ratio, t.ratio), Times(u, t));
    }
  }

  lemma WithinFixedLeg(a: real, b: real, c: real, t: Reach)
    requires Within(a, b, t) && Within(a, c, t)
    ensures Within(Mid(a, b), Mid(a, c), t)
  {
    if t.Bounded? { FixedLegScalars(a, b, c, t.ratio); }
  }

  lemma ReachAtLeastOne(p: real, q: real, u: Reach)
    requires p > 0.0 && q > 0.0 && u.Bounded? && Within(p, q, u)
    ensures u.ratio >= 1.0
  {
    RatioAtLeastOne(p, q, u.ratio);
  }

  lemma WithinCollapse(p: real, q: real, u: Reach)
    requires p > 0.0 && q > 0.0 && Within(p, q, u) && u.AtMostOne()
    ensures p == q
  {
    RatioAtLeastOne(p, q, u.ratio);
  }

  lemma WithinWidest(a: real, b: real, c: real, d: real, u: Reach, v: Reach)
    requires Paired(a, b, c, d, u, v)
    ensures Within(Mid(a, b), Mid(c, d), Wider(u, v))
  {
    if Le(u, v) { WithinWider(a, c, u, v); } else { WithinWider(b, d, v, u); }
    WithinSum(a, b, c, d, Wider(u, v));
  }

  lemma WithinTighter(p: real, q: real, u: Reach, v: Reach)
    requires Within(p, q, u) && Within(p, q, v)
    ensures Within(p, q, Tighter(u, v))
  {
  }

  lemma WithinAnchor(a: real, b: real, c: real, d: real, u: Reach, v: Reach, t: Reach)
    requires Paired(a, b, c, d, u, v)
    requires t.Bounded? && t.ratio > 0.0 && Within(a, b, t) && Within(c, d, t)
    ensures Within(Mid(a, b), Mid(c, d), Times(Tighter(u, v), t))
  {
    if Le(u, v) {
      WithinAnchored(a, b, c, d, u, t);
    } else {
      WithinAnchored(b, a, d, c, v, t);
    }
  }

  lemma WithinMidpoint(a: real, b: real, c: real, d: real, u: Reach, v: Reach, t: Reach)
    requires Paired(a, b, c, d, u, v)
    requires t.Bounded? && t.ratio > 0.0 && Within(a, b, t) && Within(c, d, t)
    ensures Within(Mid(a, b), Mid(c, d), MidpointReach(u, v, t))
  {
    var p, q := Mid(a, b), Mid(c, d);
    WithinWidest(a, b, c, d, u, v);
    if u.AtMostOne() {
      WithinCollapse(a, c, u);
      if v.AtMostOne() { WithinCollapse(b, d, v); }
      WithinFixedLeg(a, b, d, t);
      WithinTighter(p, q, v, t);
    } else if v.AtMostOne() {
      WithinCollapse(b, d, v);
      WithinFixedLeg(b, a, c, t);
      WithinTighter(p, q, u, t);
    } else {
      WithinAnchor(a, b, c, d, u, v, t);
      WithinTighter(p, q, Wider(u, v), Times(Tighter(u, v), t));
    }
  }

  lemma RootOfOne(root: real -> real)
    requires IsRoot(root)
    ensures root(1.0) == 1.0
  {
    var x := root(1.0);
    assert x * x == 1.0;
    if x < 1.0 { Square(x, 1.0); } else if x > 1.0 { Square(1.0, x); }
  }
}
