/** Ratios between prices that were rounded on the way: a reach stretched by a pad for the roundings,
    except that a price which cannot move does not move by a rounding either. */
module PaddedRatios {
  import opened Ratios

  function Stretch(u: Reach, pad: real): Reach {
    if u.Bounded? then Bounded(Mul(pad, u.ratio)) else Unbounded
  }

  /** Within `u` stretched by `pad`, and equal where `u` admits no movement. */
  predicate Near(p: real, q: real, u: Reach, pad: real) {
    && p > 0.0 && q > 0.0 && pad >= 1.0
    && (u.Bounded? ==> u.ratio >= 1.0)
    && (u.AtMostOne() ==> p == q)
    && Within(p, q, Stretch(u, pad))
  }

  lemma MulOne(x: real)
    ensures Mul(1.0, x) == x && Mul(x, 1.0) == x
  {
  }

  lemma MulAtLeastOne(x: real, y: real)
    requires x >= 1.0 && y >= 1.0
    ensures Mul(x, y) >= x && Mul(x, y) >= y
  {
    Grow(y, 1.0, x);
    Grow(x, 1.0, y);
  }

  lemma MulLe(x: real, y: real, z: real)
    requires x <= y && z >= 0.0
    ensures Mul(x, z) <= Mul(y, z) && Mul(z, x) <= Mul(z, y)
  {
    Grow(z, x, y);
  }

  lemma MulLaws(x: real, y: real, z: real)
    ensures Mul(x, y) == Mul(y, x) && Mul(x, Mul(y, z)) == Mul(Mul(x, y), z)
  {
  }

  lemma NearExact(p: real, q: real, u: Reach)
    requires p > 0.0 && q > 0.0 && Within(p, q, u)
    ensures Near(p, q, u, 1.0)
  {
    if u.Bounded? {
      RatioAtLeastOne(p, q, u.ratio);
      MulOne(u.ratio);
    }
  }

  lemma StretchMore(p: real, q: real, u: Reach, pad: real, pad': real)
    requires Near(p, q, u, pad) && pad <= pad'
    ensures Near(p, q, u, pad')
  {
    if u.Bounded? {
      MulLe(pad, pad', u.ratio);
      WithinWider(p, q, Stretch(u, pad), Stretch(u, pad'));
    }
  }

  lemma NearWider(p: real, q: real, u: Reach, v: Reach, pad: real)
    requires Near(p, q, u, pad) && Le(u, v)
    ensures Near(p, q, v, pad)
  {
    if v.Bounded? {
      MulLe(u.ratio, v.ratio, pad);
      WithinWider(p, q, Stretch(u, pad), Stretch(v, pad));
    }
  }

  // ----- one rounding

  lemma ThroughScalars(p: real, x: real, y: real, q: real, l: real, u: real)
    requires l >= 1.0 && u >= 1.0 && p <= Mul(l, x) && x <= Mul(u, y) && y <= Mul(l, q)
    ensures p <= Mul(Mul(Mul(l, l), u), q)
  {
    MulLe(x, Mul(u, y), l);
    MulLe(y, Mul(l, q), Mul(l, u)) by { MulAtLeastOne(l, u); }
    MulLaws(l, u, y);
    MulLaws(Mul(l, u), l, q);
    MulLaws(l, u, l);
    MulLaws(u, l, l);
    MulLaws(l, l, u);
  }

  /** Both prices are rounded by at most the ratio `l`. */
  lemma Rounded(p: real, q: real, x: real, y: real, u: Reach, pad: real, l: real)
    requires Near(x, y, u, pad) && l >= 1.0 && p > 0.0 && q > 0.0
    requires Within(p, x, Bounded(l)) && Within(q, y, Bounded(l)) && (x == y ==> p == q)
    ensures Near(p, q, u, Mul(Mul(l, l), pad))
  {
    MulAtLeastOne(l, l);
    MulAtLeastOne(Mul(l, l), pad);
    if u.Bounded? {
      var s := Mul(pad, u.ratio);
      MulAtLeastOne(pad, u.ratio);
      ThroughScalars(p, x, y, q, l, s);
      ThroughScalars(q, y, x, p, l, s);
      MulLaws(Mul(l, l), pad, u.ratio);
    }
  }

  // ----- compositions

  lemma StretchTimes(u: Reach, v: Reach, pad: real, pad': real)
    ensures Times(Stretch(u, pad), Stretch(v, pad')) == Stretch(Times(u, v), Mul(pad, pad'))
  {
    if u.Bounded? && v.Bounded? { FourFactors(pad, u.ratio, pad', v.ratio); }
  }

  lemma FourFactors(a: real, b: real, c: real, d: real)
    ensures Mul(Mul(a, b), Mul(c, d)) == Mul(Mul(a, c), Mul(b, d))
  {
  }

  lemma NearProduct(a: real, b: real, c: real, d: real, u: Reach, v: Reach, pad: real, pad': real)
    requires Near(a, c, u, pad) && Near(b, d, v, pad')
    ensures Near(Mul(a, b), Mul(c, d), Times(u, v), Mul(pad, pad'))
  {
    Positive(a, b);
    Positive(c, d);
    MulAtLeastOne(pad, pad');
    WithinProduct(a, b, c, d, Stretch(u, pad), Stretch(v, pad'));
    StretchTimes(u, v, pad, pad');
    if u.Bounded? && v.Bounded? { MulAtLeastOne(u.ratio, v.ratio); }
  }

  lemma NearWeighted(x: real, y: real, k: real, u: Reach, pad: real)
    requires Near(x, y, u, pad) && k > 0.0
    ensures Near(Mul(k, x), Mul(k, y), u, pad)
  {
    Positive(k, x);
    Positive(k, y);
    WithinWeighted(x, y, k, Stretch(u, pad));
  }

  lemma RootOverOne(root: real -> real, x: real)
    requires IsRoot(root) && x >= 1.0
    ensures 1.0 <= root(x) <= x && (root(x) == 1.0 ==> x == 1.0)
  {
    var r := root(x);
    if r < 1.0 { Square(r, 1.0); }
    if r > x { MulLe(1.0, r, r); }
  }

  lemma RootOfProduct(root: real -> real, pad: real, u: real)
    requires IsRoot(root) && pad >= 1.0 && u >= 1.0
    ensures root(Mul(pad, u)) <= Mul(pad, root(u))
  {
    RootOverOne(root, u);
    MulAtLeastOne(pad, u);
    RootOverOne(root, Mul(pad, u));
    var p, r := root(Mul(pad, u)), root(u);
    FourFactors(pad, r, pad, r);
    MulAtLeastOne(pad, pad);
    MulLe(pad, Mul(pad, pad), u);
    if p > Mul(pad, r) { Square(Mul(pad, r), p) by { MulAtLeastOne(pad, r); } }
  }

  lemma NearRoot(root: real -> real, x: real, y: real, u: Reach, pad: real)
    requires IsRoot(root) && Near(x, y, u, pad)
    ensures Near(root(x), root(y), RootOf(root, u), pad)
  {
    RootPositive(root, x);
    RootPositive(root, y);
    WithinRoot(root, x, y, Stretch(u, pad));
    if u.Bounded? {
      RootOverOne(root, u.ratio);
      RootOfProduct(root, pad, u.ratio);
      WithinWider(root(x), root(y), RootOf(root, Stretch(u, pad)), Stretch(RootOf(root, u), pad));
    }
  }

  lemma RootPositive(root: real -> real, x: real)
    requires IsRoot(root) && x > 0.0
    ensures root(x) > 0.0
  {
    assert root(x) * root(x) == x;
  }

  lemma NearLesser(a: real, b: real, c: real, d: real, k: real, u: Reach, v: Reach, pad: real, pad': real)
    requires Near(a, c, u, pad) && Near(b, d, v, pad') && k > 0.0
    ensures Near(Mul(k, Lesser(a, b)), Mul(k, Lesser(c, d)), Wider(u, v), Mul(pad, pad'))
  {
    var all := Mul(pad, pad');
    MulAtLeastOne(pad, pad');
    StretchMore(a, c, u, pad, all);
    StretchMore(b, d, v, pad', all);
    if Le(u, v) { NearWider(a, c, u, v, all); } else { NearWider(b, d, v, u, all); }
    WithinLesserOf(a, b, c, d, k, Stretch(Wider(u, v), all));
    Positive(k, Lesser(a, b));
    Positive(k, Lesser(c, d));
  }

  /** What moves is stretched, what does not stays at one. */
  function Moved(u: Reach, pad: real): Reach {
    if u.AtMostOne() then Bounded(1.0) else Stretch(u, pad)
  }

  lemma MovedWithin(p: real, q: real, u: Reach, pad: real)
    requires Near(p, q, u, pad)
    ensures Within(p, q, Moved(u, pad)) && (Moved(u, pad).AtMostOne() <==> u.AtMostOne())
  {
    if u.Bounded? {
      MulAtLeastOne(pad, u.ratio);
      MulOne(p);
      MulOne(q);
    }
  }

  lemma TighterStretch(u: Reach, v: Reach, pad: real)
    requires pad >= 1.0 && (u.Bounded? ==> u.ratio >= 1.0) && (v.Bounded? ==> v.ratio >= 1.0)
    ensures Tighter(Stretch(u, pad), Stretch(v, pad)) == Stretch(Tighter(u, v), pad)
    ensures Wider(Stretch(u, pad), Stretch(v, pad)) == Stretch(Wider(u, v), pad)
    ensures Le(u, Stretch(u, pad))
  {
    if u.Bounded? {
      MulAtLeastOne(pad, u.ratio);
      if v.Bounded? {
        if u.ratio <= v.ratio { MulLe(u.ratio, v.ratio, pad); } else { MulLe(v.ratio, u.ratio, pad); }
      }
    }
  }

  lemma MidpointOverOne(u: Reach, v: Reach, t: Reach)
    requires t.Bounded? && t.ratio > 1.0 && (u.Bounded? ==> u.ratio >= 1.0) && (v.Bounded? ==> v.ratio >= 1.0)
    ensures MidpointReach(u, v, t).Bounded? ==> MidpointReach(u, v, t).ratio >= 1.0
    ensures MidpointReach(u, v, t).AtMostOne() ==> u.AtMostOne() && v.AtMostOne()
  {
    if Tighter(u, v).Bounded? { MulAtLeastOne(Tighter(u, v).ratio, t.ratio); }
  }

  lemma TighterLe(u: Reach, v: Reach, w: Reach)
    requires Le(v, w)
    ensures Le(Tighter(u, v), Tighter(u, w)) && Le(Tighter(v, u), Tighter(w, u))
  {
  }

  /** The pad passes through the two-source rule. */
  lemma MidpointStretch(u: Reach, v: Reach, t: Reach, pad: real)
    requires pad >= 1.0 && t.Bounded? && t.ratio > 1.0 && (u.Bounded? ==> u.ratio >= 1.0) && (v.Bounded? ==> v.ratio >= 1.0)
    requires Moved(u, pad).AtMostOne() <==> u.AtMostOne()
    requires Moved(v, pad).AtMostOne() <==> v.AtMostOne()
    ensures Le(MidpointReach(Moved(u, pad), Moved(v, pad), t), Stretch(MidpointReach(u, v, t), pad))
  {
    TighterStretch(t, t, pad);
    if u.AtMostOne() && v.AtMostOne() {
      MulOne(pad);
    } else if v.AtMostOne() {
      TighterStretch(u, t, pad);
      TighterLe(Stretch(u, pad), t, Stretch(t, pad));
    } else if u.AtMostOne() {
      TighterStretch(v, t, pad);
      TighterLe(Stretch(v, pad), t, Stretch(t, pad));
    } else {
      TighterStretch(u, v, pad);
      StretchTimes(Tighter(u, v), t, pad, 1.0);
      MulOne(t.ratio);
      MulOne(pad);
      if Tighter(u, v).Bounded? { MulAtLeastOne(Tighter(u, v).ratio, t.ratio); }
      TighterStretch(Wider(u, v), Times(Tighter(u, v), t), pad);
    }
  }

  lemma NearMid(a: real, b: real, c: real, d: real, u: Reach, v: Reach, t: Reach, pad: real, pad': real)
    requires Near(a, c, u, pad) && Near(b, d, v, pad')
    requires t.Bounded? && t.ratio > 1.0 && Within(a, b, t) && Within(c, d, t)
    ensures Near(Mid(a, b), Mid(c, d), MidpointReach(u, v, t), Mul(pad, pad'))
  {
    var all := Mul(pad, pad');
    MulAtLeastOne(pad, pad');
    StretchMore(a, c, u, pad, all);
    StretchMore(b, d, v, pad', all);
    MovedWithin(a, c, u, all);
    MovedWithin(b, d, v, all);
    WithinMidpoint(a, b, c, d, Moved(u, all), Moved(v, all), t);
    MidpointStretch(u, v, t, all);
    MidpointOverOne(u, v, t);
    WithinWider(Mid(a, b), Mid(c, d), MidpointReach(Moved(u, all), Moved(v, all), t), Stretch(MidpointReach(u, v, t), all));
  }

  /** Accepted prices also lie within the span of the sanity bounds. */
  lemma NearClipped(p: real, q: real, u: Reach, span: Reach, pad: real)
    requires Near(p, q, u, pad) && Within(p, q, span)
    ensures Near(p, q, if u.AtMostOne() then Bounded(1.0) else Tighter(u, span), pad)
  {
    if u.AtMostOne() {
      MulOne(pad);
      MulLe(1.0, pad, p);
      MulOne(p);
    } else {
      if span.Bounded? { RatioAtLeastOne(p, q, span.ratio); }
      TighterStretch(u, span, pad);
      TighterStretch(span, span, pad);
      WithinTighter(p, q, Stretch(u, pad), span);
      TighterLe(Stretch(u, pad), span, Stretch(span, pad));
      WithinWider(p, q, Tighter(Stretch(u, pad), span), Stretch(Tighter(u, span), pad));
    }
  }

  // ----- the pad of several roundings

  /** `l` twice, once for each price, for each rounding. */
  function Pad(l: real, k: nat): real {
    if k == 0 then 1.0 else Mul(Mul(l, l), Pad(l, k - 1))
  }

  lemma {:induction false} PadAtLeastOne(l: real, k: nat)
    requires l >= 1.0
    ensures Pad(l, k) >= 1.0
  {
    if k > 0 {
      PadAtLeastOne(l, k - 1);
      MulAtLeastOne(l, l);
      MulAtLeastOne(Mul(l, l), Pad(l, k - 1));
    }
  }

  lemma {:induction false} PadAdds(l: real, j: nat, k: nat)
    ensures Mul(Pad(l, j), Pad(l, k)) == Pad(l, j + k)
    decreases j
  {
    if j == 0 {
      MulOne(Pad(l, k));
    } else {
      PadAdds(l, j - 1, k);
      MulLaws(Mul(l, l), Pad(l, j - 1), Pad(l, k));
    }
  }

  /** The ratio by which rounding to a whole unit moves a price of at least `least` units. */
  function Unit(least: nat): real
    requires least >= 1
  {
    1.0 + 1.0 / least as real
  }

  lemma WholeUnit(p: int, x: real, least: nat)
    requires 1 <= least <= p && x < p as real + 1.0 && p as real <= x + 0.5
    ensures Unit(least) >= 1.0 && x > 0.0 && Within(p as real, x, Bounded(Unit(least)))
  {
    var l := least as real;
    var e := 1.0 / l;
    assert e * l == 1.0 && e > 0.0;
    Raise(l, p as real, e);
    Raise(l / 2.0, x, e);
    UnitScalars(p as real, x, e, Unit(least));
  }

  lemma UnitScalars(p: real, x: real, e: real, u: real)
    requires u == 1.0 + e && e * p >= 1.0 && e * x >= 0.5 && x <= p + 1.0 && p <= x + 0.5
    ensures p <= Mul(u, x) && x <= Mul(u, p)
  {
    assert u * x == x + e * x && u * p == p + e * p;
  }
}
