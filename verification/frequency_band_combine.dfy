/** The band combiner: merges three band tensors into one, element by element,
    either as a weighted average (method "weighted_blend") or as a plain sum
    (any other method name). Every operation is element-wise, so a tensor of any
    shape is modelled by the sequence of its elements.
 */
module FrequencyBandCombine {

  type Tensor = seq<real>

  /** The one method name that selects the weighted average. */
  const WeightedBlend: string := "weighted_blend"

  /** A tensor multiplied element-wise by a scalar. */
  function Scale(a: Tensor, c: real): (r: Tensor)
    ensures |r| == |a|
    ensures forall i | 0 <= i < |r| :: r[i] == a[i] * c
  {
    seq(|a|, i requires 0 <= i < |a| => a[i] * c)
  }

  /** Merges the three bands. A "weighted_blend" with a positive weight total
      is the weighted average; with a total of zero or less it silently falls
      back to the unweighted mean; every other method sums the bands and
      ignores the weights. */
  function CombineFrequency(low: Tensor, mid: Tensor, high: Tensor, methodName: string,
                            lowWeight: real, midWeight: real, highWeight: real): (r: Tensor)
    requires |low| == |mid| == |high|
    ensures |r| == |low|
    ensures methodName == WeightedBlend && lowWeight + midWeight + highWeight > 0.0 ==>
              forall i | 0 <= i < |r| ::
                r[i] == (low[i] * lowWeight + mid[i] * midWeight + high[i] * highWeight)
                        / (lowWeight + midWeight + highWeight)
    ensures methodName == WeightedBlend && lowWeight + midWeight + highWeight <= 0.0 ==>
              forall i | 0 <= i < |r| :: r[i] == (low[i] + mid[i] + high[i]) / 3.0
    ensures methodName != WeightedBlend ==>
              forall i | 0 <= i < |r| :: r[i] == low[i] + mid[i] + high[i]
  {
    seq(|low|, i requires 0 <= i < |low| =>
      CombineElement(low[i], mid[i], high[i], methodName, lowWeight, midWeight, highWeight))
  }

  /** One element of the combined tensor. A blend with a positive total,
      multiplied back by the total, gives the weighted sum; the fallback,
      tripled, gives the plain sum; any other method is the plain sum. */
  function CombineElement(l: real, m: real, h: real, methodName: string,
                          lowWeight: real, midWeight: real, highWeight: real): (r: real)
    ensures methodName == WeightedBlend && lowWeight + midWeight + highWeight > 0.0 ==>
              r * (lowWeight + midWeight + highWeight) == l * lowWeight + m * midWeight + h * highWeight
    ensures methodName == WeightedBlend && lowWeight + midWeight + highWeight <= 0.0 ==> 3.0 * r == l + m + h
    ensures methodName != WeightedBlend ==> r == l + m + h
  {
    if methodName == WeightedBlend then
      var totalWeight := lowWeight + midWeight + highWeight;
      if totalWeight > 0.0 then
        var weighted := l * lowWeight + m * midWeight + h * highWeight;
        assert weighted / totalWeight * totalWeight == weighted;
        weighted / totalWeight
      else (l + m + h) / 3.0
    else
      l + m + h
  }

  /** The least and greatest of three reals. */
  function Min3(a: real, b: real, c: real): real {
    if a <= b && a <= c then a else if b <= c then b else c
  }

  function Max3(a: real, b: real, c: real): real {
    if a >= b && a >= c then a else if b >= c then b else c
  }

  /** Multiplying by a non-negative factor preserves order. */
  lemma MulMonotone(a: real, b: real, c: real)
    requires a <= b && 0.0 <= c
    ensures a * c <= b * c
  {
  }

  /** A quotient by a positive divisor inherits bounds from its dividend. */
  lemma DivBounds(s: real, t: real, lo: real, hi: real)
    requires 0.0 < t
    requires lo * t <= s <= hi * t
    ensures lo <= s / t <= hi
  {
    assert s / t * t == s;
  }

  /** With no negative weight, the weighted sum lies between the least and
      the greatest input times the weight total. */
  lemma WeightedSumBounds(l: real, m: real, h: real, lw: real, mw: real, hw: real)
    requires 0.0 <= lw && 0.0 <= mw && 0.0 <= hw
    ensures Min3(l, m, h) * (lw + mw + hw) <= l * lw + m * mw + h * hw <= Max3(l, m, h) * (lw + mw + hw)
  {
    var lo, hi := Min3(l, m, h), Max3(l, m, h);
    MulMonotone(lo, l, lw);
    MulMonotone(lo, m, mw);
    MulMonotone(lo, h, hw);
    MulMonotone(l, hi, lw);
    MulMonotone(m, hi, mw);
    MulMonotone(h, hi, hw);
    assert lo * (lw + mw + hw) == lo * lw + lo * mw + lo * hw;
    assert hi * (lw + mw + hw) == hi * lw + hi * mw + hi * hw;
  }

  /** A weighted average `v` with positive total lies between the least and
      the greatest of its inputs when no weight is negative. */
  lemma WeightedAverageBounded(l: real, m: real, h: real, lw: real, mw: real, hw: real, v: real)
    requires 0.0 <= lw && 0.0 <= mw && 0.0 <= hw
    requires 0.0 < lw + mw + hw
    requires v == (l * lw + m * mw + h * hw) / (lw + mw + hw)
    ensures Min3(l, m, h) <= v <= Max3(l, m, h)
  {
    WeightedSumBounds(l, m, h, lw, mw, hw);
    DivBounds(l * lw + m * mw + h * hw, lw + mw + hw, Min3(l, m, h), Max3(l, m, h));
  }

  /** With weights in the host's range (none negative), every blended element
      lies between the least and the greatest of the three band elements,
      whichever branch the weight total selects. */
  lemma BlendWithinBandRange(low: Tensor, mid: Tensor, high: Tensor,
                             lowWeight: real, midWeight: real, highWeight: real)
    requires |low| == |mid| == |high|
    requires 0.0 <= lowWeight && 0.0 <= midWeight && 0.0 <= highWeight
    ensures var r := CombineFrequency(low, mid, high, WeightedBlend, lowWeight, midWeight, highWeight);
            forall i | 0 <= i < |r| :: Min3(low[i], mid[i], high[i]) <= r[i] <= Max3(low[i], mid[i], high[i])
  {
    var r := CombineFrequency(low, mid, high, WeightedBlend, lowWeight, midWeight, highWeight);
    forall i | 0 <= i < |r|
      ensures Min3(low[i], mid[i], high[i]) <= r[i] <= Max3(low[i], mid[i], high[i])
    {
      if lowWeight + midWeight + highWeight > 0.0 {
        WeightedAverageBounded(low[i], mid[i], high[i], lowWeight, midWeight, highWeight, r[i]);
      } else {
        WeightedAverageBounded(low[i], mid[i], high[i], 1.0, 1.0, 1.0, r[i]);
      }
    }
  }

  /** Blending three copies of one tensor gives that tensor back, for every
      choice of weights, the fallback included. */
  lemma BlendIdempotent(x: Tensor, lowWeight: real, midWeight: real, highWeight: real)
    ensures CombineFrequency(x, x, x, WeightedBlend, lowWeight, midWeight, highWeight) == x
  {
    var r := CombineFrequency(x, x, x, WeightedBlend, lowWeight, midWeight, highWeight);
    var t := lowWeight + midWeight + highWeight;
    forall i | 0 <= i < |x|
      ensures r[i] == x[i]
    {
      if t > 0.0 {
        assert x[i] * lowWeight + x[i] * midWeight + x[i] * highWeight == x[i] * t;
      }
    }
  }

  /** Only the ratios of the weights matter: scaling all three by the same
      positive factor leaves the blend unchanged. */
  lemma BlendScaleInvariant(low: Tensor, mid: Tensor, high: Tensor,
                            lowWeight: real, midWeight: real, highWeight: real, c: real)
    requires |low| == |mid| == |high|
    requires 0.0 < c
    ensures CombineFrequency(low, mid, high, WeightedBlend, c * lowWeight, c * midWeight, c * highWeight)
         == CombineFrequency(low, mid, high, WeightedBlend, lowWeight, midWeight, highWeight)
  {
    var t := lowWeight + midWeight + highWeight;
    assert c * lowWeight + c * midWeight + c * highWeight == c * t;
    MulPositiveIff(c, t);
    if t > 0.0 {
      BlendScaleInvariantElements(low, mid, high, lowWeight, midWeight, highWeight, c);
    }
  }

  /** The element-wise step of BlendScaleInvariant for a positive total. */
  lemma BlendScaleInvariantElements(low: Tensor, mid: Tensor, high: Tensor,
                                    lowWeight: real, midWeight: real, highWeight: real, c: real)
    requires |low| == |mid| == |high|
    requires 0.0 < c
    requires 0.0 < lowWeight + midWeight + highWeight
    requires 0.0 < c * lowWeight + c * midWeight + c * highWeight
    ensures CombineFrequency(low, mid, high, WeightedBlend, c * lowWeight, c * midWeight, c * highWeight)
         == CombineFrequency(low, mid, high, WeightedBlend, lowWeight, midWeight, highWeight)
  {
    var r := CombineFrequency(low, mid, high, WeightedBlend, c * lowWeight, c * midWeight, c * highWeight);
    var q := CombineFrequency(low, mid, high, WeightedBlend, lowWeight, midWeight, highWeight);
    forall i | 0 <= i < |low|
      ensures r[i] == q[i]
    {
      ScaledWeightsAverage(low[i], mid[i], high[i], lowWeight, midWeight, highWeight, c);
    }
    assert r == q;
  }

  /** A positive factor keeps the sign of a product. */
  lemma MulPositiveIff(c: real, t: real)
    requires 0.0 < c
    ensures c * t > 0.0 <==> t > 0.0
  {
    if t <= 0.0 {
      MulMonotone(t, 0.0, c);
    }
  }

  /** Scaling every weight by `c` scales both the weighted sum and the total
      by `c`, which cancels in the quotient. */
  lemma ScaledWeightsAverage(l: real, m: real, h: real, lw: real, mw: real, hw: real, c: real)
    requires 0.0 < c
    requires 0.0 < lw + mw + hw
    ensures (l * (c * lw) + m * (c * mw) + h * (c * hw)) / (c * lw + c * mw + c * hw)
         == (l * lw + m * mw + h * hw) / (lw + mw + hw)
  {
    var s, t := l * lw + m * mw + h * hw, lw + mw + hw;
    assert l * (c * lw) + m * (c * mw) + h * (c * hw) == c * s;
    assert c * lw + c * mw + c * hw == c * t;
    assert (c * s) / (c * t) == s / t;
  }

  /** The fallback is the equal-weight blend: any positive equal weights give
      the same result as a non-positive weight total. */
  lemma FallbackIsEqualWeightBlend(low: Tensor, mid: Tensor, high: Tensor,
                                   c: real, lowWeight: real, midWeight: real, highWeight: real)
    requires |low| == |mid| == |high|
    requires 0.0 < c
    requires lowWeight + midWeight + highWeight <= 0.0
    ensures CombineFrequency(low, mid, high, WeightedBlend, c, c, c)
         == CombineFrequency(low, mid, high, WeightedBlend, lowWeight, midWeight, highWeight)
  {
    var r := CombineFrequency(low, mid, high, WeightedBlend, c, c, c);
    var q := CombineFrequency(low, mid, high, WeightedBlend, lowWeight, midWeight, highWeight);
    forall i | 0 <= i < |low|
      ensures r[i] == q[i]
    {
      EqualWeightsAverage(low[i], mid[i], high[i], c);
    }
    assert r == q;
  }

  /** Equal positive weights average to the plain mean. */
  lemma EqualWeightsAverage(l: real, m: real, h: real, c: real)
    requires 0.0 < c
    ensures (l * c + m * c + h * c) / (c + c + c) == (l + m + h) / 3.0
  {
    assert l * c + m * c + h * c == (l + m + h) * c;
    assert c + c + c == 3.0 * c;
    assert ((l + m + h) * c) / (3.0 * c) == (l + m + h) / 3.0;
  }

  /** Any method other than "weighted_blend" ignores the weights, and its sum
      is three times the fallback mean. */
  lemma SumIgnoresWeights(low: Tensor, mid: Tensor, high: Tensor, methodName: string,
                          lw1: real, mw1: real, hw1: real, lw2: real, mw2: real, hw2: real)
    requires |low| == |mid| == |high|
    requires methodName != WeightedBlend
    ensures CombineFrequency(low, mid, high, methodName, lw1, mw1, hw1)
         == CombineFrequency(low, mid, high, methodName, lw2, mw2, hw2)
    ensures CombineFrequency(low, mid, high, methodName, lw1, mw1, hw1)
         == Scale(CombineFrequency(low, mid, high, WeightedBlend, 0.0, 0.0, 0.0), 3.0)
  {
    var r := CombineFrequency(low, mid, high, methodName, lw1, mw1, hw1);
    var m := Scale(CombineFrequency(low, mid, high, WeightedBlend, 0.0, 0.0, 0.0), 3.0);
    forall i | 0 <= i < |low|
      ensures r[i] == m[i]
    {
    }
  }
}
