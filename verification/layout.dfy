// How a row or column shares its main axis among its children, in exact arithmetic.
module Layout {

  datatype LengthKind = AutoSize | FixedSize | Stretch
  datatype Limit = Unbounded | Upto(value: real)
  datatype LayoutLength = LayoutLength(kind: LengthKind, value: real, minimum: real, maximum: Limit, weight: real)

  // A child and its measured size along the main axis.
  datatype Child = Child(length: LayoutLength, measured: real)

  const EPSILON := 0.0001

  function Max(a: real, b: real): real { if a < b then b else a }
  function Min(a: real, b: real): real { if b < a then b else a }

  // The bounds that really apply: a negative minimum counts as zero, a maximum below the minimum as the minimum.
  function Least(l: LayoutLength): real { Max(0.0, l.minimum) }
  predicate WithinMost(l: LayoutLength, x: real) { l.maximum.Unbounded? || x <= Max(Least(l), l.maximum.value) }

  function ClampFinite(value: real, l: LayoutLength): (r: real)
    ensures Least(l) <= r && WithinMost(l, r)
    ensures Least(l) <= value && WithinMost(l, value) ==> r == value
  {
    var above := Max(value, Least(l));
    if l.maximum.Unbounded? then above else Min(above, Max(Least(l), l.maximum.value))
  }

  function Weight(l: LayoutLength): real { Max(0.0, l.weight) }

  function Wanted(c: Child): real {
    match c.length.kind
    case FixedSize => c.length.value
    case Stretch => c.length.minimum
    case AutoSize => c.measured
  }

  function Initial(c: Child): real { ClampFinite(Wanted(c), c.length) }

  // ---- sums ----

  function Sum(xs: seq<real>): real {
    if xs == [] then 0.0 else Sum(xs[..|xs| - 1]) + xs[|xs| - 1]
  }

  function Plus(xs: seq<real>, ys: seq<real>): (r: seq<real>)
    requires |xs| == |ys|
    ensures |r| == |xs| && forall i :: 0 <= i < |r| ==> r[i] == xs[i] + ys[i]
  {
    seq(|xs|, i requires 0 <= i < |xs| => xs[i] + ys[i])
  }

  lemma SumNext(xs: seq<real>, i: nat)
    requires i < |xs|
    ensures Sum(xs[..i + 1]) == Sum(xs[..i]) + xs[i]
  {
    assert xs[..i + 1][..i] == xs[..i];
  }

  lemma {:induction false} SumPlus(xs: seq<real>, ys: seq<real>)
    requires |xs| == |ys|
    ensures Sum(Plus(xs, ys)) == Sum(xs) + Sum(ys)
  {
    if xs == [] {
    } else {
      var n := |xs| - 1;
      SumPlus(xs[..n], ys[..n]);
      assert Plus(xs, ys)[..n] == Plus(xs[..n], ys[..n]);
    }
  }

  lemma {:induction false} SumBelow(xs: seq<real>, ys: seq<real>)
    requires |xs| == |ys| && forall i :: 0 <= i < |xs| ==> xs[i] <= ys[i]
    ensures Sum(xs) <= Sum(ys)
  {
    if xs == [] {
    } else {
      var n := |xs| - 1;
      forall i | 0 <= i < n ensures xs[..n][i] <= ys[..n][i] { assert xs[i] <= ys[i]; }
      SumBelow(xs[..n], ys[..n]);
    }
  }

  lemma {:induction false} SumScaled(xs: seq<real>, ys: seq<real>, factor: real)
    requires |xs| == |ys| && forall i :: 0 <= i < |xs| ==> ys[i] == xs[i] * factor
    ensures Sum(ys) == Sum(xs) * factor
  {
    if xs == [] {
    } else {
      var n := |xs| - 1;
      forall i | 0 <= i < n ensures ys[..n][i] == xs[..n][i] * factor { assert ys[i] == xs[i] * factor; }
      SumScaled(xs[..n], ys[..n], factor);
      assert ys[n] == xs[n] * factor;
      Distributes(Sum(xs[..n]), xs[n], factor);
    }
  }

  lemma Distributes(a: real, b: real, factor: real)
    ensures (a + b) * factor == a * factor + b * factor
  {}

  lemma NotNegative(xs: seq<real>)
    requires forall i :: 0 <= i < |xs| ==> xs[i] >= 0.0
    ensures Sum(xs) >= 0.0
  {}

  // ---- one round of stretching ----

  // A child that may still grow, and by which weight.
  predicate Grows(c: Child, open: bool) { open && c.length.kind == Stretch }
  function OpenWeight(c: Child, open: bool): real { if Grows(c, open) then Weight(c.length) else 0.0 }

  function OpenWeights(children: seq<Child>, open: seq<bool>): (r: seq<real>)
    requires |children| == |open|
    ensures |r| == |children| && forall i :: 0 <= i < |r| ==> r[i] == OpenWeight(children[i], open[i])
  {
    seq(|children|, i requires 0 <= i < |children| => OpenWeight(children[i], open[i]))
  }

  function Share(c: Child, open: bool, remaining: real, weight: real): real
    requires weight > 0.0
  {
    remaining * (OpenWeight(c, open) / weight)
  }

  // What a round gives to one child: its share, as far as its maximum allows.
  function Gain(c: Child, open: bool, size: real, remaining: real, weight: real): real
    requires weight > 0.0
  {
    if !Grows(c, open) then 0.0
    else
      var share := Share(c, open, remaining, weight);
      Max(0.0, if c.length.maximum.Unbounded? then share else Min(share, c.length.maximum.value - size))
  }

  function Gains(children: seq<Child>, open: seq<bool>, sizes: seq<real>, remaining: real, weight: real): (r: seq<real>)
    requires |children| == |open| == |sizes| && weight > 0.0
    ensures |r| == |children| && forall i :: 0 <= i < |r| ==> r[i] == Gain(children[i], open[i], sizes[i], remaining, weight)
  {
    seq(|children|, i requires 0 <= i < |children| => Gain(children[i], open[i], sizes[i], remaining, weight))
  }

  predicate StaysOpen(c: Child, open: bool, size: real) {
    open && !(c.length.kind == Stretch && c.length.maximum.Upto? && size + EPSILON >= c.length.maximum.value)
  }

  function NowOpen(children: seq<Child>, open: seq<bool>, sizes: seq<real>): (r: seq<bool>)
    requires |children| == |open| == |sizes|
    ensures |r| == |children| && forall i :: 0 <= i < |r| ==> r[i] == StaysOpen(children[i], open[i], sizes[i])
  {
    seq(|children|, i requires 0 <= i < |children| => StaysOpen(children[i], open[i], sizes[i]))
  }

  function GrowingCount(children: seq<Child>, open: seq<bool>): nat
    requires |children| == |open|
  {
    if children == [] then 0
    else
      var n := |children| - 1;
      GrowingCount(children[..n], open[..n]) + if Grows(children[n], open[n]) then 1 else 0
  }

  lemma ShareFactor(c: Child, open: bool, remaining: real, weight: real)
    requires weight > 0.0
    ensures Share(c, open, remaining, weight) == OpenWeight(c, open) * (remaining / weight)
  {
    var w := OpenWeight(c, open);
    var x, y := w / weight, remaining / weight;
    assert x * weight == w && y * weight == remaining;
    assert remaining * x == y * weight * x == y * (x * weight);
  }

  lemma ShareNotNegative(c: Child, open: bool, remaining: real, weight: real)
    requires weight > 0.0 && remaining >= 0.0
    ensures Share(c, open, remaining, weight) >= 0.0
  {
    assert OpenWeight(c, open) / weight >= 0.0;
  }

  // The shares of a round make up exactly what was left.
  lemma SharesAddUp(children: seq<Child>, open: seq<bool>, shares: seq<real>, remaining: real, weight: real)
    requires |children| == |open| == |shares| && weight > 0.0 && weight == Sum(OpenWeights(children, open))
    requires forall i :: 0 <= i < |shares| ==> shares[i] == Share(children[i], open[i], remaining, weight)
    ensures Sum(shares) == remaining
  {
    hide Share;
    forall i | 0 <= i < |shares| ensures shares[i] == OpenWeights(children, open)[i] * (remaining / weight) {
      ShareFactor(children[i], open[i], remaining, weight);
    }
    SumScaled(OpenWeights(children, open), shares, remaining / weight);
    assert weight * (remaining / weight) == remaining;
  }

  lemma GainWithinShare(c: Child, open: bool, size: real, remaining: real, weight: real)
    requires weight > 0.0 && remaining >= 0.0
    ensures var g := Gain(c, open, size, remaining, weight);
            && 0.0 <= g <= Share(c, open, remaining, weight)
            && (g != Share(c, open, remaining, weight) ==> Grows(c, open) && !StaysOpen(c, open, size + g))
            && (c.length.maximum.Upto? ==> size + g <= Max(size, c.length.maximum.value))
  {
    ShareNotNegative(c, open, remaining, weight);
    assert !Grows(c, open) ==> OpenWeight(c, open) / weight == 0.0;
    hide Share;
    assert !Grows(c, open) ==> Share(c, open, remaining, weight) == 0.0 by { ZeroShare(c, open, remaining, weight); }
  }

  lemma ZeroShare(c: Child, open: bool, remaining: real, weight: real)
    requires weight > 0.0
    ensures !Grows(c, open) ==> Share(c, open, remaining, weight) == 0.0
  {}

  predicate GainOk(c: Child, open: bool, after: bool, gain: real, share: real) {
    0.0 <= gain <= share && (gain != share ==> Grows(c, open) && !after) && (after ==> open)
  }

  lemma GainIsOk(c: Child, open: bool, size: real, remaining: real, weight: real)
    requires weight > 0.0 && remaining >= 0.0
    ensures var gain := Gain(c, open, size, remaining, weight);
            GainOk(c, open, StaysOpen(c, open, size + gain), gain, Share(c, open, remaining, weight))
  {
    hide Gain, Share;
    GainWithinShare(c, open, size, remaining, weight);
  }

  // A round hands out at most what is left, and all of it when it fills no child up.
  lemma RoundGives(children: seq<Child>, open: seq<bool>, sizes: seq<real>, remaining: real, weight: real)
    requires |children| == |open| == |sizes| && weight > 0.0 && remaining >= 0.0
    requires weight == Sum(OpenWeights(children, open))
    ensures var gains := Gains(children, open, sizes, remaining, weight);
            var after := NowOpen(children, open, Plus(sizes, gains));
            && 0.0 <= Sum(gains) <= remaining
            && GrowingCount(children, after) <= GrowingCount(children, open)
            && (GrowingCount(children, after) == GrowingCount(children, open) ==> Sum(gains) == remaining)
  {
    hide Gain, GainOk, Share, StaysOpen, Sum, GrowingCount, Grows, OpenWeight;
    var gains := Gains(children, open, sizes, remaining, weight);
    var after := NowOpen(children, open, Plus(sizes, gains));
    var shares := Shares(children, open, remaining, weight);
    forall i | 0 <= i < |children| ensures GainOk(children[i], open[i], after[i], gains[i], shares[i]) {
      GainIsOk(children[i], open[i], sizes[i], remaining, weight);
    }
    SharesAddUp(children, open, shares, remaining, weight);
    GainsAddUp(children, open, after, gains, shares);
  }

  lemma GainsAddUp(children: seq<Child>, open: seq<bool>, after: seq<bool>, gains: seq<real>, shares: seq<real>)
    requires |children| == |open| == |after| == |gains| == |shares|
    requires forall i :: 0 <= i < |children| ==> GainOk(children[i], open[i], after[i], gains[i], shares[i])
    ensures 0.0 <= Sum(gains) <= Sum(shares)
    ensures GrowingCount(children, after) <= GrowingCount(children, open)
    ensures GrowingCount(children, after) == GrowingCount(children, open) ==> Sum(gains) == Sum(shares)
  {
    hide Sum, GrowingCount, Grows;
    SumBelow(gains, shares);
    NotNegative(gains);
    FewerGrow(children, open, after);
    if GrowingCount(children, after) == GrowingCount(children, open) {
      forall i | 0 <= i < |children| ensures gains[i] == shares[i] { assert GainOk(children[i], open[i], after[i], gains[i], shares[i]); }
      assert gains == shares;
    }
  }

  function Shares(children: seq<Child>, open: seq<bool>, remaining: real, weight: real): (r: seq<real>)
    requires |children| == |open| && weight > 0.0
    ensures |r| == |children| && forall i :: 0 <= i < |r| ==> r[i] == Share(children[i], open[i], remaining, weight)
  {
    seq(|children|, i requires 0 <= i < |children| => Share(children[i], open[i], remaining, weight))
  }

  lemma {:induction false} FewerGrow(children: seq<Child>, open: seq<bool>, after: seq<bool>)
    requires |children| == |open| == |after| && forall i :: 0 <= i < |children| ==> after[i] ==> open[i]
    ensures GrowingCount(children, after) <= GrowingCount(children, open)
    ensures GrowingCount(children, after) == GrowingCount(children, open) ==>
              forall i :: 0 <= i < |children| ==> Grows(children[i], open[i]) ==> after[i]
  {
    if children == [] {
    } else {
      var n := |children| - 1;
      forall i | 0 <= i < n && after[..n][i] ensures open[..n][i] { assert after[i] && open[i]; }
      FewerGrow(children[..n], open[..n], after[..n]);
      assert after[n] ==> open[n];
      if GrowingCount(children, after) == GrowingCount(children, open) {
        forall i | 0 <= i < |children| && Grows(children[i], open[i]) ensures after[i] {
          if i < n { assert Grows(children[..n][i], open[..n][i]) && after[..n][i]; }
        }
      }
    }
  }

  // ---- stretching ----

  // The rounds, until nothing worth sharing is left, nobody can take it, or a round gives out next to nothing.
  function Stretched(children: seq<Child>, open: seq<bool>, sizes: seq<real>, remaining: real): (r: seq<real>)
    requires |children| == |open| == |sizes| && remaining >= 0.0
    ensures |r| == |children|
    decreases GrowingCount(children, open) + (if remaining > EPSILON then 1 else 0)
  {
    var weight := Sum(OpenWeights(children, open));
    if remaining <= EPSILON || weight <= EPSILON then sizes
    else
      var gains := Gains(children, open, sizes, remaining, weight);
      RoundGives(children, open, sizes, remaining, weight);
      if Sum(gains) <= EPSILON then Plus(sizes, gains)
      else Stretched(children, NowOpen(children, open, Plus(sizes, gains)), Plus(sizes, gains), remaining - Sum(gains))
  }

  // One round, and what comes after it.
  lemma StretchedNext(children: seq<Child>, open: seq<bool>, sizes: seq<real>, remaining: real)
    requires |children| == |open| == |sizes| && remaining > EPSILON && Sum(OpenWeights(children, open)) > EPSILON
    ensures var gains := Gains(children, open, sizes, remaining, Sum(OpenWeights(children, open)));
            var next := Plus(sizes, gains);
            && 0.0 <= Sum(gains) <= remaining
            && Stretched(children, open, sizes, remaining) ==
                 if Sum(gains) <= EPSILON then next else Stretched(children, NowOpen(children, open, next), next, remaining - Sum(gains))
  {
    hide Gain, GrowingCount, Sum, StaysOpen;
    RoundGives(children, open, sizes, remaining, Sum(OpenWeights(children, open)));
  }

  lemma NotStretchedFurther(children: seq<Child>, open: seq<bool>, sizes: seq<real>, remaining: real)
    requires |children| == |open| == |sizes| && remaining >= 0.0
    requires remaining <= EPSILON || Sum(OpenWeights(children, open)) <= EPSILON
    ensures Stretched(children, open, sizes, remaining) == sizes
  {
    hide Sum;
  }

  // Stretching never gives out more than there is, takes nothing away, keeps to the maxima, and leaves the other
  // children as they are.
  lemma {:induction false} StretchedFacts(children: seq<Child>, open: seq<bool>, sizes: seq<real>, remaining: real)
    requires |children| == |open| == |sizes| && remaining >= 0.0
    ensures var r := Stretched(children, open, sizes, remaining);
            && Sum(sizes) <= Sum(r) <= Sum(sizes) + remaining
            && forall i :: 0 <= i < |r| ==>
                 && sizes[i] <= r[i]
                 && (children[i].length.kind != Stretch || !open[i] ==> r[i] == sizes[i])
                 && (children[i].length.maximum.Upto? ==> r[i] <= Max(sizes[i], children[i].length.maximum.value))
    decreases GrowingCount(children, open) + (if remaining > EPSILON then 1 else 0)
  {
    hide Gain, GrowingCount, Sum;
    var weight := Sum(OpenWeights(children, open));
    if remaining > EPSILON && weight > EPSILON {
      var gains := Gains(children, open, sizes, remaining, weight);
      var next := Plus(sizes, gains);
      RoundGives(children, open, sizes, remaining, weight);
      SumPlus(sizes, gains);
      forall i | 0 <= i < |children|
        ensures 0.0 <= gains[i] && (!Grows(children[i], open[i]) ==> gains[i] == 0.0)
        ensures children[i].length.maximum.Upto? ==> next[i] <= Max(sizes[i], children[i].length.maximum.value)
      {
        GainWithinShare(children[i], open[i], sizes[i], remaining, weight);
        NoGain(children[i], open[i], sizes[i], remaining, weight);
      }
      if Sum(gains) > EPSILON {
        StretchedFacts(children, NowOpen(children, open, next), next, remaining - Sum(gains));
      }
    }
  }

  lemma NoGain(c: Child, open: bool, size: real, remaining: real, weight: real)
    requires weight > 0.0
    ensures !Grows(c, open) ==> Gain(c, open, size, remaining, weight) == 0.0
  {}

  // When no open child has a maximum, everything is given out at once, in proportion to the weights.
  lemma UnboundedInProportion(children: seq<Child>, open: seq<bool>, sizes: seq<real>, remaining: real)
    requires |children| == |open| == |sizes| && remaining > EPSILON
    requires Sum(OpenWeights(children, open)) > EPSILON
    requires forall i :: 0 <= i < |children| && Grows(children[i], open[i]) ==> children[i].length.maximum.Unbounded?
    ensures var weight := Sum(OpenWeights(children, open));
            var r := Stretched(children, open, sizes, remaining);
            && Sum(r) == Sum(sizes) + remaining
            && forall i :: 0 <= i < |r| ==> r[i] == sizes[i] + remaining * (OpenWeight(children[i], open[i]) / weight)
  {
    hide GrowingCount, Sum;
    var weight := Sum(OpenWeights(children, open));
    var gains := Gains(children, open, sizes, remaining, weight);
    var shares := Shares(children, open, remaining, weight);
    forall i | 0 <= i < |children| ensures gains[i] == shares[i] {
      GainWithinShare(children[i], open[i], sizes[i], remaining, weight);
    }
    assert gains == shares;
    SharesAddUp(children, open, shares, remaining, weight);
    SumPlus(sizes, gains);
    RoundGives(children, open, sizes, remaining, weight);
  }

  // A child that ends clearly below its maximum, or has none.
  predicate HasRoom(c: Child, size: real) {
    c.length.maximum.Unbounded? || size + EPSILON < c.length.maximum.value
  }

  // A child with room after the round took its whole share and is still open.
  lemma RoomTakesShare(c: Child, open: bool, size: real, remaining: real, weight: real)
    requires weight > 0.0 && remaining >= 0.0 && open && c.length.kind == Stretch
    requires HasRoom(c, size + Gain(c, open, size, remaining, weight))
    ensures Gain(c, open, size, remaining, weight) == Share(c, open, remaining, weight) >= 0.0
    ensures StaysOpen(c, open, size + Gain(c, open, size, remaining, weight))
  {
    ShareNotNegative(c, open, remaining, weight);
  }

  // Shares are to each other as the weights.
  lemma SharesInProportion(wi: real, wj: real, remaining: real, weight: real)
    requires weight > 0.0
    ensures (remaining * (wi / weight)) * wj == (remaining * (wj / weight)) * wi
  {
    var f := remaining / weight;
    assert remaining * (wi / weight) == f * wi;
    assert remaining * (wj / weight) == f * wj;
    assert (f * wi) * wj == (f * wj) * wi;
  }

  // One round: a child with room afterwards gets at least as much for its weight as any other.
  lemma FairRound(ci: Child, oi: bool, si: real, cj: Child, oj: bool, sj: real, remaining: real, weight: real)
    requires weight > 0.0 && remaining >= 0.0 && oj && cj.length.kind == Stretch
    requires HasRoom(cj, sj + Gain(cj, oj, sj, remaining, weight))
    ensures Gain(ci, oi, si, remaining, weight) * Weight(cj.length) <= Gain(cj, oj, sj, remaining, weight) * Weight(ci.length)
  {
    hide Gain, HasRoom, StaysOpen;
    RoomTakesShare(cj, oj, sj, remaining, weight);
    GainWithinShare(ci, oi, si, remaining, weight);
    ShareNotNegative(cj, oj, remaining, weight);
    var wi, wj := Weight(ci.length), Weight(cj.length);
    var gi, gj := Gain(ci, oi, si, remaining, weight), Gain(cj, oj, sj, remaining, weight);
    if Grows(ci, oi) {
      SharesInProportion(wi, wj, remaining, weight);
      ScaleUp(gi, remaining * (wi / weight), wj);
    } else {
      NoGain(ci, oi, si, remaining, weight);
      ScaleUp(0.0, gj, wi);
    }
  }

  lemma ScaleUp(x: real, y: real, factor: real)
    requires x <= y && factor >= 0.0
    ensures x * factor <= y * factor
  {}

  lemma LessHasRoom(c: Child, size: real, larger: real)
    requires size <= larger && HasRoom(c, larger)
    ensures HasRoom(c, size)
  {}

  // Two steps that are fair are fair together.
  lemma FairTogether(a: real, b: real, c: real, x: real, y: real, z: real, wi: real, wj: real)
    requires (b - a) * wj <= (y - x) * wi && (c - b) * wj <= (z - y) * wi
    ensures (c - a) * wj <= (z - x) * wi
  {
    assert (c - a) * wj == (b - a) * wj + (c - b) * wj;
    assert (z - x) * wi == (y - x) * wi + (z - y) * wi;
  }

  // The first round leaves no more in any child than the whole stretch does.
  lemma RoundGrows(children: seq<Child>, open: seq<bool>, sizes: seq<real>, remaining: real, i: nat)
    requires |children| == |open| == |sizes| && remaining > EPSILON && i < |children|
    requires Sum(OpenWeights(children, open)) > EPSILON
    ensures var weight := Sum(OpenWeights(children, open));
            sizes[i] + Gain(children[i], open[i], sizes[i], remaining, weight) <= Stretched(children, open, sizes, remaining)[i]
  {
    hide Gain, GrowingCount, Sum, StaysOpen;
    var weight := Sum(OpenWeights(children, open));
    var gains := Gains(children, open, sizes, remaining, weight);
    var next := Plus(sizes, gains);
    RoundGives(children, open, sizes, remaining, weight);
    if Sum(gains) > EPSILON { StretchedFacts(children, NowOpen(children, open, next), next, remaining - Sum(gains)); }
  }

  // Fairness of the whole stretch: a child that ends with room received at least as much for its weight as any other,
  // so two children that both end with room grew exactly in proportion to their weights.
  lemma {:induction false} FairShares(children: seq<Child>, open: seq<bool>, sizes: seq<real>, remaining: real, i: nat, j: nat)
    requires |children| == |open| == |sizes| && remaining >= 0.0 && i < |children| && j < |children|
    requires open[j] && children[j].length.kind == Stretch
    requires HasRoom(children[j], Stretched(children, open, sizes, remaining)[j])
    ensures var r := Stretched(children, open, sizes, remaining);
            (r[i] - sizes[i]) * Weight(children[j].length) <= (r[j] - sizes[j]) * Weight(children[i].length)
    decreases GrowingCount(children, open) + (if remaining > EPSILON then 1 else 0)
  {
    hide Gain, GrowingCount, Sum, HasRoom, Weight, StaysOpen, Stretched;
    var weight := Sum(OpenWeights(children, open));
    if remaining <= EPSILON || weight <= EPSILON {
      NotStretchedFurther(children, open, sizes, remaining);
    } else {
      var gains := Gains(children, open, sizes, remaining, weight);
      var next := Plus(sizes, gains);
      var r := Stretched(children, open, sizes, remaining);
      StretchedNext(children, open, sizes, remaining);
      RoundGives(children, open, sizes, remaining, weight);
      RoundGrows(children, open, sizes, remaining, j);
      LessHasRoom(children[j], next[j], r[j]);
      FairRound(children[i], open[i], sizes[i], children[j], open[j], sizes[j], remaining, weight);
      if Sum(gains) > EPSILON {
        RoomTakesShare(children[j], open[j], sizes[j], remaining, weight);
        FairShares(children, NowOpen(children, open, next), next, remaining - Sum(gains), i, j);
        FairTogether(sizes[i], next[i], r[i], sizes[j], next[j], r[j], Weight(children[i].length), Weight(children[j].length));
      }
    }
  }

  // What an early end can leave undone: a child that could still grow has too little weight to claim more than EPSILON
  // of what is left, measured against the weight that was open at the start.
  lemma {:induction false} LeftoverClaims(children: seq<Child>, open: seq<bool>, sizes: seq<real>, remaining: real, j: nat)
    requires |children| == |open| == |sizes| && remaining >= 0.0 && j < |children|
    requires open[j] && children[j].length.kind == Stretch
    requires HasRoom(children[j], Stretched(children, open, sizes, remaining)[j])
    ensures var r := Stretched(children, open, sizes, remaining);
            var left := remaining - (Sum(r) - Sum(sizes));
            var weight := Sum(OpenWeights(children, open));
            left <= EPSILON || Weight(children[j].length) <= EPSILON || left * Weight(children[j].length) <= EPSILON * weight
    decreases GrowingCount(children, open) + (if remaining > EPSILON then 1 else 0)
  {
    hide Gain, GrowingCount, Sum, HasRoom, Weight, StaysOpen;
    var weight := Sum(OpenWeights(children, open));
    var wj := Weight(children[j].length);
    if remaining > EPSILON && weight > EPSILON {
      var gains := Gains(children, open, sizes, remaining, weight);
      var next := Plus(sizes, gains);
      var after := NowOpen(children, open, next);
      var r := Stretched(children, open, sizes, remaining);
      RoundGives(children, open, sizes, remaining, weight);
      SumPlus(sizes, gains);
      RoundGrows(children, open, sizes, remaining, j);
      LessHasRoom(children[j], next[j], r[j]);
      RoomTakesShare(children[j], open[j], sizes[j], remaining, weight);
      if Sum(gains) > EPSILON {
        LeftoverClaims(children, after, next, remaining - Sum(gains), j);
        LessOpenWeight(children, open, next);
      } else {
        GainsNotNegative(children, open, sizes, remaining, weight);
        OneOfSum(gains, j);
        ShareBound(children[j], open[j], remaining, weight, remaining - Sum(gains));
      }
    } else if remaining > EPSILON {
      WeightsNotNegative(children, open);
      OneOfSum(OpenWeights(children, open), j);
    }
  }

  lemma GainsNotNegative(children: seq<Child>, open: seq<bool>, sizes: seq<real>, remaining: real, weight: real)
    requires |children| == |open| == |sizes| && weight > 0.0 && remaining >= 0.0
    ensures forall i :: 0 <= i < |children| ==> Gains(children, open, sizes, remaining, weight)[i] >= 0.0
  {
    hide Gain;
    forall i | 0 <= i < |children| ensures Gains(children, open, sizes, remaining, weight)[i] >= 0.0 {
      GainWithinShare(children[i], open[i], sizes[i], remaining, weight);
    }
  }

  // A share of at most EPSILON bounds the claim on whatever part is left.
  lemma ShareBound(c: Child, open: bool, remaining: real, weight: real, left: real)
    requires weight > 0.0 && left <= remaining && Grows(c, open)
    requires Share(c, open, remaining, weight) <= EPSILON
    ensures left * Weight(c.length) <= EPSILON * weight
  {
    hide Share, Weight;
    var w := Weight(c.length);
    ShareFactor(c, open, remaining, weight);
    ScaleUp(w * (remaining / weight), EPSILON, weight);
    assert w * (remaining / weight) * weight == remaining * w by {
      assert (remaining / weight) * weight == remaining;
      assert w * (remaining / weight) * weight == w * ((remaining / weight) * weight);
    }
    WeightNotNegative(c.length);
    ScaleUp(left, remaining, w);
  }

  lemma WeightNotNegative(l: LayoutLength)
    ensures Weight(l) >= 0.0
  {}

  lemma WeightsNotNegative(children: seq<Child>, open: seq<bool>)
    requires |children| == |open|
    ensures forall i :: 0 <= i < |children| ==> OpenWeights(children, open)[i] >= 0.0
  {}

  lemma LessOpenWeight(children: seq<Child>, open: seq<bool>, sizes: seq<real>)
    requires |children| == |open| == |sizes|
    ensures EPSILON * Sum(OpenWeights(children, NowOpen(children, open, sizes))) <= EPSILON * Sum(OpenWeights(children, open))
  {
    hide Sum;
    SumBelow(OpenWeights(children, NowOpen(children, open, sizes)), OpenWeights(children, open));
  }

  lemma {:induction false} OneOfSum(xs: seq<real>, j: nat)
    requires j < |xs| && forall i :: 0 <= i < |xs| ==> xs[i] >= 0.0
    ensures xs[j] <= Sum(xs)
  {
    var n := |xs| - 1;
    NotNegative(xs[..n]);
    if j == n {
    } else {
      OneOfSum(xs[..n], j);
    }
  }

  // ---- shrinking ----

  function Slack(c: Child, size: real): real {
    if c.length.kind == AutoSize then size - c.length.minimum else 0.0
  }

  function Slacks(children: seq<Child>, sizes: seq<real>): (r: seq<real>)
    requires |children| == |sizes|
    ensures |r| == |children| && forall i :: 0 <= i < |r| ==> r[i] == Slack(children[i], sizes[i])
  {
    seq(|children|, i requires 0 <= i < |children| => Slack(children[i], sizes[i]))
  }

  function Loss(slack: real, ratio: real): real { -(slack * ratio) }

  function Cuts(slacks: seq<real>, ratio: real): (r: seq<real>)
    ensures |r| == |slacks| && forall i :: 0 <= i < |r| ==> r[i] == Loss(slacks[i], ratio)
  {
    seq(|slacks|, i requires 0 <= i < |slacks| => Loss(slacks[i], ratio))
  }

  function Shrunk(children: seq<Child>, sizes: seq<real>, deficit: real): (r: seq<real>)
    requires |children| == |sizes|
    ensures |r| == |children|
  {
    var shrinkable := Sum(Slacks(children, sizes));
    if shrinkable <= EPSILON then sizes
    else Plus(sizes, Cuts(Slacks(children, sizes), Min(1.0, deficit / shrinkable)))
  }

  // Shrinking takes away exactly what is missing or all there is to take, from auto-sized children only, and none of
  // them falls below its minimum.
  lemma ShrunkFacts(children: seq<Child>, sizes: seq<real>, deficit: real)
    requires |children| == |sizes| && deficit >= 0.0
    requires forall i :: 0 <= i < |children| ==> children[i].length.minimum <= sizes[i]
    ensures var r := Shrunk(children, sizes, deficit);
            var shrinkable := Sum(Slacks(children, sizes));
            && Sum(r) == Sum(sizes) - (if shrinkable > EPSILON then Min(deficit, shrinkable) else 0.0)
            && forall i :: 0 <= i < |r| ==>
                 children[i].length.minimum <= r[i] <= sizes[i] && (children[i].length.kind != AutoSize ==> r[i] == sizes[i])
  {
    hide Sum, Slack, Min, Loss;
    var slacks := Slacks(children, sizes);
    var shrinkable := Sum(slacks);
    forall i | 0 <= i < |children| ensures SlackKeeps(children[i], sizes[i], slacks[i]) { SlackIs(children[i], sizes[i]); }
    if shrinkable > EPSILON {
      var ratio := Min(1.0, deficit / shrinkable);
      RatioWithin(shrinkable, deficit);
      var cuts := Cuts(slacks, ratio);
      forall i | 0 <= i < |children| ensures -slacks[i] <= cuts[i] <= 0.0 && cuts[i] == slacks[i] * -ratio {
        LossWithin(slacks[i], ratio);
      }
      SumScaled(slacks, cuts, -ratio);
      SumPlus(sizes, cuts);
      RatioTakes(shrinkable, deficit);
    }
  }

  predicate SlackKeeps(c: Child, size: real, slack: real) {
    && slack >= 0.0 && size - slack >= c.length.minimum
    && (c.length.kind != AutoSize ==> slack == 0.0)
  }

  lemma SlackIs(c: Child, size: real)
    requires c.length.minimum <= size
    ensures SlackKeeps(c, size, Slack(c, size))
  {}

  lemma RatioWithin(shrinkable: real, deficit: real)
    requires shrinkable > 0.0 && deficit >= 0.0
    ensures 0.0 <= Min(1.0, deficit / shrinkable) <= 1.0
  {
    assert deficit / shrinkable >= 0.0;
  }

  lemma RatioTakes(shrinkable: real, deficit: real)
    requires shrinkable > 0.0 && deficit >= 0.0
    ensures shrinkable * -Min(1.0, deficit / shrinkable) == -Min(deficit, shrinkable)
  {
    var q := deficit / shrinkable;
    assert q * shrinkable == deficit;
    if q <= 1.0 {
      assert deficit <= shrinkable by { Portion(shrinkable, q); }
    } else {
      assert deficit >= shrinkable by { Larger(shrinkable, q); }
    }
  }

  lemma LossWithin(slack: real, ratio: real)
    requires slack >= 0.0 && 0.0 <= ratio <= 1.0
    ensures -slack <= Loss(slack, ratio) <= 0.0 && Loss(slack, ratio) == slack * -ratio
  {}

  lemma Portion(x: real, ratio: real)
    requires x >= 0.0 && 0.0 <= ratio <= 1.0
    ensures 0.0 <= x * ratio <= x
  {}

  lemma Larger(x: real, ratio: real)
    requires x >= 0.0 && ratio >= 1.0
    ensures x * ratio >= x
  {}

  // ---- the whole main axis ----

  function Initials(children: seq<Child>): (r: seq<real>)
    ensures |r| == |children| && forall i :: 0 <= i < |r| ==> r[i] == Initial(children[i])
  {
    seq(|children|, i requires 0 <= i < |children| => Initial(children[i]))
  }

  function AllOpen(n: nat): (r: seq<bool>)
    ensures |r| == n && forall i :: 0 <= i < n ==> r[i]
  {
    seq(n, _ => true)
  }

  function MainSizes(children: seq<Child>, available: real, gaps: real): (r: seq<real>)
    ensures |r| == |children|
  {
    var initial := Initials(children);
    var remaining := available - (gaps + Sum(initial));
    var weight := Sum(OpenWeights(children, AllOpen(|children|)));
    if remaining > EPSILON && weight > EPSILON then Stretched(children, AllOpen(|children|), initial, remaining)
    else if remaining < -EPSILON then Shrunk(children, initial, -remaining)
    else initial
  }

  // Whatever the children ask for: nobody grows past the maximum that applies to it or falls below its minimum, with
  // zero as the least unless it is auto-sized with a negative minimum. Fixed children keep their size, and unless the
  // children do not even fit at the start, they and the gaps fit in the space.
  lemma MainSizesFacts(children: seq<Child>, available: real, gaps: real)
    ensures var r := MainSizes(children, available, gaps);
            var initial := Initials(children);
            && (forall i :: 0 <= i < |r| ==>
                  && children[i].length.minimum <= r[i] && WithinMost(children[i].length, r[i])
                  && (NeverNegative(children[i]) ==> Least(children[i].length) <= r[i])
                  && (children[i].length.kind == FixedSize ==> r[i] == initial[i])
                  && (children[i].length.kind == Stretch ==> r[i] >= initial[i])
                  && (children[i].length.kind == AutoSize ==> r[i] <= initial[i]))
            && (gaps + Sum(initial) <= available ==> Sum(initial) <= Sum(r) && gaps + Sum(r) <= available)
            && (gaps + Sum(initial) > available + EPSILON ==>
                  var slack := Sum(Slacks(children, initial));
                  Sum(r) == Sum(initial) - if slack > EPSILON then Min(gaps + Sum(initial) - available, slack) else 0.0)
  {
    hide Sum, Stretched, Shrunk;
    var initial := Initials(children);
    var remaining := available - (gaps + Sum(initial));
    forall i | 0 <= i < |children|
      ensures children[i].length.minimum <= Least(children[i].length) <= initial[i] && WithinMost(children[i].length, initial[i])
      ensures children[i].length.maximum.Upto? ==> Max(initial[i], children[i].length.maximum.value) <= Max(Least(children[i].length), children[i].length.maximum.value)
    {}
    if remaining >= 0.0 { StretchedFacts(children, AllOpen(|children|), initial, remaining); }
    if remaining < 0.0 { ShrunkFacts(children, initial, -remaining); }
  }

  predicate NeverNegative(c: Child) { c.length.kind != AutoSize || c.length.minimum >= 0.0 }

  // A child keeps the minimum that applies to it in every row and column exactly when it is not auto-sized with a
  // negative minimum: shrinking takes the minimum as it is given.
  lemma KeepsLeastExactly(c: Child)
    ensures NeverNegative(c) <==>
            forall children, i: nat, available, gaps :: i < |children| && children[i] == c ==>
              Least(c.length) <= MainSizes(children, available, gaps)[i]
  {
    hide MainSizes;
    if NeverNegative(c) {
      forall children, i: nat, available, gaps | i < |children| && children[i] == c
        ensures Least(c.length) <= MainSizes(children, available, gaps)[i]
      {
        MainSizesFacts(children, available, gaps);
      }
    } else {
      ShrinksBelowZero(c);
      var others := Beside(c);
      assert [c, others.0, others.1][0] == c;
    }
  }

  // Children that leave c no room: one that can shrink, and a fixed one.
  function Beside(c: Child): (Child, Child) {
    (Child(LayoutLength(AutoSize, 0.0, 0.0, Unbounded, 0.0), 1.0),
     Child(LayoutLength(FixedSize, -c.length.minimum, 0.0, Unbounded, 0.0), 0.0))
  }

  lemma ShrinksBelowZero(c: Child)
    requires !NeverNegative(c)
    ensures var (flexible, fixed) := Beside(c);
            MainSizes([c, flexible, fixed], 0.0, 0.0)[0] == c.length.minimum < 0.0
  {
    var (flexible, fixed) := Beside(c);
    var children := [c, flexible, fixed];
    var initial := Initials(children);
    ThreeSum(initial);
    ThreeSum(Slacks(children, initial));
    ThreeSum(OpenWeights(children, AllOpen(3)));
    Whole(initial[0] - c.length.minimum + 1.0);
  }

  lemma Whole(x: real)
    requires x > 0.0
    ensures x / x == 1.0
  {}

  lemma ThreeSum(xs: seq<real>)
    requires |xs| == 3
    ensures Sum(xs) == xs[0] + xs[1] + xs[2]
  {
    TwoSum(xs[..2]);
  }

  // For every row or column: among the children that stretch, one that ends with room received at least as much for
  // its weight as any other, and what is left unused beyond EPSILON is no more than it could claim EPSILON of.
  lemma MainSizesFair(children: seq<Child>, available: real, gaps: real, i: nat, j: nat)
    requires i < |children| && j < |children| && children[i].length.kind == Stretch && children[j].length.kind == Stretch
    requires HasRoom(children[j], MainSizes(children, available, gaps)[j])
    ensures var r := MainSizes(children, available, gaps);
            var initial := Initials(children);
            var wi, wj := Weight(children[i].length), Weight(children[j].length);
            && (r[i] - initial[i]) * wj <= (r[j] - initial[j]) * wi
            && var left := available - (gaps + Sum(r));
               left <= EPSILON || wj <= EPSILON || left * wj <= EPSILON * Sum(OpenWeights(children, AllOpen(|children|)))
  {
    hide Sum, Stretched, Weight, HasRoom;
    var initial := Initials(children);
    var open := AllOpen(|children|);
    var remaining := available - (gaps + Sum(initial));
    if remaining > EPSILON && Sum(OpenWeights(children, open)) > EPSILON {
      FairShares(children, open, initial, remaining, i, j);
      LeftoverClaims(children, open, initial, remaining, j);
    } else {
      MainSizesFacts(children, available, gaps);
      WeightsNotNegative(children, open);
      OneOfSum(OpenWeights(children, open), j);
      NotStretched(children, available, gaps, i);
      NotStretched(children, available, gaps, j);
    }
  }

  lemma NotStretched(children: seq<Child>, available: real, gaps: real, i: nat)
    requires i < |children| && children[i].length.kind == Stretch
    ensures (available - (gaps + Sum(Initials(children))) > EPSILON && Sum(OpenWeights(children, AllOpen(|children|))) > EPSILON)
            || MainSizes(children, available, gaps)[i] == Initials(children)[i]
  {
    hide Sum, Stretched, Initial;
  }

  // ---- the routine ----

  lemma SumOfNone()
    ensures Sum([]) == 0.0
  {}

  method MeasureChildren(children: seq<Child>, gaps: real) returns (sizes: seq<real>, total: real, weight: real)
    ensures sizes == Initials(children) && total == gaps + Sum(Initials(children))
    ensures weight == Sum(OpenWeights(children, AllOpen(|children|)))
  {
    hide Sum, ClampFinite;
    assert Sum([]) == 0.0 by { SumOfNone(); }
    sizes, total, weight := [], gaps, 0.0;
    ghost var initial, weights := Initials(children), OpenWeights(children, AllOpen(|children|));
    for i := 0 to |children|
      invariant sizes == initial[..i] && total == gaps + Sum(initial[..i]) && weight == Sum(weights[..i])
    {
      var c := children[i];
      var value := c.measured;
      if c.length.kind == FixedSize {
        value := c.length.value;
      } else if c.length.kind == Stretch {
        value := c.length.minimum;
        weight := weight + Max(0.0, c.length.weight);
      }
      value := ClampFinite(value, c.length);
      sizes := sizes + [value];
      total := total + value;
      SumNext(initial, i);
      SumNext(weights, i);
    }
    assert initial[..|children|] == initial && weights[..|children|] == weights;
  }

  method WeighOpen(children: seq<Child>, open: seq<bool>) returns (weight: real)
    requires |children| == |open|
    ensures weight == Sum(OpenWeights(children, open))
  {
    weight := 0.0;
    ghost var weights := OpenWeights(children, open);
    for i := 0 to |children|
      invariant weight == Sum(weights[..i])
    {
      SumNext(weights, i);
      if open[i] && children[i].length.kind == Stretch { weight := weight + Max(0.0, children[i].length.weight); }
    }
    assert weights[..|children|] == weights;
  }

  method ShareOut(c: Child, size: real, remaining: real, weight: real) returns (added: real)
    requires weight > 0.0 && c.length.kind == Stretch
    ensures added == Gain(c, true, size, remaining, weight)
  {
    var share := remaining * (Max(0.0, c.length.weight) / weight);
    added := Max(0.0, if c.length.maximum.Unbounded? then share else Min(share, c.length.maximum.value - size));
  }

  lemma GrowsOnly(c: Child, open: bool, size: real, remaining: real, weight: real)
    requires weight > 0.0
    ensures !(open && c.length.kind == Stretch) ==> Gain(c, open, size, remaining, weight) == 0.0
  {}

  // One round in place: every open child takes its share as far as it may.
  method GiveRound(children: seq<Child>, open: seq<bool>, sizes: seq<real>, remaining: real, weight: real)
    returns (larger: seq<real>, stillOpen: seq<bool>, distributed: real)
    requires |children| == |open| == |sizes| && weight > 0.0
    ensures var gains := Gains(children, open, sizes, remaining, weight);
            larger == Plus(sizes, gains) && stillOpen == NowOpen(children, open, Plus(sizes, gains)) && distributed == Sum(gains)
  {
    hide Gain, Sum;
    SumOfNone();
    larger, stillOpen, distributed := sizes, open, 0.0;
    ghost var gains := Gains(children, open, sizes, remaining, weight);
    ghost var after := NowOpen(children, open, Plus(sizes, gains));
    for i := 0 to |children|
      invariant |larger| == |sizes| && |stillOpen| == |open| && distributed == Sum(gains[..i])
      invariant forall k :: 0 <= k < i ==> larger[k] == sizes[k] + gains[k] && stillOpen[k] == after[k]
      invariant forall k :: i <= k < |children| ==> larger[k] == sizes[k] && stillOpen[k] == open[k]
    {
      SumNext(gains, i);
      var c := children[i];
      GrowsOnly(c, open[i], sizes[i], remaining, weight);
      if stillOpen[i] && c.length.kind == Stretch {
        var added := ShareOut(c, larger[i], remaining, weight);
        larger := larger[i := larger[i] + added];
        distributed := distributed + added;
        if c.length.maximum.Upto? && larger[i] + EPSILON >= c.length.maximum.value { stillOpen := stillOpen[i := false]; }
      }
    }
    assert gains[..|children|] == gains;
  }

  // The rounds. There are at most one more than there are children to stretch.
  method StretchChildren(children: seq<Child>, initial: seq<real>, space: real) returns (sizes: seq<real>, rounds: nat)
    requires |children| == |initial| && space >= 0.0
    ensures sizes == Stretched(children, AllOpen(|children|), initial, space)
    ensures rounds <= GrowingCount(children, AllOpen(|children|)) + 1
  {
    hide Sum, GrowingCount, Gain, StaysOpen, OpenWeight;
    var open := AllOpen(|children|);
    ghost var goal := Stretched(children, open, initial, space);
    var remaining := space;
    sizes, rounds := initial, 0;
    while remaining > EPSILON
      invariant |open| == |sizes| == |children| && remaining >= 0.0
      invariant Stretched(children, open, sizes, remaining) == goal
      invariant Sum(sizes) + remaining == Sum(initial) + space
      invariant rounds + GrowingCount(children, open) + (if remaining > EPSILON then 1 else 0) <=
                GrowingCount(children, AllOpen(|children|)) + 1
      decreases GrowingCount(children, open) + (if remaining > EPSILON then 1 else 0)
    {
      var weight := WeighOpen(children, open);
      if weight <= EPSILON { break; }
      RoundGives(children, open, sizes, remaining, weight);
      SumPlus(sizes, Gains(children, open, sizes, remaining, weight));
      var distributed;
      sizes, open, distributed := GiveRound(children, open, sizes, remaining, weight);
      rounds := rounds + 1;
      if distributed <= EPSILON { return; }
      remaining := remaining - distributed;
    }
  }

  method ShrinkChildren(children: seq<Child>, initial: seq<real>, deficit: real) returns (sizes: seq<real>)
    requires |children| == |initial|
    ensures sizes == Shrunk(children, initial, deficit)
  {
    sizes := initial;
    var shrinkable := 0.0;
    ghost var slacks := Slacks(children, initial);
    for i := 0 to |children|
      invariant shrinkable == Sum(slacks[..i])
    {
      SumNext(slacks, i);
      if children[i].length.kind == AutoSize { shrinkable := shrinkable + (sizes[i] - children[i].length.minimum); }
    }
    assert slacks[..|children|] == slacks;
    if shrinkable > EPSILON {
      var ratio := Min(1.0, deficit / shrinkable);
      for i := 0 to |children|
        invariant |sizes| == |initial|
        invariant forall k :: 0 <= k < |sizes| ==> sizes[k] == if k < i then initial[k] + Loss(slacks[k], ratio) else initial[k]
      {
        if children[i].length.kind == AutoSize {
          var capacity := sizes[i] - children[i].length.minimum;
          sizes := sizes[i := sizes[i] - capacity * ratio];
        }
      }
    }
  }

  method SizeChildren(children: seq<Child>, available: real, gaps: real) returns (sizes: seq<real>)
    ensures sizes == MainSizes(children, available, gaps)
  {
    hide Sum, Stretched, Shrunk;
    var total, weight;
    sizes, total, weight := MeasureChildren(children, gaps);
    var remaining := available - total;
    if remaining > EPSILON && weight > EPSILON {
      var rounds;
      sizes, rounds := StretchChildren(children, sizes, remaining);
    } else if remaining < -EPSILON {
      sizes := ShrinkChildren(children, sizes, -remaining);
    }
  }

  // ---- positions ----

  // Where a child begins: after the ones before it and a gap for each.
  function BeginAt(sizes: seq<real>, start: real, gap: real, i: nat): real
    requires i <= |sizes|
  {
    start + Sum(sizes[..i]) + i as real * gap
  }

  method PlaceChildren(sizes: seq<real>, start: real, gap: real) returns (begins: seq<real>)
    ensures |begins| == |sizes|
    ensures forall i :: 0 <= i < |begins| ==> begins[i] == BeginAt(sizes, start, gap, i)
  {
    hide BeginAt;
    begins := [];
    var cursor := start;
    FirstBegin(sizes, start, gap);
    for i := 0 to |sizes|
      invariant |begins| == i && cursor == BeginAt(sizes, start, gap, i)
      invariant forall k :: 0 <= k < i ==> begins[k] == BeginAt(sizes, start, gap, k)
    {
      begins := begins + [cursor];
      BeginNext(sizes, start, gap, i);
      cursor := cursor + sizes[i] + gap;
    }
  }

  lemma FirstBegin(sizes: seq<real>, start: real, gap: real)
    ensures BeginAt(sizes, start, gap, 0) == start
  {}

  lemma BeginNext(sizes: seq<real>, start: real, gap: real, i: nat)
    requires i < |sizes|
    ensures BeginAt(sizes, start, gap, i + 1) == BeginAt(sizes, start, gap, i) + sizes[i] + gap
  {
    hide Sum;
    SumNext(sizes, i);
    OneGapMore(i, gap);
  }

  lemma OneGapMore(i: nat, gap: real)
    ensures (i + 1) as real * gap == i as real * gap + gap
  {}

  // Children of sizes that fit, placed one after the other, do not overlap and end within the space.
  lemma {:induction false} PlacedInOrder(sizes: seq<real>, begins: seq<real>, start: real, gap: real, available: real)
    requires |begins| == |sizes| > 0 && gap >= 0.0 && forall i :: 0 <= i < |sizes| ==> sizes[i] >= 0.0
    requires forall i :: 0 <= i < |begins| ==> begins[i] == BeginAt(sizes, start, gap, i)
    requires gap * (|sizes| - 1) as real + Sum(sizes) <= available
    ensures begins[0] == start && begins[|sizes| - 1] + sizes[|sizes| - 1] <= start + available
    ensures forall i, j :: 0 <= i < j < |sizes| ==> begins[i] + sizes[i] + gap <= begins[j]
  {
    hide BeginAt, Sum;
    FirstBegin(sizes, start, gap);
    LastBegin(sizes, start, gap);
    forall i, j | 0 <= i < j < |sizes| ensures begins[i] + sizes[i] + gap <= begins[j] { Follows(sizes, start, gap, i, j); }
  }

  lemma LastBegin(sizes: seq<real>, start: real, gap: real)
    requires sizes != []
    ensures BeginAt(sizes, start, gap, |sizes| - 1) + sizes[|sizes| - 1] == start + Sum(sizes) + gap * (|sizes| - 1) as real
  {
    hide Sum;
    SumNext(sizes, |sizes| - 1);
    assert sizes[..|sizes|] == sizes;
  }

  lemma {:induction false} Follows(sizes: seq<real>, start: real, gap: real, i: nat, j: nat)
    requires i < j < |sizes| && gap >= 0.0 && forall k :: 0 <= k < |sizes| ==> sizes[k] >= 0.0
    ensures BeginAt(sizes, start, gap, i) + sizes[i] + gap <= BeginAt(sizes, start, gap, j)
    decreases j
  {
    hide BeginAt;
    BeginNext(sizes, start, gap, j - 1);
    if i == j - 1 {
    } else {
      Follows(sizes, start, gap, i, j - 1);
    }
  }

  // ---- an early end ----

  // The children that may still grow at these sizes.
  function Roomy(children: seq<Child>, sizes: seq<real>): (r: seq<bool>)
    requires |children| == |sizes|
    ensures |r| == |children|
  {
    NowOpen(children, AllOpen(|children|), sizes)
  }

  // Nothing worth sharing is left, or nobody has both weight and room for it.
  predicate Spent(children: seq<Child>, sizes: seq<real>, left: real)
    requires |children| == |sizes|
  {
    left <= EPSILON || Sum(OpenWeights(children, Roomy(children, sizes))) <= EPSILON
  }

  // The row or column ends with its space used as far as its children can use it.
  predicate WellUsed(children: seq<Child>, available: real, gaps: real) {
    var r := MainSizes(children, available, gaps);
    Spent(children, r, available - (gaps + Sum(r)))
  }

  // There is space to share, yet the first round, which full children can spoil, gives out next to nothing of it and
  // leaves some that could be used.
  predicate FirstRoundStalls(children: seq<Child>, available: real, gaps: real) {
    var open, initial := AllOpen(|children|), Initials(children);
    var remaining, weight := available - (gaps + Sum(initial)), Sum(OpenWeights(children, open));
    && remaining > EPSILON && weight > EPSILON
    && var gains := Gains(children, open, initial, remaining, weight);
       Sum(gains) <= EPSILON && !Spent(children, Plus(initial, gains), remaining - Sum(gains))
  }

  lemma AllHaveRoom(c: Child, open: bool, size: real, remaining: real, weight: real)
    requires weight > 0.0 && remaining >= 0.0 && StaysOpen(c, open, size)
    requires Gain(c, open, size, remaining, weight) <= EPSILON
    ensures Gain(c, open, size, remaining, weight) == Share(c, open, remaining, weight)
  {
    ShareNotNegative(c, open, remaining, weight);
    if !Grows(c, open) { ZeroShare(c, open, remaining, weight); }
  }

  // Among children that all have room, a round that gives out next to nothing had next to nothing to give.
  lemma RoundOfRoomy(children: seq<Child>, open: seq<bool>, sizes: seq<real>, remaining: real, weight: real)
    requires |children| == |open| == |sizes| && weight > 0.0 && remaining >= 0.0
    requires weight == Sum(OpenWeights(children, open))
    requires forall i :: 0 <= i < |children| ==> open[i] ==> StaysOpen(children[i], open[i], sizes[i])
    ensures var gains := Gains(children, open, sizes, remaining, weight); Sum(gains) <= EPSILON ==> Sum(gains) == remaining
  {
    hide Gain, Share, Sum, StaysOpen;
    var gains := Gains(children, open, sizes, remaining, weight);
    if Sum(gains) <= EPSILON {
      GainsNotNegative(children, open, sizes, remaining, weight);
      forall i | 0 <= i < |children| ensures gains[i] == Share(children[i], open[i], remaining, weight) {
        OneOfSum(gains, i);
        if open[i] {
          AllHaveRoom(children[i], open[i], sizes[i], remaining, weight);
        } else {
          NoGain(children[i], open[i], sizes[i], remaining, weight);
          ZeroShare(children[i], open[i], remaining, weight);
        }
      }
      SharesAddUp(children, open, gains, remaining, weight);
    }
  }

  // Growing closes children and opens none.
  lemma RoomyNext(children: seq<Child>, sizes: seq<real>, next: seq<real>)
    requires |children| == |sizes| == |next| && forall i :: 0 <= i < |sizes| ==> sizes[i] <= next[i]
    ensures NowOpen(children, Roomy(children, sizes), next) == Roomy(children, next)
  {}

  // Once the children that are open are those with room, sharing goes on until the space is used.
  lemma {:induction false} LaterRounds(children: seq<Child>, sizes: seq<real>, remaining: real)
    requires |children| == |sizes| && remaining >= 0.0
    ensures var r := Stretched(children, Roomy(children, sizes), sizes, remaining);
            Spent(children, r, remaining - (Sum(r) - Sum(sizes)))
    decreases GrowingCount(children, Roomy(children, sizes)) + (if remaining > EPSILON then 1 else 0)
  {
    hide Gain, GrowingCount, Sum, StaysOpen;
    var open := Roomy(children, sizes);
    var weight := Sum(OpenWeights(children, open));
    if remaining > EPSILON && weight > EPSILON {
      var gains := Gains(children, open, sizes, remaining, weight);
      var next := Plus(sizes, gains);
      RoundGives(children, open, sizes, remaining, weight);
      SumPlus(sizes, gains);
      GainsNotNegative(children, open, sizes, remaining, weight);
      RoomyNext(children, sizes, next);
      if Sum(gains) > EPSILON {
        LaterRounds(children, next, remaining - Sum(gains));
      } else {
        RoomyStaysOpen(children, sizes);
        RoundOfRoomy(children, open, sizes, remaining, weight);
      }
    }
  }

  lemma RoomyStaysOpen(children: seq<Child>, sizes: seq<real>)
    requires |children| == |sizes|
    ensures forall i :: 0 <= i < |children| ==> Roomy(children, sizes)[i] ==> StaysOpen(children[i], Roomy(children, sizes)[i], sizes[i])
  {}

  // Space that could be used stays unused exactly when the first round stalls. No later round can.
  lemma WellUsedExactly(children: seq<Child>, available: real, gaps: real)
    ensures WellUsed(children, available, gaps) <==> !FirstRoundStalls(children, available, gaps)
  {
    hide Sum, Gain, GrowingCount, StaysOpen, Spent, Shrunk;
    var open, initial := AllOpen(|children|), Initials(children);
    var remaining, weight := available - (gaps + Sum(initial)), Sum(OpenWeights(children, open));
    if remaining > EPSILON && weight > EPSILON {
      var gains := Gains(children, open, initial, remaining, weight);
      var next := Plus(initial, gains);
      RoundGives(children, open, initial, remaining, weight);
      SumPlus(initial, gains);
      if Sum(gains) > EPSILON { LaterRounds(children, next, remaining - Sum(gains)); }
    } else {
      NothingToShare(children, available, gaps);
    }
  }

  lemma NothingToShare(children: seq<Child>, available: real, gaps: real)
    requires var initial := Initials(children);
             available - (gaps + Sum(initial)) <= EPSILON || Sum(OpenWeights(children, AllOpen(|children|))) <= EPSILON
    ensures WellUsed(children, available, gaps)
  {
    hide Sum, Stretched, Shrunk, StaysOpen, Initial;
    var initial := Initials(children);
    MainSizesFacts(children, available, gaps);
    SumOfSlacks(children);
    if available - (gaps + Sum(initial)) > EPSILON {
      LessOpenWeight(children, AllOpen(|children|), initial);
    }
  }

  lemma SumOfSlacks(children: seq<Child>)
    ensures Sum(Slacks(children, Initials(children))) >= 0.0
  {
    hide Sum;
    NotNegative(Slacks(children, Initials(children)));
  }

  // In particular it is always well used when every child that stretches has room to begin with.
  lemma RoomToBegin(children: seq<Child>, available: real, gaps: real)
    requires forall c :: c in children && c.length.kind == Stretch ==> HasRoom(c, Initial(c))
    ensures WellUsed(children, available, gaps)
  {
    hide Sum, Stretched, Shrunk, Initial, Spent;
    var open, initial := AllOpen(|children|), Initials(children);
    var remaining := available - (gaps + Sum(initial));
    if remaining > EPSILON && Sum(OpenWeights(children, open)) > EPSILON {
      assert Roomy(children, initial) == open by {
        forall i | 0 <= i < |children| ensures Roomy(children, initial)[i] { assert children[i] in children; }
      }
      LaterRounds(children, initial, remaining);
    } else {
      NothingToShare(children, available, gaps);
    }
  }

  // A heavy child that is already full can use up a whole round: the light one beside it is left with next to nothing
  // although it could take everything.
  lemma StopsEarly()
    ensures var full := Child(LayoutLength(Stretch, 0.0, 0.0, Upto(0.0), 1000000.0), 0.0);
            var light := Child(LayoutLength(Stretch, 0.0, 0.0, Unbounded, 1.0), 0.0);
            var r := MainSizes([full, light], 1.0, 0.0);
            r[0] == 0.0 && r[1] == 1.0 / 1000001.0 && !WellUsed([full, light], 1.0, 0.0)
  {
    var full := Child(LayoutLength(Stretch, 0.0, 0.0, Upto(0.0), 1000000.0), 0.0);
    var light := Child(LayoutLength(Stretch, 0.0, 0.0, Unbounded, 1.0), 0.0);
    var children := [full, light];
    var open := AllOpen(2);
    TwoSum(Initials(children));
    TwoSum(OpenWeights(children, open));
    var gains := Gains(children, open, Initials(children), 1.0, 1000001.0);
    TwoSum(gains);
    var r := MainSizes(children, 1.0, 0.0);
    TwoSum(r);
    TwoSum(OpenWeights(children, Roomy(children, r)));
  }

  lemma TwoSum(xs: seq<real>)
    requires |xs| == 2
    ensures Sum(xs) == xs[0] + xs[1]
  {
    SumNext(xs, 0);
    SumNext(xs, 1);
    assert xs[..2] == xs && xs[..0] == [];
  }
}
