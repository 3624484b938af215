/**
 Cohen's kappa between two annotators (tools/cs_interview_labeled_import.py), over exact
 rationals: label pairs are counted, and sums over labels range over a finite set.
 */
module Kappa {

  import opened Wrappers

  type Label = int
  type Pairs = seq<(Label, Label)>

  // ----- sums over finite sets of labels -----

  ghost function Pick<T>(labels: set<T>): (l: T)
    requires labels != {}
    ensures l in labels
  {
    var l :| l in labels; l
  }

  ghost function Sum(labels: set<Label>, f: Label -> int): int {
    if labels == {} then 0 else var l := Pick(labels); f(l) + Sum(labels - {l}, f)
  }

  ghost function RealSum(labels: set<Label>, f: Label -> real): real {
    if labels == {} then 0.0 else var l := Pick(labels); f(l) + RealSum(labels - {l}, f)
  }

  /** Sums are monotone, and equal sums of ordered terms have equal terms. */
  lemma {:induction false} SumMonotone(labels: set<Label>, f: Label -> int, g: Label -> int)
    requires forall l :: l in labels ==> f(l) <= g(l)
    ensures Sum(labels, f) <= Sum(labels, g)
    ensures Sum(labels, f) == Sum(labels, g) ==> forall l :: l in labels ==> f(l) == g(l)
  {
    if labels != {} {
      SumMonotone(labels - {Pick(labels)}, f, g);
    }
  }

  lemma {:induction false} SumAdd(labels: set<Label>, f: Label -> int, g: Label -> int, h: Label -> int)
    requires forall l :: l in labels ==> h(l) == f(l) + g(l)
    ensures Sum(labels, h) == Sum(labels, f) + Sum(labels, g)
  {
    if labels != {} {
      SumAdd(labels - {Pick(labels)}, f, g, h);
    }
  }

  lemma {:induction false} SumScale(labels: set<Label>, c: int, f: Label -> int, h: Label -> int)
    requires forall l :: l in labels ==> h(l) == c * f(l)
    ensures Sum(labels, h) == c * Sum(labels, f)
  {
    if labels != {} {
      var l := Pick(labels);
      SumScale(labels - {l}, c, f, h);
      assert c * (f(l) + Sum(labels - {l}, f)) == c * f(l) + c * Sum(labels - {l}, f);
    }
  }

  /** The sum of an indicator function counts its one element. */
  lemma {:induction false} SumIndicator(labels: set<Label>, k: Label)
    ensures Sum(labels, Indicator(k)) == if k in labels then 1 else 0
  {
    if labels != {} {
      SumIndicator(labels - {Pick(labels)}, k);
    }
  }

  // ----- counters -----

  function CountA(pairs: Pairs, l: Label): nat {
    if pairs == [] then 0 else CountA(pairs[1..], l) + if pairs[0].0 == l then 1 else 0
  }

  function CountB(pairs: Pairs, l: Label): nat {
    if pairs == [] then 0 else CountB(pairs[1..], l) + if pairs[0].1 == l then 1 else 0
  }

  function CountBoth(pairs: Pairs, l: Label): nat {
    if pairs == [] then 0 else CountBoth(pairs[1..], l) + if pairs[0] == (l, l) then 1 else 0
  }

  function Agreements(pairs: Pairs): nat {
    if pairs == [] then 0 else Agreements(pairs[1..]) + if pairs[0].0 == pairs[0].1 then 1 else 0
  }

  ghost function CountsA(pairs: Pairs): Label -> int { l => CountA(pairs, l) }
  ghost function CountsB(pairs: Pairs): Label -> int { l => CountB(pairs, l) }
  ghost function CountsBoth(pairs: Pairs): Label -> int { l => CountBoth(pairs, l) }
  ghost function Products(pairs: Pairs): Label -> int { l => CountA(pairs, l) * CountB(pairs, l) }
  ghost function Scaled(c: int, f: Label -> int): Label -> int { l => c * f(l) }
  ghost function Plus(f: Label -> int, g: Label -> int): Label -> int { l => f(l) + g(l) }
  ghost function Indicator(k: Label): Label -> int { l => if l == k then 1 else 0 }

  /** `set(count_a) | set(count_b)` */
  ghost function Labels(pairs: Pairs): set<Label> {
    (set p | p in pairs :: p.0) + (set p | p in pairs :: p.1)
  }

  // ----- the statistic -----

  ghost function Observed(pairs: Pairs): real
    requires pairs != []
  {
    Agreements(pairs) as real / |pairs| as real
  }

  ghost function Expected(pairs: Pairs): real
    requires pairs != []
  {
    RealSum(Labels(pairs), ChanceShares(pairs))
  }

  ghost function ChanceShares(pairs: Pairs): Label -> real
    requires pairs != []
  {
    l => (CountA(pairs, l) as real / |pairs| as real) * (CountB(pairs, l) as real / |pairs| as real)
  }

  /** The value before it is rounded. */
  ghost function CohensKappa(pairs: Pairs): Option<real> {
    if |pairs| < 2 || Expected(pairs) == 1.0 then None
    else Some((Observed(pairs) - Expected(pairs)) / (1.0 - Expected(pairs)))
  }

  /** `r` is `x` rounded to four decimals, whichever way ties go. */
  ghost predicate RoundsTo(x: real, r: real) {
    exists m: int :: Nearest(x, m) && r == m as real / 10000.0
  }

  ghost predicate Nearest(x: real, m: int) {
    m as real - 0.5 <= x * 10000.0 <= m as real + 0.5
  }

  // ----- counting lemmas -----

  lemma {:induction false} CountBounds(pairs: Pairs, l: Label)
    ensures CountA(pairs, l) <= |pairs| && CountB(pairs, l) <= |pairs|
    ensures CountBoth(pairs, l) >= CountA(pairs, l) + CountB(pairs, l) - |pairs|
    ensures CountA(pairs, l) == |pairs| <==> forall p :: p in pairs ==> p.0 == l
    ensures CountB(pairs, l) == |pairs| <==> forall p :: p in pairs ==> p.1 == l
  {
    if pairs != [] {
      CountBounds(pairs[1..], l);
      assert forall p :: p in pairs <==> p == pairs[0] || p in pairs[1..];
    }
  }

  lemma {:induction false} Occurs(pairs: Pairs, p: (Label, Label))
    requires p in pairs
    ensures CountA(pairs, p.0) > 0 && CountB(pairs, p.1) > 0
  {
    if pairs[0] != p {
      Occurs(pairs[1..], p);
    }
  }

  lemma {:induction false} FullAgreement(pairs: Pairs)
    ensures Agreements(pairs) <= |pairs|
    ensures Agreements(pairs) == |pairs| <==> forall p :: p in pairs ==> p.0 == p.1
  {
    if pairs != [] {
      FullAgreement(pairs[1..]);
      assert forall p :: p in pairs <==> p == pairs[0] || p in pairs[1..];
    }
  }

  /** The marginals add up to the sample, and the diagonal to the agreements. */
  lemma {:induction false} MarginalSums(pairs: Pairs, labels: set<Label>)
    requires forall p :: p in pairs ==> p.0 in labels && p.1 in labels
    ensures Sum(labels, CountsA(pairs)) == |pairs|
    ensures Sum(labels, CountsB(pairs)) == |pairs|
    ensures Sum(labels, CountsBoth(pairs)) == Agreements(pairs)
  {
    hide Sum, Indicator;
    if pairs == [] {
      SumScale(labels, 0, CountsA(pairs), CountsA(pairs));
      SumScale(labels, 0, CountsB(pairs), CountsB(pairs));
      SumScale(labels, 0, CountsBoth(pairs), CountsBoth(pairs));
    } else {
      var rest, a, b := pairs[1..], pairs[0].0, pairs[0].1;
      MarginalSums(rest, labels);
      SumIndicator(labels, a);
      SumIndicator(labels, b);
      OnePairMore(pairs);
      SumAdd(labels, CountsA(rest), Indicator(a), CountsA(pairs));
      SumAdd(labels, CountsB(rest), Indicator(b), CountsB(pairs));
      if a == b {
        SumAdd(labels, CountsBoth(rest), Indicator(a), CountsBoth(pairs));
      } else {
        SumScale(labels, 1, CountsBoth(rest), CountsBoth(pairs));
      }
    }
  }

  lemma {:induction false} OnePairMore(pairs: Pairs)
    requires pairs != []
    ensures forall l :: CountsA(pairs)(l) == CountsA(pairs[1..])(l) + Indicator(pairs[0].0)(l)
    ensures forall l :: CountsB(pairs)(l) == CountsB(pairs[1..])(l) + Indicator(pairs[0].1)(l)
    ensures forall l :: CountsBoth(pairs)(l) ==
                        CountsBoth(pairs[1..])(l) + (if pairs[0].0 == pairs[0].1 then Indicator(pairs[0].0)(l) else 0)
  {
  }

  lemma {:induction false} ScaledShares(pairs: Pairs, labels: set<Label>, nn: real)
    requires pairs != [] && nn == |pairs| as real * |pairs| as real
    ensures RealSum(labels, ChanceShares(pairs)) * nn == Sum(labels, Products(pairs)) as real
  {
    hide ChanceShares, Products;
    if labels != {} {
      var l := Pick(labels);
      ScaledShares(pairs, labels - {l}, nn);
      assert ChanceShares(pairs)(l) * nn == Products(pairs)(l) as real by {
        ScaledShareAt(pairs, l);
      }
      ScaledSum(ChanceShares(pairs)(l), RealSum(labels - {l}, ChanceShares(pairs)), nn,
                Products(pairs)(l), Sum(labels - {l}, Products(pairs)));
    }
  }

  lemma {:induction false} ScaledShareAt(pairs: Pairs, l: Label)
    requires pairs != []
    ensures ChanceShares(pairs)(l) * (|pairs| as real * |pairs| as real) == Products(pairs)(l) as real
  {
    ScaledShare(CountA(pairs, l), CountB(pairs, l), |pairs|);
  }

  lemma {:induction false} ScaledSum(x: real, y: real, nn: real, a: int, b: int)
    requires x * nn == a as real && y * nn == b as real
    ensures (x + y) * nn == (a + b) as real
  {
    Distribute(x, y, nn);
  }

  lemma {:induction false} ScaledShare(a: nat, b: nat, n: nat)
    requires n > 0
    ensures ((a as real / n as real) * (b as real / n as real)) * (n as real * n as real) == (a * b) as real
  {
    Rescale(a as real / n as real, b as real / n as real, n as real);
    assert (a * b) as real == a as real * b as real;
  }

  lemma {:induction false} Rescale(x: real, y: real, n: real)
    ensures (x * y) * (n * n) == (x * n) * (y * n)
  {
    calc {
      (x * y) * (n * n);
      x * (y * (n * n));
      x * (n * (y * n));
      (x * n) * (y * n);
    }
  }

  lemma {:induction false} Distribute(x: real, y: real, z: real)
    ensures (x + y) * z == x * z + y * z
  {
  }

  // ----- the two bounds -----

  /** Per label: four times the product of the marginals is within what the marginals and the diagonal allow. */
  lemma {:induction false} LabelBound(a: int, b: int, both: int, n: int)
    requires 0 <= a <= n && 0 <= b <= n && 0 <= both && a + b - n <= both
    ensures 4 * (a * b) <= n * (a + b) + 2 * n * both
  {
    var s := a + b;
    SumAndDifference(a, b);
    if s <= n {
      assert s * s <= n * s;
      assert 2 * n * both >= 0;
    } else {
      Between(s, n);
      assert 2 * n * both >= 2 * n * (s - n);
    }
  }

  lemma {:induction false} SumAndDifference(a: int, b: int)
    ensures 4 * (a * b) <= (a + b) * (a + b)
  {
    var d := a - b;
    assert a + b == 2 * b + d;
    assert (2 * b + d) * (2 * b + d) == 4 * (b * b) + 4 * (b * d) + d * d;
    assert a * b == b * b + b * d;
    assert d * d >= 0;
  }

  lemma {:induction false} Between(s: int, n: int)
    requires n <= s <= 2 * n
    ensures s * s <= n * s + 2 * n * (s - n)
  {
    var x := s - n;
    assert s == n + x;
    assert (n + x) * (n + x) == n * n + 2 * (n * x) + x * x;
    assert n * (n + x) + 2 * n * x == n * n + 3 * (n * x);
    assert x * x <= n * x;
  }

  /** observed >= 2 * expected - 1, for every pair of marginals (scaled by the squared sample size). */
  lemma {:induction false} LowerBound(pairs: Pairs)
    requires pairs != []
    ensures 2 * Sum(Labels(pairs), Products(pairs)) <= |pairs| * |pairs| + |pairs| * Agreements(pairs)
  {
    hide Sum, Labels, Agreements, Products, CountsA, CountsB, CountsBoth, Scaled, Plus;
    var n, labels := |pairs|, Labels(pairs);
    var margins := Plus(CountsA(pairs), CountsB(pairs));
    forall l ensures Scaled(4, Products(pairs))(l) <= Plus(Scaled(n, margins), Scaled(2 * n, CountsBoth(pairs)))(l) {
      LabelBoundAt(pairs, l);
    }
    SumMonotone(labels, Scaled(4, Products(pairs)), Plus(Scaled(n, margins), Scaled(2 * n, CountsBoth(pairs))));
    SumScaled(labels, 4, Products(pairs));
    SumPlus(labels, CountsA(pairs), CountsB(pairs));
    SumScaled(labels, n, margins);
    SumScaled(labels, 2 * n, CountsBoth(pairs));
    SumPlus(labels, Scaled(n, margins), Scaled(2 * n, CountsBoth(pairs)));
    LabelsCover(pairs);
    MarginalSums(pairs, labels);
    assert n * (n + n) == 2 * (n * n);
    assert 2 * n * Agreements(pairs) == 2 * (n * Agreements(pairs));
  }

  lemma {:induction false} LabelBoundAt(pairs: Pairs, l: Label)
    ensures var n := |pairs|;
            Scaled(4, Products(pairs))(l)
            <= Plus(Scaled(n, Plus(CountsA(pairs), CountsB(pairs))), Scaled(2 * n, CountsBoth(pairs)))(l)
  {
    hide CountA, CountB, CountBoth;
    CountBounds(pairs, l);
    LabelBound(CountA(pairs, l), CountB(pairs, l), CountBoth(pairs, l), |pairs|);
  }

  lemma {:induction false} SumScaled(labels: set<Label>, c: int, f: Label -> int)
    ensures Sum(labels, Scaled(c, f)) == c * Sum(labels, f)
  {
    SumScale(labels, c, f, Scaled(c, f));
  }

  lemma {:induction false} SumPlus(labels: set<Label>, f: Label -> int, g: Label -> int)
    ensures Sum(labels, Plus(f, g)) == Sum(labels, f) + Sum(labels, g)
  {
    SumAdd(labels, f, g, Plus(f, g));
  }

  lemma {:induction false} LabelsCover(pairs: Pairs)
    ensures forall p :: p in pairs ==> p.0 in Labels(pairs) && p.1 in Labels(pairs)
  {
  }

  ghost predicate OneLabelThroughout(pairs: Pairs) {
    exists l :: forall p :: p in pairs ==> p == (l, l)
  }

  /** Chance agreement is at most certain, and certain exactly when both raters use one same label. */
  lemma {:induction false} UpperBound(pairs: Pairs)
    requires pairs != []
    ensures Sum(Labels(pairs), Products(pairs)) <= |pairs| * |pairs|
    ensures Sum(Labels(pairs), Products(pairs)) == |pairs| * |pairs| <==> OneLabelThroughout(pairs)
  {
    hide Sum, Labels, OneLabelThroughout, CountA, CountB;
    var n, labels := |pairs|, Labels(pairs);
    forall l ensures Products(pairs)(l) <= Scaled(n, CountsA(pairs))(l) {
      ProductBound(pairs, l);
    }
    SumMonotone(labels, Products(pairs), Scaled(n, CountsA(pairs)));
    SumScaled(labels, n, CountsA(pairs));
    LabelsCover(pairs);
    MarginalSums(pairs, labels);
    if Sum(labels, Products(pairs)) == n * n {
      CertainMeansOneLabel(pairs);
    }
    if OneLabelThroughout(pairs) {
      OneLabelIsCertain(pairs);
    }
  }

  lemma {:induction false} ProductBound(pairs: Pairs, l: Label)
    ensures Products(pairs)(l) <= Scaled(|pairs|, CountsA(pairs))(l)
  {
    hide CountA, CountB;
    CountBounds(pairs, l);
    ScaledProduct(CountA(pairs, l), CountB(pairs, l), |pairs|);
  }

  lemma {:induction false} ScaledProduct(a: nat, b: nat, n: nat)
    requires b <= n
    ensures a * b <= n * a
  {
    assert a * (n - b) >= 0;
  }

  lemma {:induction false} CertainMeansOneLabel(pairs: Pairs)
    requires pairs != []
    requires forall l :: l in Labels(pairs) ==> CountA(pairs, l) * CountB(pairs, l) == |pairs| * CountA(pairs, l)
    ensures OneLabelThroughout(pairs)
  {
    hide CountA, CountB, Labels;
    LabelsCover(pairs);
    var k := pairs[0].0;
    forall p | p in pairs ensures forall q :: q in pairs ==> q.1 == p.0 {
      Occurs(pairs, p);
      CountBounds(pairs, p.0);
      Cancel(CountA(pairs, p.0), CountB(pairs, p.0), |pairs|);
    }
    forall p | p in pairs ensures p == (k, k) {
      assert pairs[0].1 == p.0 && pairs[0].1 == k && p.1 == k;
    }
  }

  lemma Cancel(a: int, b: int, n: int)
    requires a * b == n * a && a > 0
    ensures b == n
  {
    assert a * (b - n) == 0;
  }

  lemma {:induction false} OneLabelIsCertain(pairs: Pairs)
    requires pairs != [] && OneLabelThroughout(pairs)
    ensures Sum(Labels(pairs), Products(pairs)) == |pairs| * |pairs|
  {
    var k :| forall p :: p in pairs ==> p == (k, k);
    CountBounds(pairs, k);
    assert pairs[0] in pairs;
    assert Labels(pairs) == {k};
    assert Labels(pairs) - {k} == {};
    assert Sum(Labels(pairs), Products(pairs)) == Products(pairs)(k);
  }

  // ----- main results -----

  /** Chance agreement never exceeds 1, and observed agreement is at least twice it less 1. */
  lemma {:induction false} ExpectedBounds(pairs: Pairs)
    requires pairs != []
    ensures Expected(pairs) <= 1.0
    ensures Expected(pairs) == 1.0 <==> OneLabelThroughout(pairs)
    ensures 2.0 * Expected(pairs) - 1.0 <= Observed(pairs) <= 1.0
    ensures Observed(pairs) == 1.0 <==> forall p :: p in pairs ==> p.0 == p.1
  {
    hide Sum, RealSum, Labels, Products, ChanceShares, Agreements, OneLabelThroughout;
    ScaledShares(pairs, Labels(pairs), |pairs| as real * |pairs| as real);
    LowerBound(pairs);
    UpperBound(pairs);
    FullAgreement(pairs);
    Divide(|pairs|, Sum(Labels(pairs), Products(pairs)), Agreements(pairs), Expected(pairs));
  }

  lemma {:induction false} Divide(n: int, products: int, agreements: int, e: real)
    requires n > 0 && agreements <= n && products <= n * n && 2 * products <= n * n + n * agreements
    requires e * (n as real * n as real) == products as real
    ensures e <= 1.0 && (e == 1.0 <==> products == n * n)
    ensures var o := agreements as real / n as real; 2.0 * e - 1.0 <= o <= 1.0 && (o == 1.0 <==> agreements == n)
  {
    var m, o := n as real, agreements as real / n as real;
    var mm := m * m;
    assert mm > 0.0 && mm == (n * n) as real;
    assert o * m == agreements as real;
    QuotientOrder(agreements as real, m);
    assert o * mm == (n * agreements) as real by {
      Reassociate(o, m);
    }
    Compare(e, o, mm, products, n * n, n * agreements);
  }

  lemma {:induction false} Compare(e: real, o: real, mm: real, products: int, nn: int, na: int)
    requires mm > 0.0 && mm == nn as real && e * mm == products as real && o * mm == na as real
    requires products <= nn && 2 * products <= nn + na
    ensures e <= 1.0 && (e == 1.0 <==> products == nn) && 2.0 * e - 1.0 <= o
  {
    Expand(e, o, mm);
    SignOfProduct(e - 1.0, mm);
    SignOfProduct(2.0 * e - 1.0 - o, mm);
  }

  lemma Expand(e: real, o: real, mm: real)
    ensures (e - 1.0) * mm == e * mm - mm
    ensures (2.0 * e - 1.0 - o) * mm == 2.0 * (e * mm) - mm - o * mm
  {
  }

  lemma Reassociate(o: real, m: real)
    ensures o * (m * m) == m * (o * m)
  {
  }

  /** Kappa is undefined exactly for fewer than two pairs, or when both raters use one and the same label. */
  lemma {:induction false} UndefinedIffOneLabel(pairs: Pairs)
    ensures CohensKappa(pairs).None? <==> |pairs| < 2 || OneLabelThroughout(pairs)
  {
    if |pairs| >= 2 {
      ExpectedBounds(pairs);
    }
  }

  // ----- what the number is -----

  /** The counters count. */
  lemma {:induction false} CountersCount(pairs: Pairs, l: Label)
    ensures CountA(pairs, l) == |set i | 0 <= i < |pairs| && pairs[i].0 == l|
    ensures CountB(pairs, l) == |set i | 0 <= i < |pairs| && pairs[i].1 == l|
    ensures Agreements(pairs) == |set i | 0 <= i < |pairs| && pairs[i].0 == pairs[i].1|
  {
    CountIndices(pairs, (p: (Label, Label)) => p.0 == l);
    CountIndices(pairs, (p: (Label, Label)) => p.1 == l);
    CountIndices(pairs, (p: (Label, Label)) => p.0 == p.1);
    CountsAreSatisfying(pairs, l);
    assert (set i | 0 <= i < |pairs| && pairs[i].0 == l) == Indices(pairs, (p: (Label, Label)) => p.0 == l);
    assert (set i | 0 <= i < |pairs| && pairs[i].1 == l) == Indices(pairs, (p: (Label, Label)) => p.1 == l);
    assert (set i | 0 <= i < |pairs| && pairs[i].0 == pairs[i].1) == Indices(pairs, (p: (Label, Label)) => p.0 == p.1);
  }

  ghost function Indices(pairs: Pairs, good: ((Label, Label)) -> bool): set<int> {
    set i | 0 <= i < |pairs| && good(pairs[i])
  }

  ghost function Satisfying(pairs: Pairs, good: ((Label, Label)) -> bool): nat {
    if pairs == [] then 0 else (if good(pairs[0]) then 1 else 0) + Satisfying(pairs[1..], good)
  }

  lemma {:induction false} CountsAreSatisfying(pairs: Pairs, l: Label)
    ensures CountA(pairs, l) == Satisfying(pairs, (p: (Label, Label)) => p.0 == l)
    ensures CountB(pairs, l) == Satisfying(pairs, (p: (Label, Label)) => p.1 == l)
    ensures Agreements(pairs) == Satisfying(pairs, (p: (Label, Label)) => p.0 == p.1)
  {
    if pairs != [] {
      CountsAreSatisfying(pairs[1..], l);
    }
  }

  lemma {:induction false} CountIndices(pairs: Pairs, good: ((Label, Label)) -> bool)
    ensures Satisfying(pairs, good) == |Indices(pairs, good)|
  {
    if pairs != [] {
      var n := |pairs| - 1;
      var init, last := pairs[..n], pairs[n];
      CountIndices(init, good);
      SatisfyingSnoc(init, last, good);
      assert init + [last] == pairs;
      assert Indices(pairs, good) == Indices(init, good) + (if good(last) then {n} else {});
    }
  }

  lemma {:induction false} SatisfyingSnoc(init: Pairs, last: (Label, Label), good: ((Label, Label)) -> bool)
    ensures Satisfying(init + [last], good) == Satisfying(init, good) + if good(last) then 1 else 0
  {
    if init == [] {
      assert init + [last] == [last] && [last][1..] == [];
    } else {
      assert (init + [last])[1..] == init[1..] + [last];
      SatisfyingSnoc(init[1..], last, good);
    }
  }

  /**
   On the counters: kappa times what chance leaves open is the agreement beyond chance. So it is zero
   exactly at chance level, and its sign says on which side of it the raters are.
   */
  lemma {:induction false} Value(pairs: Pairs)
    requires CohensKappa(pairs).Some?
    ensures var n, chance, k := |pairs|, Sum(Labels(pairs), Products(pairs)), CohensKappa(pairs).value;
            && chance < n * n
            && k * (n * n - chance) as real == (n * Agreements(pairs) - chance) as real
            && (k == 0.0 <==> n * Agreements(pairs) == chance)
            && (k > 0.0 <==> n * Agreements(pairs) > chance)
  {
    hide Sum, RealSum, Labels, Products, ChanceShares, Agreements, OneLabelThroughout;
    var n, chance, a := |pairs|, Sum(Labels(pairs), Products(pairs)), Agreements(pairs);
    var m, o, e := n as real, Observed(pairs), Expected(pairs);
    ScaledShares(pairs, Labels(pairs), m * m);
    UpperBound(pairs);
    ExpectedBounds(pairs);
    assert o * m == a as real;
    Reassociate(o, m);
    assert m * m == (n * n) as real && m * a as real == (n * a) as real;
    Cleared(o, e, m * m, CohensKappa(pairs).value);
    var d := (n * n - chance) as real;
    assert d == m * m - chance as real;
    SignOfProduct(CohensKappa(pairs).value, d);
  }

  lemma {:induction false} Cleared(o: real, e: real, mm: real, k: real)
    requires e < 1.0 && k == (o - e) / (1.0 - e)
    ensures k * (mm - e * mm) == o * mm - e * mm
  {
    assert k * (1.0 - e) == o - e;
    assert k * (mm - e * mm) == (k * (1.0 - e)) * mm;
    assert (o - e) * mm == o * mm - e * mm;
  }

  /** Between ratings with the same marginals, kappa orders by agreement. */
  lemma {:induction false} OrdersByAgreement(pairs: Pairs, others: Pairs)
    requires CohensKappa(pairs).Some? && CohensKappa(others).Some? && |pairs| == |others|
    requires forall l :: CountA(pairs, l) == CountA(others, l) && CountB(pairs, l) == CountB(others, l)
    ensures CohensKappa(pairs).value < CohensKappa(others).value <==> Agreements(pairs) < Agreements(others)
  {
    SameChance(pairs, others);
    var n, chance := |pairs|, Sum(Labels(pairs), Products(pairs));
    OrderedValues(pairs, others, n, chance, n * n, n * Agreements(pairs), n * Agreements(others));
  }

  lemma {:induction false} OrderedValues(pairs: Pairs, others: Pairs, n: int, chance: int, nn: int, na: int, na': int)
    requires CohensKappa(pairs).Some? && CohensKappa(others).Some? && n == |pairs| == |others|
    requires chance == Sum(Labels(pairs), Products(pairs)) == Sum(Labels(others), Products(others))
    requires nn == n * n && na == n * Agreements(pairs) && na' == n * Agreements(others)
    ensures CohensKappa(pairs).value < CohensKappa(others).value <==> Agreements(pairs) < Agreements(others)
  {
    hide Sum, Labels, Products, Agreements, CohensKappa;
    ValueOf(pairs, nn, na, chance, CohensKappa(pairs).value);
    ValueOf(others, nn, na', chance, CohensKappa(others).value);
    Ordered(nn, chance, na, na', CohensKappa(pairs).value, CohensKappa(others).value);
    SameFactor(n, Agreements(pairs), Agreements(others), na, na');
  }

  lemma {:induction false} ValueOf(pairs: Pairs, nn: int, na: int, chance: int, k: real)
    requires CohensKappa(pairs) == Some(k) && chance == Sum(Labels(pairs), Products(pairs))
    requires nn == |pairs| * |pairs| && na == |pairs| * Agreements(pairs)
    ensures |pairs| > 0 && chance < nn && k * (nn - chance) as real == (na - chance) as real
  {
    hide Sum, Labels, Products, Agreements, Observed, Expected;
    assert |pairs| > 0;
    hide *;
    Value(pairs);
  }

  lemma {:induction false} Ordered(nn: int, chance: int, na: int, na': int, k: real, k': real)
    requires chance < nn
    requires k * (nn - chance) as real == (na - chance) as real && k' * (nn - chance) as real == (na' - chance) as real
    ensures k < k' <==> na < na'
  {
    OrderedProducts(k, k', (nn - chance) as real, (na - chance) as real, (na' - chance) as real);
  }

  lemma {:induction false} OrderedProducts(k: real, k': real, d: real, p: real, p': real)
    requires d > 0.0 && k * d == p && k' * d == p'
    ensures k < k' <==> p < p'
  {
    Distribute(k', -k, d);
    SignOfProduct(k' - k, d);
    assert (-k) * d == -p;
  }

  lemma {:induction false} SameFactor(n: int, a: int, a': int, na: int, na': int)
    requires n > 0 && na == n * a && na' == n * a'
    ensures na < na' <==> a < a'
  {
    PositiveMultiple(n, a' - a);
    assert n * (a' - a) == na' - na;
  }

  lemma {:induction false} PositiveMultiple(n: int, x: int)
    requires n > 0
    ensures n * x > 0 <==> x > 0
  {
  }

  lemma {:induction false} SameChance(pairs: Pairs, others: Pairs)
    requires forall l :: CountA(pairs, l) == CountA(others, l) && CountB(pairs, l) == CountB(others, l)
    ensures Sum(Labels(pairs), Products(pairs)) == Sum(Labels(others), Products(others))
  {
    forall l ensures l in Labels(pairs) <==> l in Labels(others) {
      LabelsAreCounted(pairs, l);
      LabelsAreCounted(others, l);
    }
    assert Labels(pairs) == Labels(others);
    hide CountA, CountB;
    SumMonotone(Labels(pairs), Products(pairs), Products(others));
    SumMonotone(Labels(pairs), Products(others), Products(pairs));
  }

  lemma {:induction false} LabelsAreCounted(pairs: Pairs, l: Label)
    ensures l in Labels(pairs) <==> CountA(pairs, l) > 0 || CountB(pairs, l) > 0
  {
    if pairs != [] {
      LabelsAreCounted(pairs[1..], l);
      assert forall p :: p in pairs <==> p == pairs[0] || p in pairs[1..];
      assert l in Labels(pairs) <==> l == pairs[0].0 || l == pairs[0].1 || l in Labels(pairs[1..]);
    }
  }

  /** Where it is defined, kappa lies in [-1, 1] and is 1 exactly on full agreement; rounding keeps the range. */
  lemma {:induction false} Range(pairs: Pairs, r: real)
    requires CohensKappa(pairs).Some?
    ensures -1.0 <= CohensKappa(pairs).value <= 1.0
    ensures CohensKappa(pairs).value == 1.0 <==> forall p :: p in pairs ==> p.0 == p.1
    ensures RoundsTo(CohensKappa(pairs).value, r) ==> -1.0 <= r <= 1.0
  {
    ExpectedBounds(pairs);
    hide Observed, Expected;
    Normalise(Observed(pairs), Expected(pairs));
  }

  lemma {:induction false} Normalise(o: real, e: real)
    requires e < 1.0 && 2.0 * e - 1.0 <= o <= 1.0
    ensures var k := (o - e) / (1.0 - e); -1.0 <= k <= 1.0 && (k == 1.0 <==> o == 1.0)
  {
    QuotientOrder(o - e, 1.0 - e);
  }

  lemma {:induction false} QuotientOrder(x: real, d: real)
    requires d > 0.0
    ensures x / d <= 1.0 <==> x <= d
    ensures x / d >= -1.0 <==> x >= -d
    ensures x / d == 1.0 <==> x == d
  {
    var k := x / d;
    assert k * d == x;
    var above, below := k - 1.0, k + 1.0;
    assert above * d == x - d;
    assert below * d == x + d;
    SignOfProduct(above, d);
    SignOfProduct(below, d);
    assert below < 0.0 <==> x + d < 0.0;
  }

  lemma {:induction false} SignOfProduct(x: real, d: real)
    requires d > 0.0
    ensures x > 0.0 <==> x * d > 0.0
    ensures x < 0.0 <==> x * d < 0.0
  {
  }
}
