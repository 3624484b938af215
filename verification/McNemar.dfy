/**
 The exact McNemar test of the retrieval A/B report (tools/cs_interview_rag_ab_eval.py).

 The reference definition is a count: under the null hypothesis every discordant case is an
 improvement or a regression with equal chance, so the p-value is the fraction of all sign
 vectors whose number of improvements is at least as far from the middle as the observed one.
 */
module McNemar {

  /** `math.comb`, by Pascal's rule. */
  function Comb(n: nat, k: nat): nat {
    if k == 0 then 1 else if n == 0 then 0 else Comb(n - 1, k - 1) + Comb(n - 1, k)
  }

  /** Sum of `Comb(n, k)` for `k` in `range(m)`. */
  function CombSum(n: nat, m: nat): nat {
    if m == 0 then 0 else CombSum(n, m - 1) + Comb(n, m - 1)
  }

  function Pow2(n: nat): (p: nat)
    ensures p > 0
  {
    if n == 0 then 1 else 2 * Pow2(n - 1)
  }

  function Min(a: nat, b: nat): nat {
    if a <= b then a else b
  }

  /** The value before it is clipped at 1. */
  function RawProbability(improved: nat, regressed: nat): real {
    var discordant := improved + regressed;
    (2 * CombSum(discordant, Min(improved, regressed) + 1)) as real / Pow2(discordant) as real
  }

  function Exact(improved: nat, regressed: nat): real {
    if improved + regressed == 0 then 1.0
    else
      var probability := RawProbability(improved, regressed);
      if probability < 1.0 then probability else 1.0
  }

  // ----- the sample space -----

  /** All outcomes of `n` discordant cases; `true` is an improvement. */
  ghost function SignVectors(n: nat): set<seq<bool>> {
    if n == 0 then {[]} else Prepend(true, SignVectors(n - 1)) + Prepend(false, SignVectors(n - 1))
  }

  ghost function Prepend(b: bool, vs: set<seq<bool>>): set<seq<bool>> {
    set v | v in vs :: [b] + v
  }

  ghost function Improvements(v: seq<bool>): nat {
    if v == [] then 0 else (if v[0] then 1 else 0) + Improvements(v[1..])
  }

  /** Outcomes with exactly `k`, at most `m`, and at least `m` improvements. */
  ghost function Exactly(n: nat, k: int): set<seq<bool>> {
    set v | v in SignVectors(n) && Improvements(v) == k
  }

  ghost function AtMost(n: nat, m: int): set<seq<bool>> {
    set v | v in SignVectors(n) && Improvements(v) <= m
  }

  ghost function AtLeast(n: nat, m: int): set<seq<bool>> {
    set v | v in SignVectors(n) && Improvements(v) >= m
  }

  /** Outcomes at least as far from an even split as `improved` against `regressed`. */
  ghost function AsExtreme(improved: nat, regressed: nat): set<seq<bool>> {
    var n, lower := improved + regressed, Min(improved, regressed);
    set v | v in SignVectors(n) && (Improvements(v) <= lower || Improvements(v) >= n - lower)
  }

  // ----- counting -----

  lemma {:induction false} PrependSize(b: bool, vs: set<seq<bool>>)
    ensures |Prepend(b, vs)| == |vs|
  {
    if vs == {} {
      assert Prepend(b, vs) == {};
    } else {
      var v :| v in vs;
      PrependSize(b, vs - {v});
      assert Prepend(b, vs) == Prepend(b, vs - {v}) + {[b] + v};
      assert forall w: seq<bool> :: ([b] + w)[1..] == w;
      assert [b] + v !in Prepend(b, vs - {v});
    }
  }

  lemma {:induction false} SignVectorsMembers(n: nat)
    ensures forall v :: v in SignVectors(n) <==> |v| == n
  {
    if n > 0 {
      SignVectorsMembers(n - 1);
      forall v: seq<bool> | |v| == n ensures v in SignVectors(n) {
        assert v == [v[0]] + v[1..] && v[1..] in SignVectors(n - 1);
        assert v in Prepend(v[0], SignVectors(n - 1));
      }
    }
  }

  lemma {:induction false} DisjointHeads(vs: set<seq<bool>>, ws: set<seq<bool>>)
    ensures |Prepend(true, vs) + Prepend(false, ws)| == |vs| + |ws|
  {
    PrependSize(true, vs);
    PrependSize(false, ws);
    forall v | v in Prepend(true, vs) ensures v !in Prepend(false, ws) {
      assert v[0];
    }
    assert Prepend(true, vs) !! Prepend(false, ws);
  }

  lemma {:induction false} SignVectorsSize(n: nat)
    ensures |SignVectors(n)| == Pow2(n)
  {
    if n > 0 {
      SignVectorsSize(n - 1);
      DisjointHeads(SignVectors(n - 1), SignVectors(n - 1));
    }
  }

  lemma {:induction false} ExactlySplit(n: nat, k: nat)
    requires n > 0
    ensures Exactly(n, k) == Prepend(true, Exactly(n - 1, k - 1)) + Prepend(false, Exactly(n - 1, k))
  {
    SignVectorsMembers(n);
    SignVectorsMembers(n - 1);
    var parts := Prepend(true, Exactly(n - 1, k - 1)) + Prepend(false, Exactly(n - 1, k));
    forall v | v in Exactly(n, k) ensures v in parts {
      assert v == [v[0]] + v[1..] && v[1..] in Exactly(n - 1, if v[0] then k - 1 else k);
    }
    forall v | v in parts ensures v in Exactly(n, k) {
      assert |v| == n && v[1..] in SignVectors(n - 1);
    }
  }

  lemma {:induction false} ExactlyRecurrence(n: nat, k: nat)
    requires n > 0
    ensures |Exactly(n, k)| == |Exactly(n - 1, k - 1)| + |Exactly(n - 1, k)|
    ensures k == 0 ==> |Exactly(n - 1, k - 1)| == 0
  {
    hide SignVectors, Prepend, Improvements;
    ExactlySplit(n, k);
    DisjointHeads(Exactly(n - 1, k - 1), Exactly(n - 1, k));
    if k == 0 {
      assert Exactly(n - 1, -1) == {};
    }
  }

  lemma {:induction false} ExactlySize(n: nat, k: nat)
    ensures |Exactly(n, k)| == Comb(n, k)
  {
    hide Exactly;
    if n == 0 {
      ExactlyOfNone(k);
    } else {
      ExactlyRecurrence(n, k);
      PascalRule(n, k);
      ExactlySize(n - 1, k);
      if k > 0 {
        ExactlySize(n - 1, k - 1);
      }
    }
  }

  lemma {:induction false} ExactlyOfNone(k: nat)
    ensures |Exactly(0, k)| == Comb(0, k)
  {
    assert Exactly(0, k) == if k == 0 then {[]} else {};
  }

  lemma {:induction false} PascalRule(n: nat, k: nat)
    requires n > 0
    ensures Comb(n, k) == (if k == 0 then 0 else Comb(n - 1, k - 1)) + Comb(n - 1, k)
  {
  }

  lemma {:induction false} AtMostSize(n: nat, m: nat)
    ensures |AtMost(n, m)| == CombSum(n, m + 1)
  {
    ExactlySize(n, m);
    assert AtMost(n, m) == AtMost(n, m - 1) + Exactly(n, m);
    if m == 0 {
      assert AtMost(n, -1) == {};
    } else {
      AtMostSize(n, m - 1);
    }
  }

  ghost function Flip(v: seq<bool>): seq<bool> {
    seq(|v|, i requires 0 <= i < |v| => !v[i])
  }

  lemma {:induction false} FlipImprovements(v: seq<bool>)
    ensures Flip(Flip(v)) == v
    ensures Improvements(Flip(v)) == |v| - Improvements(v)
  {
    if v != [] {
      FlipImprovements(v[1..]);
      assert Flip(v)[1..] == Flip(v[1..]);
    }
  }

  lemma {:induction false} FlipSize(vs: set<seq<bool>>)
    ensures |set v | v in vs :: Flip(v)| == |vs|
  {
    var image := set v | v in vs :: Flip(v);
    if vs == {} {
      assert image == {};
    } else {
      var v :| v in vs;
      var rest := set w | w in vs - {v} :: Flip(w);
      FlipSize(vs - {v});
      assert image == rest + {Flip(v)};
      assert Flip(v) !in rest by {
        if Flip(v) in rest {
          var w :| w in vs - {v} && Flip(w) == Flip(v);
          FlipImprovements(v);
          FlipImprovements(w);
          assert false;
        }
      }
    }
  }

  /** Swapping improvements and regressions is a bijection, so both tails have the same size. */
  lemma {:induction false} TailsAreSymmetric(n: nat, m: nat)
    ensures |AtLeast(n, n - m)| == |AtMost(n, m)|
  {
    SignVectorsMembers(n);
    var image := set v | v in AtMost(n, m) :: Flip(v);
    forall v: seq<bool> ensures v in image <==> v in AtLeast(n, n - m) {
      FlipImprovements(v);
      if v in AtLeast(n, n - m) {
        assert Flip(v) in AtMost(n, m) && Flip(Flip(v)) in image;
      }
      if v in image {
        var w :| w in AtMost(n, m) && Flip(w) == v;
        FlipImprovements(w);
      }
    }
    assert image == AtLeast(n, n - m);
    FlipSize(AtMost(n, m));
  }

  /** Inclusion-exclusion over the two tails; they overlap only in an even split. */
  lemma {:induction false} TailOverlap(improved: nat, regressed: nat)
    ensures var n, lower := improved + regressed, Min(improved, regressed);
            && AsExtreme(improved, regressed) == AtMost(n, lower) + AtLeast(n, n - lower)
            && AtMost(n, lower) * AtLeast(n, n - lower) == (if improved == regressed then Exactly(n, lower) else {})
            && (improved == regressed ==> AsExtreme(improved, regressed) == SignVectors(n))
  {
  }

  lemma {:induction false} TailSizes(improved: nat, regressed: nat)
    ensures var n, lower := improved + regressed, Min(improved, regressed);
            && |AsExtreme(improved, regressed)| + (if improved == regressed then |Exactly(n, lower)| else 0)
               == |AtMost(n, lower)| + |AtLeast(n, n - lower)|
            && |AsExtreme(improved, regressed)| <= |SignVectors(n)|
            && (improved == regressed ==> |AsExtreme(improved, regressed)| == |SignVectors(n)|)
  {
    var n, lower := improved + regressed, Min(improved, regressed);
    TailOverlap(improved, regressed);
    UnionSize(AtMost(n, lower), AtLeast(n, n - lower));
    SubsetSize(AsExtreme(improved, regressed), SignVectors(n));
  }

  lemma {:induction false} TailCounts(improved: nat, regressed: nat, n: nat, lower: nat)
    requires n == improved + regressed && lower == Min(improved, regressed)
    ensures improved != regressed ==> 2 * CombSum(n, lower + 1) == |AsExtreme(improved, regressed)| <= Pow2(n)
    ensures improved == regressed ==> 2 * CombSum(n, lower + 1) == Pow2(n) + Comb(n, lower)
    ensures improved == regressed ==> |AsExtreme(improved, regressed)| == Pow2(n)
  {
    hide *;
    TailSizes(improved, regressed);
    TailValues(n, lower);
  }

  lemma {:induction false} TailValues(n: nat, lower: nat)
    ensures |AtMost(n, lower)| == |AtLeast(n, n - lower)| == CombSum(n, lower + 1)
    ensures |Exactly(n, lower)| == Comb(n, lower)
    ensures |SignVectors(n)| == Pow2(n)
  {
    AtMostSize(n, lower);
    TailsAreSymmetric(n, lower);
    ExactlySize(n, lower);
    SignVectorsSize(n);
  }

  lemma {:induction false} UnionSize<T>(a: set<T>, b: set<T>)
    ensures |a + b| + |a * b| == |a| + |b|
  {
  }

  lemma {:induction false} SubsetSize<T>(a: set<T>, b: set<T>)
    requires a <= b
    ensures |a| <= |b|
  {
    assert b == a + (b - a);
  }

  lemma {:induction false} CombPositive(n: nat, k: nat)
    requires k <= n
    ensures Comb(n, k) > 0
  {
    if 0 < k {
      CombPositive(n - 1, k - 1);
    }
  }

  // ----- main results -----

  /** The reported value is the exact two-sided tail probability, ties and the empty sample included. */
  lemma {:induction false} ExactIsTwoSidedTail(improved: nat, regressed: nat)
    ensures Exact(improved, regressed) * Pow2(improved + regressed) as real
         == |AsExtreme(improved, regressed)| as real
    ensures 0.0 < Exact(improved, regressed) <= 1.0
  {
    hide AsExtreme, Comb, Pow2;
    var n, lower := improved + regressed, Min(improved, regressed);
    TailCounts(improved, regressed, n, lower);
    CombPositive(n, lower);
    Quotient(2 * CombSum(n, lower + 1), Pow2(n));
  }

  lemma {:induction false} Quotient(a: nat, b: nat)
    requires b > 0
    ensures var q := a as real / b as real;
            && q * b as real == a as real
            && (q < 1.0 <==> a < b) && (q <= 1.0 <==> a <= b) && (a > 0 ==> q > 0.0)
  {
    var q := a as real / b as real;
    assert q * b as real == a as real;
    if q >= 1.0 {
      assert q * b as real >= b as real;
    } else {
      assert q * b as real < b as real;
    }
    if q > 1.0 {
      assert q * b as real > b as real;
    }
  }

  /** The clip at 1 binds exactly when improvements and regressions balance. */
  lemma {:induction false} ClipBindsOnlyOnTies(improved: nat, regressed: nat)
    ensures RawProbability(improved, regressed) > 1.0 <==> improved == regressed
    ensures improved != regressed ==> Exact(improved, regressed) == RawProbability(improved, regressed)
  {
    hide AsExtreme, Comb, Pow2;
    var n, lower := improved + regressed, Min(improved, regressed);
    TailCounts(improved, regressed, n, lower);
    CombPositive(n, lower);
    Quotient(2 * CombSum(n, lower + 1), Pow2(n));
  }

  lemma {:induction false} CombSumMonotone(n: nat, m: nat, m': nat)
    requires m <= m'
    ensures CombSum(n, m) <= CombSum(n, m')
  {
    if m < m' {
      CombSumMonotone(n, m, m' - 1);
    }
  }

  /** For a fixed number of discordant cases, a larger minority never looks more significant. */
  lemma {:induction false} ExactIsMonotone(improved: nat, regressed: nat, improved': nat, regressed': nat)
    requires improved + regressed == improved' + regressed'
    requires Min(improved, regressed) <= Min(improved', regressed')
    ensures Exact(improved, regressed) <= Exact(improved', regressed')
  {
    var n := improved + regressed;
    var a, a' := 2 * CombSum(n, Min(improved, regressed) + 1), 2 * CombSum(n, Min(improved', regressed') + 1);
    CombSumMonotone(n, Min(improved, regressed) + 1, Min(improved', regressed') + 1);
    QuotientMonotone(a as real, a' as real, Pow2(n) as real);
  }

  lemma {:induction false} QuotientMonotone(a: real, a': real, d: real)
    requires a <= a' && d > 0.0
    ensures a / d <= a' / d
  {
    var x := a' / d - a / d;
    assert x * d == a' - a;
    assert x < 0.0 ==> x * d < 0.0;
  }
}
