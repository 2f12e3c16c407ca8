/** Composite Simpson's 1/3 rule over sampled values, in two forms:
    the per-node weighted sum that the integrator's loop accumulates
    (weights 1, 4, 2, 4, ..., 2, 4, 1) and the textbook sum over panels
    [2p, 2p+2], each contributing v[2p] + 4 v[2p+1] + v[2p+2].
    The lemmas show the two agree and give the closed forms used to prove
    exactness for constant and linear integrands. */
module Simpson {

  /** Weight the integrator gives an interior node: 4 at odd indices, 2 at even ones. */
  function Coef(i: int): real
  {
    if i % 2 == 1 then 4.0 else 2.0
  }

  /** Sum of Coef(i) * v[i] over the interior nodes 1 <= i < j. */
  function InteriorSum(v: seq<real>, j: nat): real
    requires j <= |v|
  {
    if j <= 1 then 0.0 else InteriorSum(v, j - 1) + Coef(j - 1) * v[j - 1]
  }

  /** The weighted sum over the first m samples: both ends with weight 1,
      the interior nodes with their Coef. */
  function WeightedSum(v: seq<real>, m: nat): real
    requires 2 <= m <= |v|
  {
    v[0] + v[m - 1] + InteriorSum(v, m - 1)
  }

  /** Simpson's three-point sum over the panel that starts at node j. */
  function Panel(v: seq<real>, j: nat): real
    requires j + 2 < |v|
  {
    v[j] + 4.0 * v[j + 1] + v[j + 2]
  }

  /** Sum of k consecutive panels starting at node s (nodes s .. s + 2k). */
  function Panels(v: seq<real>, s: nat, k: nat): real
    requires s + 2 * k < |v|
  {
    if k == 0 then 0.0 else Panels(v, s, k - 1) + Panel(v, s + 2 * (k - 1))
  }

  /** The interior of the weighted sum over 2k + 1 nodes is the panel sum
      without its two outer end-points. */
  lemma {:induction false} InteriorIsPanelsWithoutEnds(v: seq<real>, k: nat)
    requires 1 <= k && 2 * k < |v|
    ensures InteriorSum(v, 2 * k) == Panels(v, 0, k) - v[0] - v[2 * k]
  {
    if k == 1 {
      assert InteriorSum(v, 2) == Coef(1) * v[1];
    } else {
      InteriorIsPanelsWithoutEnds(v, k - 1);
      assert Coef(2 * k - 2) == 2.0;
      assert Coef(2 * k - 1) == 4.0;
      assert InteriorSum(v, 2 * k)
          == InteriorSum(v, 2 * k - 2) + 2.0 * v[2 * k - 2] + 4.0 * v[2 * k - 1];
    }
  }

  /** The loop's weighted sum over an odd number m = 2k + 1 >= 3 of nodes
      equals the composite Simpson panel sum. */
  lemma {:induction false} WeightedSumIsPanels(v: seq<real>, k: nat)
    requires 1 <= k && 2 * k < |v|
    ensures WeightedSum(v, 2 * k + 1) == Panels(v, 0, k)
  {
    InteriorIsPanelsWithoutEnds(v, k);
  }

  /** Panels over a run of j + k panels split at the j-th panel boundary. */
  lemma {:induction false} PanelsSplit(v: seq<real>, s: nat, j: nat, k: nat)
    requires s + 2 * (j + k) < |v|
    ensures Panels(v, s, j + k) == Panels(v, s, j) + Panels(v, s + 2 * j, k)
  {
    if k > 0 {
      PanelsSplit(v, s, j, k - 1);
      assert s + 2 * (j + k - 1) == s + 2 * j + 2 * (k - 1);
    }
  }

  /** A constant run of samples: each panel contributes 6c. */
  lemma {:induction false} ConstantPanels(v: seq<real>, s: nat, k: nat, c: real)
    requires s + 2 * k < |v|
    requires forall j :: s <= j <= s + 2 * k ==> v[j] == c
    ensures Panels(v, s, k) == 6.0 * (k as real) * c
  {
    if k > 0 {
      ConstantPanels(v, s, k - 1, c);
      assert Panel(v, s + 2 * (k - 1)) == 6.0 * c;
    }
  }

  /** Simpson's weights 1, 4, 2, ..., 2, 4, 1 over an odd number m of nodes
      sum to 3(m - 1): on constant samples c the weighted sum is 3(m - 1)c. */
  lemma {:induction false} WeightsSumToThreeIntervals(v: seq<real>, m: nat, c: real)
    requires 3 <= m <= |v| && m % 2 == 1
    requires forall j :: 0 <= j < m ==> v[j] == c
    ensures WeightedSum(v, m) == 3.0 * ((m - 1) as real) * c
  {
    var k := (m - 1) / 2;
    WeightedSumIsPanels(v, k);
    ConstantPanels(v, 0, k, c);
    assert 2 * k + 1 == m && ((m - 1) as real) == 2.0 * (k as real);
  }

  /** The inductive step of LinearPanels as a polynomial identity. */
  lemma {:induction false} LinearPanelStep(kr: real, a: real, b: real)
    ensures 6.0 * (kr - 1.0) * a + 6.0 * b * (kr - 1.0) * (kr - 1.0) + (6.0 * a + 6.0 * b * (2.0 * kr - 1.0))
         == 6.0 * kr * a + 6.0 * b * kr * kr
  {
    assert (kr - 1.0) * (kr - 1.0) + 2.0 * kr - 1.0 == kr * kr;
    assert 6.0 * b * (kr - 1.0) * (kr - 1.0) + 6.0 * b * (2.0 * kr - 1.0)
        == 6.0 * b * ((kr - 1.0) * (kr - 1.0) + 2.0 * kr - 1.0);
  }

  /** Samples linear in the node offset, v[s + i] = a + b i: the panel sum
      has the closed form 6ka + 6bk^2 (each panel is six times its midpoint). */
  lemma {:induction false} LinearPanels(v: seq<real>, s: nat, k: nat, a: real, b: real)
    requires s + 2 * k < |v|
    requires forall j :: s <= j <= s + 2 * k ==> v[j] == a + b * ((j - s) as real)
    ensures Panels(v, s, k) == 6.0 * (k as real) * a + 6.0 * b * (k as real) * (k as real)
  {
    if k > 0 {
      var kr := k as real;
      LinearPanels(v, s, k - 1, a, b);
      var j := s + 2 * (k - 1);
      assert v[j] == a + b * (2.0 * kr - 2.0);
      assert v[j + 1] == a + b * (2.0 * kr - 1.0);
      assert v[j + 2] == a + b * (2.0 * kr);
      assert Panel(v, j) == 6.0 * a + 6.0 * b * (2.0 * kr - 1.0);
      LinearPanelStep(kr, a, b);
    }
  }
}
