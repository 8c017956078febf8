/**
 The pairwise collision pass `tratar_colisoes`: every pair `i < j`, in the
 order of the two nested loops, whose centres are closer than the sum of
 their radii exchanges velocities by the one-dimensional elastic-collision
 formula. Masses, positions and radii are only read; the velocities are
 rewritten in place, so a later pair sees the velocities an earlier pair
 produced.
 */
module Collisions {
  import opened Physics

  /** The parallel arrays the pass reads agree in length, and no mass is zero or negative. */
  predicate WellFormed(m: seq<real>, p: seq<real>, r: seq<real>, v: seq<real>)
  {
    |m| == |p| == |r| == |v| && PositiveMasses(m)
  }

  /** Particles `i` and `j` overlap: the distance between centres is below the sum of radii. */
  predicate Overlap(p: seq<real>, r: seq<real>, i: nat, j: nat)
    requires |p| == |r| && i < |p| && j < |p|
  {
    Abs(p[i] - p[j]) < r[i] + r[j]
  }

  /** The new velocities of one colliding pair, both computed from the old ones. */
  function Elastic(mi: real, mj: real, vi: real, vj: real): (real, real)
    requires mi + mj != 0.0
  {
    ((vi * (mi - mj) + 2.0 * mj * vj) / (mi + mj),
     (vj * (mj - mi) + 2.0 * mi * vi) / (mi + mj))
  }

  lemma DivideExact(a: real, b: real, c: real)
    requires c != 0.0 && a == b * c
    ensures a / c == b
  {
  }

  /** Each new velocity is the old one reflected about the velocity of the pair's centre of mass. */
  lemma ElasticReflectsAboutCentreOfMass(mi: real, mj: real, vi: real, vj: real)
    requires mi + mj != 0.0
    ensures var u := (mi * vi + mj * vj) / (mi + mj);
            Elastic(mi, mj, vi, vj) == (2.0 * u - vi, 2.0 * u - vj)
  {
    var total := mi + mj;
    var u := (mi * vi + mj * vj) / total;
    assert u * total == mi * vi + mj * vj;
    calc {
      (2.0 * u - vi) * total;
      2.0 * (u * total) - vi * total;
      vi * (mi - mj) + 2.0 * mj * vj;
    }
    DivideExact(vi * (mi - mj) + 2.0 * mj * vj, 2.0 * u - vi, total);
    calc {
      (2.0 * u - vj) * total;
      2.0 * (u * total) - vj * total;
      vj * (mj - mi) + 2.0 * mi * vi;
    }
    DivideExact(vj * (mj - mi) + 2.0 * mi * vi, 2.0 * u - vj, total);
  }

  /** A pair collision conserves momentum exactly. */
  lemma ElasticConservesMomentum(mi: real, mj: real, vi: real, vj: real)
    requires mi + mj != 0.0
    ensures var (wi, wj) := Elastic(mi, mj, vi, vj);
            mi * wi + mj * wj == mi * vi + mj * vj
  {
  }

  /** A pair collision conserves kinetic energy exactly. */
  lemma ElasticConservesEnergy(mi: real, mj: real, vi: real, vj: real)
    requires mi + mj != 0.0
    ensures var (wi, wj) := Elastic(mi, mj, vi, vj);
            EnergyTerm(mi, wi) + EnergyTerm(mj, wj) == EnergyTerm(mi, vi) + EnergyTerm(mj, vj)
  {
  }

  /** Two equal masses simply exchange their velocities. */
  lemma ElasticEqualMassesSwap(mi: real, mj: real, vi: real, vj: real)
    requires mi == mj && mi + mj != 0.0
    ensures Elastic(mi, mj, vi, vj) == (vj, vi)
  {
    var total := mi + mj;
    assert vi * (mi - mj) + 2.0 * mj * vj == vj * total;
    assert vj * (mj - mi) + 2.0 * mi * vi == vi * total;
    DivideExact(vi * (mi - mj) + 2.0 * mj * vj, vj, total);
    DivideExact(vj * (mj - mi) + 2.0 * mi * vi, vi, total);
    assert Elastic(mi, mj, vi, vj).0 == vj;
    assert Elastic(mi, mj, vi, vj).1 == vi;
  }

  /** The body of the inner loop for the pair `(i, j)`. */
  function PairStep(m: seq<real>, p: seq<real>, r: seq<real>, v: seq<real>, i: nat, j: nat): (w: seq<real>)
    requires WellFormed(m, p, r, v) && i < j < |v|
    ensures |w| == |v|
  {
    if Overlap(p, r, i, j) then
      var (vi, vj) := Elastic(m[i], m[j], v[i], v[j]);
      v[i := vi][j := vj]
    else
      v
  }

  /** The inner loop for row `i`, from column `j` to the end. */
  function Row(m: seq<real>, p: seq<real>, r: seq<real>, v: seq<real>, i: nat, j: nat): (w: seq<real>)
    requires WellFormed(m, p, r, v) && i < j <= |v|
    ensures |w| == |v|
    decreases |v| - j
  {
    if j == |v| then v else Row(m, p, r, PairStep(m, p, r, v, i, j), i, j + 1)
  }

  /** The outer loop, from row `i` to the end. */
  function Rows(m: seq<real>, p: seq<real>, r: seq<real>, v: seq<real>, i: nat): (w: seq<real>)
    requires WellFormed(m, p, r, v) && i <= |v|
    ensures |w| == |v|
    decreases |v| - i
  {
    if i == |v| then v else Rows(m, p, r, Row(m, p, r, v, i, i + 1), i + 1)
  }

  /** The velocities after the whole pass `tratar_colisoes`. */
  function Collide(m: seq<real>, p: seq<real>, r: seq<real>, v: seq<real>): (w: seq<real>)
    requires WellFormed(m, p, r, v)
    ensures |w| == |v|
  {
    Rows(m, p, r, v, 0)
  }

  /** Replacing two velocities changes a weighted sum by exactly those two particles' terms. */
  lemma WeightedSumUpdatePair(m: seq<real>, v: seq<real>, i: nat, j: nat, a: real, b: real, f: (real, real) -> real)
    requires |m| == |v| && i < j < |v|
    ensures WeightedSum(m, v[i := a][j := b], f)
            == WeightedSum(m, v, f) - (f(m[i], v[i]) + f(m[j], v[j])) + (f(m[i], a) + f(m[j], b))
  {
    assert v[i := a][j] == v[j];
    WeightedSumUpdate(m, v, i, a, f);
    WeightedSumUpdate(m, v[i := a], j, b, f);
  }

  lemma PairStepConserves(m: seq<real>, p: seq<real>, r: seq<real>, v: seq<real>, i: nat, j: nat)
    requires WellFormed(m, p, r, v) && i < j < |v|
    ensures Momentum(m, PairStep(m, p, r, v, i, j)) == Momentum(m, v)
    ensures KineticSum(m, PairStep(m, p, r, v, i, j)) == KineticSum(m, v)
  {
    if Overlap(p, r, i, j) {
      var (a, b) := Elastic(m[i], m[j], v[i], v[j]);
      assert PairStep(m, p, r, v, i, j) == v[i := a][j := b];
      WeightedSumUpdatePair(m, v, i, j, a, b, MomentumTerm);
      ElasticConservesMomentum(m[i], m[j], v[i], v[j]);
      assert MomentumTerm(m[i], a) + MomentumTerm(m[j], b) == MomentumTerm(m[i], v[i]) + MomentumTerm(m[j], v[j]);
      WeightedSumUpdatePair(m, v, i, j, a, b, EnergyTerm);
      ElasticConservesEnergy(m[i], m[j], v[i], v[j]);
    }
  }

  lemma {:induction false} RowConserves(m: seq<real>, p: seq<real>, r: seq<real>, v: seq<real>, i: nat, j: nat)
    requires WellFormed(m, p, r, v) && i < j <= |v|
    ensures Momentum(m, Row(m, p, r, v, i, j)) == Momentum(m, v)
    ensures KineticSum(m, Row(m, p, r, v, i, j)) == KineticSum(m, v)
    decreases |v| - j
  {
    if j < |v| {
      PairStepConserves(m, p, r, v, i, j);
      RowConserves(m, p, r, PairStep(m, p, r, v, i, j), i, j + 1);
    }
  }

  lemma {:induction false} RowsConserve(m: seq<real>, p: seq<real>, r: seq<real>, v: seq<real>, i: nat)
    requires WellFormed(m, p, r, v) && i <= |v|
    ensures Momentum(m, Rows(m, p, r, v, i)) == Momentum(m, v)
    ensures KineticSum(m, Rows(m, p, r, v, i)) == KineticSum(m, v)
    decreases |v| - i
  {
    if i < |v| {
      RowConserves(m, p, r, v, i, i + 1);
      RowsConserve(m, p, r, Row(m, p, r, v, i, i + 1), i + 1);
    }
  }

  /** The whole pass conserves total momentum and total kinetic energy exactly. */
  lemma CollideConserves(m: seq<real>, p: seq<real>, r: seq<real>, v: seq<real>)
    requires WellFormed(m, p, r, v)
    ensures Momentum(m, Collide(m, p, r, v)) == Momentum(m, v)
    ensures KineticSum(m, Collide(m, p, r, v)) == KineticSum(m, v)
  {
    RowsConserve(m, p, r, v, 0);
  }

  /** Since kinetic energy is conserved, so is the temperature derived from it. */
  lemma CollidePreservesTemperature(m: seq<real>, p: seq<real>, r: seq<real>, v: seq<real>)
    requires WellFormed(m, p, r, v) && |v| > 0
    ensures Temperature(m, Collide(m, p, r, v)) == Temperature(m, v)
  {
    CollideConserves(m, p, r, v);
  }

  /** Particle `k` overlaps no other particle. */
  predicate Isolated(p: seq<real>, r: seq<real>, k: nat)
    requires |p| == |r| && k < |p|
  {
    forall j :: 0 <= j < |p| && j != k ==> !(Abs(p[k] - p[j]) < r[k] + r[j])
  }

  lemma PairStepFrame(m: seq<real>, p: seq<real>, r: seq<real>, v: seq<real>, i: nat, j: nat, k: nat)
    requires WellFormed(m, p, r, v) && i < j < |v| && k < |v|
    requires Isolated(p, r, k)
    ensures PairStep(m, p, r, v, i, j)[k] == v[k]
  {
  }

  lemma {:induction false} RowFrame(m: seq<real>, p: seq<real>, r: seq<real>, v: seq<real>, i: nat, j: nat, k: nat)
    requires WellFormed(m, p, r, v) && i < j <= |v| && k < |v|
    requires Isolated(p, r, k)
    ensures Row(m, p, r, v, i, j)[k] == v[k]
    decreases |v| - j
  {
    if j < |v| {
      PairStepFrame(m, p, r, v, i, j, k);
      RowFrame(m, p, r, PairStep(m, p, r, v, i, j), i, j + 1, k);
    }
  }

  lemma {:induction false} RowsFrame(m: seq<real>, p: seq<real>, r: seq<real>, v: seq<real>, i: nat, k: nat)
    requires WellFormed(m, p, r, v) && i <= |v| && k < |v|
    requires Isolated(p, r, k)
    ensures Rows(m, p, r, v, i)[k] == v[k]
    decreases |v| - i
  {
    if i < |v| {
      RowFrame(m, p, r, v, i, i + 1, k);
      RowsFrame(m, p, r, Row(m, p, r, v, i, i + 1), i + 1, k);
    }
  }

  /** A particle whose velocity the pass changes overlaps some other particle. */
  lemma CollideFrame(m: seq<real>, p: seq<real>, r: seq<real>, v: seq<real>, k: nat)
    requires WellFormed(m, p, r, v) && k < |v|
    ensures Collide(m, p, r, v)[k] != v[k] ==>
              exists j :: 0 <= j < |p| && j != k && Abs(p[k] - p[j]) < r[k] + r[j]
  {
    if Isolated(p, r, k) {
      RowsFrame(m, p, r, v, 0, k);
    }
  }

  /** Two unit masses that merely touch (distance equal to the sum of radii) do not collide. */
  lemma TouchingPairKeepsVelocities()
    ensures Collide([1.0, 1.0], [0.0, 0.04], [0.02, 0.02], [2.0, -2.0]) == [2.0, -2.0]
  {
    var m, p, r, v := [1.0, 1.0], [0.0, 0.04], [0.02, 0.02], [2.0, -2.0];
    assert !Overlap(p, r, 0, 1);
    assert Row(m, p, r, v, 0, 1) == v;
    assert Rows(m, p, r, v, 1) == v;
  }

  /** Two overlapping unit masses moving towards each other exchange velocities. */
  lemma OverlappingPairSwapsVelocities()
    ensures Collide([1.0, 1.0], [0.0, 0.03], [0.02, 0.02], [2.0, -2.0]) == [-2.0, 2.0]
  {
    var m, p, r, v := [1.0, 1.0], [0.0, 0.03], [0.02, 0.02], [2.0, -2.0];
    assert Overlap(p, r, 0, 1);
    ElasticEqualMassesSwap(1.0, 1.0, 2.0, -2.0);
    assert PairStep(m, p, r, v, 0, 1) == [-2.0, 2.0];
    assert Row(m, p, r, v, 0, 1) == [-2.0, 2.0];
    assert Rows(m, p, r, [-2.0, 2.0], 1) == [-2.0, 2.0];
  }
}
