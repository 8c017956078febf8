/**
 Physical constants and the pure, derived quantities of the piston column:
 per-particle sums, temperature, volume, pressure, the quasi-static piston
 update and the time stamps of the pressure history.

 All numbers are Dafny `real`s, so the algebraic identities hold exactly.
 */
module Physics {

  /** `gravidade`: gravitational acceleration. */
  const Gravity: real := 9.8
  /** `R`: universal gas constant. */
  const GasConstant: real := 8.314
  /** `n`: number of moles of gas, fixed. */
  const Moles: real := 1.0
  /** `dt`: fixed time step of one tick. */
  const Dt: real := 0.001
  /** Lowest position the piston is allowed to reach. */
  const MinPiston: real := 0.05
  /** Volume used in place of a non-positive one. */
  const VolumeFloor: real := 0.000001
  /** Piston position at construction. */
  const InitialPiston: real := 1.0

  function Abs(x: real): real
  {
    if x < 0.0 then -x else x
  }

  /** Every mass is strictly positive (the initial draws are in [0.5, 2.0)). */
  predicate PositiveMasses(m: seq<real>)
  {
    forall k :: 0 <= k < |m| ==> m[k] > 0.0
  }

  /** The sum over all particles of `f(mass, velocity)`. */
  function WeightedSum(m: seq<real>, v: seq<real>, f: (real, real) -> real): real
    requires |m| == |v|
    decreases |v|
  {
    if |v| == 0 then 0.0 else f(m[0], v[0]) + WeightedSum(m[1..], v[1..], f)
  }

  function MomentumTerm(mass: real, velocity: real): real
  {
    mass * velocity
  }

  /** `massas * velocidades**2` for one particle (twice its kinetic energy). */
  function EnergyTerm(mass: real, velocity: real): real
  {
    mass * (velocity * velocity)
  }

  /** Total linear momentum of the particles. */
  function Momentum(m: seq<real>, v: seq<real>): real
    requires |m| == |v|
  {
    WeightedSum(m, v, MomentumTerm)
  }

  /** The sum of `m_i * v_i^2`, that is twice the total kinetic energy. */
  function KineticSum(m: seq<real>, v: seq<real>): real
    requires |m| == |v|
  {
    WeightedSum(m, v, EnergyTerm)
  }

  /** Replacing one velocity changes a weighted sum by exactly that particle's term. */
  lemma {:induction false} WeightedSumUpdate(m: seq<real>, v: seq<real>, k: nat, x: real, f: (real, real) -> real)
    requires |m| == |v| && k < |v|
    ensures WeightedSum(m, v[k := x], f) == WeightedSum(m, v, f) - f(m[k], v[k]) + f(m[k], x)
  {
    if k == 0 {
      assert v[k := x][1..] == v[1..];
    } else {
      assert v[k := x][1..] == v[1..][k - 1 := x];
      WeightedSumUpdate(m[1..], v[1..], k - 1, x, f);
    }
  }

  /** With non-negative masses, the kinetic sum is non-negative. */
  lemma {:induction false} KineticSumNonnegative(m: seq<real>, v: seq<real>)
    requires |m| == |v|
    requires forall k :: 0 <= k < |m| ==> m[k] >= 0.0
    ensures KineticSum(m, v) >= 0.0
  {
    if |v| > 0 {
      assert v[0] * v[0] >= 0.0;
      assert EnergyTerm(m[0], v[0]) >= 0.0;
      KineticSumNonnegative(m[1..], v[1..]);
    }
  }

  /**
   `atualizar_temperatura`: two thirds of the mean kinetic energy
   `0.5 * mean(m_i * v_i^2)` divided by the gas constant. The mean of an
   empty set of particles is not guarded in the program, so there must be at
   least one particle.
   */
  function Temperature(m: seq<real>, v: seq<real>): (t: real)
    requires |m| == |v| && |v| > 0
    ensures 1.5 * GasConstant * t == 0.5 * (KineticSum(m, v) / (|v| as real))
  {
    (2.0 / 3.0) * ((0.5 * (KineticSum(m, v) / (|v| as real))) / GasConstant)
  }

  /** With non-negative masses the temperature is non-negative. */
  lemma TemperatureNonnegative(m: seq<real>, v: seq<real>)
    requires |m| == |v| && |v| > 0
    requires forall k :: 0 <= k < |m| ==> m[k] >= 0.0
    ensures Temperature(m, v) >= 0.0
  {
    KineticSumNonnegative(m, v);
  }

  /** The volume under the piston, replaced by a tiny positive one when it is not positive. */
  function Volume(area: real, piston: real): (vol: real)
    ensures vol > 0.0
    ensures area * piston > 0.0 ==> vol == area * piston
    ensures area * piston <= 0.0 ==> vol == VolumeFloor
  {
    if area * piston <= 0.0 then VolumeFloor else area * piston
  }

  /** `calcular_pressao`: the ideal gas law `P * V == n * R * T`, on the guarded volume. */
  function Pressure(area: real, piston: real, temperature: real): (p: real)
    ensures p * Volume(area, piston) == Moles * GasConstant * temperature
    ensures temperature >= 0.0 ==> p >= 0.0
    ensures temperature > 0.0 ==> p > 0.0
  {
    (Moles * GasConstant * temperature) / Volume(area, piston)
  }

  /**
   The piston position after one tick: moved by net force over mass times
   `dt` (no piston velocity is kept between ticks), then floored.
   */
  function NextPiston(piston: real, pressure: real, area: real, pistonMass: real): (next: real)
    requires pistonMass != 0.0
    ensures next >= MinPiston
  {
    var netForce := pressure * area - pistonMass * Gravity;
    var moved := piston + (netForce / pistonMass) * Dt;
    if moved < MinPiston then MinPiston else moved
  }

  /** When gas force and weight balance, a piston above the floor stays where it is. */
  lemma NextPistonBalanced(piston: real, pressure: real, area: real, pistonMass: real)
    requires pistonMass != 0.0
    requires pressure * area == pistonMass * Gravity
    requires piston >= MinPiston
    ensures NextPiston(piston, pressure, area, pistonMass) == piston
  {
  }

  /** A heavy piston pushed harder by the gas than by gravity rises. */
  lemma NextPistonRises(piston: real, pressure: real, area: real, pistonMass: real)
    requires pistonMass > 0.0
    requires pressure * area > pistonMass * Gravity
    requires piston >= MinPiston
    ensures NextPiston(piston, pressure, area, pistonMass) > piston
  {
  }

  /** A heavy piston pushed less by the gas than by gravity falls, unless it rests on the floor. */
  lemma NextPistonFalls(piston: real, pressure: real, area: real, pistonMass: real)
    requires pistonMass > 0.0
    requires pressure * area < pistonMass * Gravity
    requires piston >= MinPiston
    ensures var next := NextPiston(piston, pressure, area, pistonMass);
            next < piston || next == MinPiston
  {
  }

  /** The history's time stamps are `0, dt, 2*dt, ...`. */
  predicate TimeStamps(times: seq<real>)
  {
    forall k :: 0 <= k < |times| ==> times[k] == (k as real) * Dt
  }

  /** The time stamp appended by a tick: 0 for the first, the last one plus `dt` after. */
  function NextTime(times: seq<real>): (t: real)
    ensures TimeStamps(times) ==> t == (|times| as real) * Dt
  {
    if |times| == 0 then 0.0 else times[|times| - 1] + Dt
  }

  /** Appending the next time stamp keeps the stamps exact. */
  lemma AppendKeepsTimeStamps(times: seq<real>)
    requires TimeStamps(times)
    ensures TimeStamps(times + [NextTime(times)])
  {
  }

  /** Exact time stamps increase strictly, by `dt` each. */
  lemma TimeStampsIncrease(times: seq<real>, i: nat, j: nat)
    requires TimeStamps(times)
    requires i < j < |times|
    ensures times[i] < times[j]
    ensures j == i + 1 ==> times[j] - times[i] == Dt
  {
  }
}
