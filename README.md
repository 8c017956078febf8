# Ideal gas under a movable piston — a Dafny model of the simulation engine

This project models `SimulacaoPistao`, the engine of a small simulator.
The simulator tracks a one-dimensional column of gas particles under a
piston of finite mass. Each particle has a mass, a height, a velocity and a
radius, stored in four parallel arrays. One tick (`passo_simulacao`) does
the following, in order:

1. adds a noise increment to every velocity;
2. moves every particle;
3. clamps and reflects particles at the piston, then at the floor;
4. lets every overlapping pair `i < j` collide elastically, rewriting the
   velocities in place;
5. recomputes the temperature from the mean kinetic energy, and the
   pressure from the ideal gas law;
6. moves the piston by net force over mass times `dt`, keeping no piston
   velocity, and floors it at `0.05`;
7. appends a time stamp and the pressure to the history.

All quantities are Dafny `real`s. Because of that, the conservation laws of
the collision formula hold exactly in the model.

Files:

- `physics.dfy` (module `Physics`): the constants (`gravidade` 9.8, `R`
  8.314, `n` 1.0, `dt` 0.001, the piston floor 0.05, the volume guard
  1e-6, the initial piston position 1.0) and the pure quantities. These are
  weighted sums over the particles, temperature, guarded volume, pressure,
  the piston update and the history's time stamps.
- `collisions.dfy` (module `Collisions`): the pair formula and the
  functional meaning of the nested loop, `Collide = Rows(…, 0)`. `Rows`
  runs the outer loop and `Row` the inner one; `PairStep` is the body of
  the inner loop. The module also holds the conservation and frame lemmas.
- `boundaries.dfy` (module `Boundary`): the vectorised first half of a
  tick: noise kick, drift and the two masked clamps.
- `simulation.dfy` (module `Simulation`): the class `Simulator`. It keeps
  the four arrays, the piston position, the cached temperature and the two
  history lists. Its methods update them in place, as the program does.
  Each method is proved against the functions above.

Four behaviours of the program are easy to get wrong; the model follows
the program:

- Two particles that only touch (distance exactly equal to the sum of the
  radii) do not collide. The test is a strict `<` (line 57). See
  `TouchingPairKeepsVelocities`.
- The pairs are not resolved independently. The loop writes velocities
  back at once, so a later pair in the same pass sees the velocities that
  an earlier pair produced. `Collide` models exactly this order.
- With zero particles the program takes the mean of an empty array (not a
  temperature of 0), so the model requires at least one particle.
- At the end of a tick a particle is not always below the piston.
  - The piston moves after the clamp.
  - The floor clamp undoes the piston clamp when the piston is lower than a
    particle's diameter: see `FloorClampCanOverridePiston`.
  - What holds is the bound against the piston position used by the clamp,
    for every particle with `2 * r <= piston`.

## Model

| member | source | states |
|---|---|---|
| `Physics.Temperature` | Gas_Ideal_Pistao_Movel.py:38-42 | (3/2)·R·T equals the mean kinetic energy, 0.5·mean(m·v²), over at least one particle |
| `Physics.KineticSum` | Gas_Ideal_Pistao_Movel.py:40 | the sum of `massas * velocidades**2`; no contract of its own, its laws are in `KineticSumNonnegative`, `CollideConserves` and `Temperature` |
| `Physics.KineticSumNonnegative` | Gas_Ideal_Pistao_Movel.py:40 | with non-negative masses, the sum of m·v² is non-negative |
| `Physics.TemperatureNonnegative` | Gas_Ideal_Pistao_Movel.py:38-42 | with non-negative masses, the temperature is non-negative |
| `Physics.Volume` | Gas_Ideal_Pistao_Movel.py:46-48 | the volume used is always strictly positive; it is `area * piston` when that product is positive and 1e-6 otherwise |
| `Physics.Pressure` | Gas_Ideal_Pistao_Movel.py:44-51 | pressure times the guarded volume equals n·R·T; the pressure is non-negative when T is, and positive when T is |
| `Physics.NextPiston` | Gas_Ideal_Pistao_Movel.py:91-98 | the piston position after a tick never goes below 0.05 |
| `Physics.NextPistonBalanced` | Gas_Ideal_Pistao_Movel.py:92-94 | when gas force equals weight, a piston above the floor does not move (no piston velocity is kept) |
| `Physics.NextPistonRises` | Gas_Ideal_Pistao_Movel.py:92-94 | a positive-mass piston pushed harder by the gas than by gravity rises |
| `Physics.NextPistonFalls` | Gas_Ideal_Pistao_Movel.py:92-98 | a positive-mass piston pushed less by the gas than by gravity falls, or rests at the floor 0.05 |
| `Physics.NextTime` | Gas_Ideal_Pistao_Movel.py:101-104 | on an exact history of k stamps, the next stamp is k·dt (0 for the first tick) |
| `Physics.AppendKeepsTimeStamps` | Gas_Ideal_Pistao_Movel.py:101-104 | appending the next stamp keeps `tempo[k] == k*dt` for every k |
| `Physics.TimeStampsIncrease` | Gas_Ideal_Pistao_Movel.py:101-104 | exact stamps increase strictly, by dt between neighbours |
| `Collisions.Elastic` | Gas_Ideal_Pistao_Movel.py:63-64 | the collision formula, both new velocities from the old ones; no contract of its own, its laws are in `ElasticReflectsAboutCentreOfMass`, `ElasticConservesMomentum`, `ElasticConservesEnergy` and `ElasticEqualMassesSwap` |
| `Collisions.ElasticReflectsAboutCentreOfMass` | Gas_Ideal_Pistao_Movel.py:63-64 | each new velocity is 2u − v, where u is the pair's centre-of-mass velocity |
| `Collisions.ElasticConservesMomentum` | Gas_Ideal_Pistao_Movel.py:59-64 | mi·vi' + mj·vj' == mi·vi + mj·vj for any masses with non-zero sum |
| `Collisions.ElasticConservesEnergy` | Gas_Ideal_Pistao_Movel.py:63-64 | mi·vi'² + mj·vj'² == mi·vi² + mj·vj² for any masses with non-zero sum |
| `Collisions.ElasticEqualMassesSwap` | Gas_Ideal_Pistao_Movel.py:63-64 | equal masses exchange velocities: vi' == vj and vj' == vi |
| `Collisions.PairStep` | Gas_Ideal_Pistao_Movel.py:57-64 | the inner-loop body keeps one velocity per particle (its conservation and frame laws are in the lemmas below) |
| `Collisions.Row` | Gas_Ideal_Pistao_Movel.py:56-64 | the inner loop from column j keeps one velocity per particle |
| `Collisions.Rows` | Gas_Ideal_Pistao_Movel.py:55-64 | the outer loop from row i keeps one velocity per particle |
| `Collisions.Collide` | Gas_Ideal_Pistao_Movel.py:53-64 | the whole pass keeps one velocity per particle |
| `Collisions.PairStepConserves` | Gas_Ideal_Pistao_Movel.py:57-64 | one inner-loop step conserves total momentum and total Σm·v² |
| `Collisions.RowConserves` | Gas_Ideal_Pistao_Movel.py:56-64 | the inner loop conserves total momentum and total Σm·v² |
| `Collisions.RowsConserve` | Gas_Ideal_Pistao_Movel.py:55-64 | the outer loop conserves total momentum and total Σm·v² |
| `Collisions.CollideConserves` | Gas_Ideal_Pistao_Movel.py:53-64 | the whole pass conserves total momentum and total kinetic energy exactly |
| `Collisions.CollidePreservesTemperature` | Gas_Ideal_Pistao_Movel.py:53-64 | the temperature computed after the pass equals the one computed before it |
| `Collisions.PairStepFrame` | Gas_Ideal_Pistao_Movel.py:57-64 | one inner-loop step leaves the velocity of a particle that overlaps nobody unchanged |
| `Collisions.RowFrame` | Gas_Ideal_Pistao_Movel.py:56-64 | the inner loop leaves the velocity of a particle that overlaps nobody unchanged |
| `Collisions.RowsFrame` | Gas_Ideal_Pistao_Movel.py:55-64 | the outer loop leaves the velocity of a particle that overlaps nobody unchanged |
| `Collisions.CollideFrame` | Gas_Ideal_Pistao_Movel.py:53-64 | a particle whose velocity the pass changes overlaps some other particle, that is, the distance between centres is below the sum of radii |
| `Collisions.TouchingPairKeepsVelocities` | Gas_Ideal_Pistao_Movel.py:57 | two unit masses at distance exactly r_i + r_j keep velocities +2 and −2 (the overlap test is strict) |
| `Collisions.OverlappingPairSwapsVelocities` | Gas_Ideal_Pistao_Movel.py:55-64 | two overlapping unit masses with velocities +2 and −2 leave with −2 and +2 |
| `Boundary.Kick` | Gas_Ideal_Pistao_Movel.py:69 | each velocity plus its noise value times dt; no contract of its own, its laws are in `Boundaries` |
| `Boundary.Drift` | Gas_Ideal_Pistao_Movel.py:72 | each position plus its velocity times dt; no contract of its own, its laws are in `Boundaries` |
| `Boundary.PistonMask` | Gas_Ideal_Pistao_Movel.py:75 | the particles with position + radius ≥ piston; no contract of its own, its laws are in `Boundaries` |
| `Boundary.ClampToPiston` | Gas_Ideal_Pistao_Movel.py:76 | masked particles placed at piston − radius, the others kept; no contract of its own, its laws are in `Boundaries` |
| `Boundary.Reflect` | Gas_Ideal_Pistao_Movel.py:77-82 | masked velocities negated, the others kept (used at lines 77 and 82); no contract of its own, its laws are in `Boundaries` |
| `Boundary.FloorMask` | Gas_Ideal_Pistao_Movel.py:80 | the particles with position − radius ≤ 0; no contract of its own, its laws are in `Boundaries` |
| `Boundary.ClampToFloor` | Gas_Ideal_Pistao_Movel.py:81 | masked particles placed at their radius, the others kept; no contract of its own, its laws are in `Boundaries` |
| `Boundary.Boundaries` | Gas_Ideal_Pistao_Movel.py:68-82 | after kick, drift and both clamps, every particle has position ≥ radius; a particle with 2r ≤ piston also has position + r ≤ piston; every speed equals the kicked speed; a particle that touches neither wall moves freely |
| `Boundary.PistonReflectsSingleParticle` | Gas_Ideal_Pistao_Movel.py:74-77 | a particle just below the piston moving up at 5 with no noise ends exactly against the piston moving at −5 |
| `Boundary.FloorClampCanOverridePiston` | Gas_Ideal_Pistao_Movel.py:74-82 | with the piston at 0.05 and a radius of 0.029, the floor clamp places the particle so that it sticks through the piston |
| `Simulation.Simulator.constructor` | Gas_Ideal_Pistao_Movel.py:9-36 | arrays built from the draws (positions = 0.9·u, velocities = ±speed), piston at 1.0, empty history, temperature consistent with the arrays |
| `Simulation.Simulator.UpdateTemperature` | Gas_Ideal_Pistao_Movel.py:38-42 | the cached temperature becomes the temperature of the current masses and velocities; nothing else changes |
| `Simulation.Simulator.CurrentPressure` | Gas_Ideal_Pistao_Movel.py:44-51 | pressure times the guarded volume of the current piston equals n·R·T of the cached temperature; non-negative when T is |
| `Simulation.Simulator.HandleCollisions` | Gas_Ideal_Pistao_Movel.py:53-64 | the nested loops turn the velocity array into `Collide` of the old one; only the velocity array may change |
| `Simulation.Simulator.AddNoise` | Gas_Ideal_Pistao_Movel.py:68-69 | each velocity gains its noise value times dt |
| `Simulation.Simulator.Advect` | Gas_Ideal_Pistao_Movel.py:72 | each position gains its velocity times dt |
| `Simulation.Simulator.BounceOffPiston` | Gas_Ideal_Pistao_Movel.py:74-77 | the particles whose top edge reaches the piston are placed at piston − r and reversed; the others are untouched |
| `Simulation.Simulator.BounceOffFloor` | Gas_Ideal_Pistao_Movel.py:79-82 | the particles whose bottom edge reaches the floor are placed at r and reversed; the others are untouched |
| `Simulation.Simulator.MovePiston` | Gas_Ideal_Pistao_Movel.py:91-98 | the piston goes to `NextPiston` of its old position, so it is never below 0.05 |
| `Simulation.Simulator.RecordSample` | Gas_Ideal_Pistao_Movel.py:100-105 | each list grows by exactly one element; the new stamp is k·dt for a history of k entries; the pressure is appended |
| `Simulation.Simulator.Step` | Gas_Ideal_Pistao_Movel.py:66-107 | keeps the invariant (piston ≥ 0.05, cached temperature consistent, exact stamps, equal history lengths); masses and radii unchanged; new positions and velocities are `Boundaries` then `Collide` of the old state; every position ≥ its radius; the returned pressure is non-negative, uses the pre-move piston, and is the last recorded one |

## Left out

- Random draws (lines 22-25 and 68) are passed in.
  - The constructor takes the mass, unit, sign and radius draws, within the
    ranges those draws produce.
  - `Step` takes one Gaussian noise value per particle.
  - No distribution is modelled.
  - `forca_estocastica_std` is stored but not used by the model, because
    the caller draws the noise with it.
- IEEE floating point (rounding, NaN, infinities) is not modelled; all numbers are exact reals, so the conservation laws and the time stamps `k*dt` are exact here and only approximate in the program; `2/3` is the exact fraction.
- The mean over zero particles (NaN in the program) is not modelled: the constructor requires at least one particle.
- Zero masses and a zero piston mass (division by zero in the program) are not modelled. The model requires positive particle masses, which the 0.5–2.0 draws give, and a non-zero piston mass.
- An integer `velocidade_particulas` (such as 5) is not represented. In the program, line 24 then builds an integer velocity array, and the in-place float `+=` at line 69 fails with numpy's casting error on the first tick. The model's speed is a real, and the tick proceeds normally.
- A negative `forca_estocastica_std` is not represented. In the program, `np.random.normal` at line 68 raises `ValueError` on every tick. The model takes the noise values as given, and its constructor accepts any `noiseStd`.
- `k_b` (line 17) is never used by the program and is left out.
- `AplicacaoSimulacao` and the `__main__` block (lines 110-179) are the window, the plots, the animation and the histogram button. They are user interface and I/O.
- Simulator.Step: there is no claim that particles end below the piston after a tick, because the program does not ensure it (the piston moves after the clamp, and the floor clamp wins when the piston is below a particle's diameter); the bound proved is the one relative to the piston position used by the clamp, for particles with `2 * r <= piston`.
