/**
 The simulator object `SimulacaoPistao`: four parallel arrays of particle
 data updated in place, the piston position, the cached temperature and the
 append-only history of time stamps and pressures.

 The program draws its random numbers itself; here the draws are passed in
 (the initial arrays to the constructor, the Gaussian noise to each `Step`).
 */
module Simulation {
  import opened Physics
  import opened Collisions
  import opened Boundary

  class Simulator {
    /** `num_particulas` */
    const count: nat
    /** `massa_pistao` */
    const pistonMass: real
    /** `area_pistao` */
    const pistonArea: real
    /** `velocidade_particulas`: the initial speed of every particle. */
    const particleSpeed: real
    /** `forca_estocastica_std`: the spread of the noise; the noise values themselves are drawn by the caller. */
    const noiseStd: real

    /** `massas`, `posicoes`, `velocidades`, `raios` */
    const masses: array<real>
    const positions: array<real>
    const velocities: array<real>
    const radii: array<real>

    /** `posicao_pistao` */
    var piston: real
    /** `temperatura` */
    var temperature: real
    /** `tempo` */
    var times: seq<real>
    /** `dados_pressao` */
    var pressures: seq<real>

    /** The arrays have one entry per particle, there is a particle, and the arrays are distinct objects. */
    ghost predicate Shape()
      reads this
    {
      count > 0 &&
      masses.Length == count && positions.Length == count &&
      velocities.Length == count && radii.Length == count &&
      masses != positions && masses != velocities && masses != radii &&
      positions != velocities && positions != radii && velocities != radii
    }

    /** The state every public operation starts from and restores. */
    ghost predicate Valid()
      reads this, masses, velocities
    {
      Shape() &&
      PositiveMasses(masses[..]) &&
      pistonMass != 0.0 &&
      piston >= MinPiston &&
      temperature == Temperature(masses[..], velocities[..]) &&
      |times| == |pressures| &&
      TimeStamps(times)
    }

    /**
     `__init__`: the masses, the unit draws that scale to positions, the signs of
     the initial velocities and the radii are the values of the program's random
     draws, with the ranges those draws produce.
     */
    constructor (numParticles: nat, pistonMass: real, pistonArea: real, particleSpeed: real,
                 massDraws: seq<real>, unitDraws: seq<real>, signDraws: seq<int>, radiusDraws: seq<real>,
                 noiseStd: real := 0.5)
      requires numParticles > 0 && pistonMass != 0.0
      requires |massDraws| == numParticles && |unitDraws| == numParticles
      requires |signDraws| == numParticles && |radiusDraws| == numParticles
      requires forall i :: 0 <= i < numParticles ==> 0.5 <= massDraws[i] < 2.0
      requires forall i :: 0 <= i < numParticles ==> 0.0 <= unitDraws[i] < 1.0
      requires forall i :: 0 <= i < numParticles ==> signDraws[i] == -1 || signDraws[i] == 1
      requires forall i :: 0 <= i < numParticles ==> 0.01 <= radiusDraws[i] < 0.03
      ensures Valid()
      ensures fresh(masses) && fresh(positions) && fresh(velocities) && fresh(radii)
      ensures count == numParticles && this.pistonMass == pistonMass && this.pistonArea == pistonArea
      ensures this.particleSpeed == particleSpeed && this.noiseStd == noiseStd
      ensures masses[..] == massDraws && radii[..] == radiusDraws
      ensures forall i :: 0 <= i < count ==> positions[i] == unitDraws[i] * 0.9
      ensures forall i :: 0 <= i < count ==> velocities[i] == (signDraws[i] as real) * particleSpeed
      ensures piston == InitialPiston && times == [] && pressures == []
    {
      count := numParticles;
      this.pistonMass := pistonMass;
      this.pistonArea := pistonArea;
      this.particleSpeed := particleSpeed;
      this.noiseStd := noiseStd;
      masses := new real[numParticles](i requires 0 <= i < numParticles => massDraws[i]);
      positions := new real[numParticles](i requires 0 <= i < numParticles => unitDraws[i] * 0.9);
      velocities := new real[numParticles](i requires 0 <= i < numParticles => (signDraws[i] as real) * particleSpeed);
      radii := new real[numParticles](i requires 0 <= i < numParticles => radiusDraws[i]);
      piston := InitialPiston;
      times := [];
      pressures := [];
      new;
      UpdateTemperature();
    }

    /** `atualizar_temperatura` */
    method UpdateTemperature()
      requires Shape()
      modifies this`temperature
      ensures temperature == Temperature(masses[..], velocities[..])
    {
      temperature := Temperature(masses[..], velocities[..]);
    }

    /** `calcular_pressao`: the pressure of the cached temperature in the current volume. */
    function CurrentPressure(): (p: real)
      reads this
      ensures p * Volume(pistonArea, piston) == Moles * GasConstant * temperature
      ensures temperature >= 0.0 ==> p >= 0.0
    {
      Pressure(pistonArea, piston, temperature)
    }

    /** `tratar_colisoes`: the nested loops over all pairs `i < j`, rewriting velocities in place. */
    method HandleCollisions()
      requires Shape() && PositiveMasses(masses[..])
      modifies velocities
      ensures velocities[..] == Collide(masses[..], positions[..], radii[..], old(velocities[..]))
    {
      ghost var m, p, r := masses[..], positions[..], radii[..];
      ghost var start := velocities[..];
      for i := 0 to count
        invariant Rows(m, p, r, velocities[..], i) == Collide(m, p, r, start)
      {
        ghost var rowStart := velocities[..];
        for j := i + 1 to count
          invariant Row(m, p, r, velocities[..], i, j) == Row(m, p, r, rowStart, i, i + 1)
        {
          ghost var before := velocities[..];
          if Abs(positions[i] - positions[j]) < radii[i] + radii[j] {
            var mi, mj := masses[i], masses[j];
            var vi, vj := velocities[i], velocities[j];
            velocities[i] := (vi * (mi - mj) + 2.0 * mj * vj) / (mi + mj);
            velocities[j] := (vj * (mj - mi) + 2.0 * mi * vi) / (mi + mj);
            assert Overlap(p, r, i, j);
            assert velocities[..] == before[i := Elastic(mi, mj, vi, vj).0][j := Elastic(mi, mj, vi, vj).1];
          } else {
            assert !Overlap(p, r, i, j);
          }
          assert velocities[..] == PairStep(m, p, r, before, i, j);
        }
      }
    }

    /** Lines 68-69 of `passo_simulacao`: add the noise, scaled by `dt`, to every velocity. */
    method AddNoise(noise: seq<real>)
      requires Shape() && |noise| == count
      modifies velocities
      ensures velocities[..] == Kick(old(velocities[..]), noise)
    {
      forall i | 0 <= i < count {
        velocities[i] := velocities[i] + noise[i] * Dt;
      }
    }

    /** Line 72 of `passo_simulacao`: move every particle by its velocity times `dt`. */
    method Advect()
      requires Shape()
      modifies positions
      ensures positions[..] == Drift(old(positions[..]), velocities[..])
    {
      forall i | 0 <= i < count {
        positions[i] := positions[i] + velocities[i] * Dt;
      }
    }

    /** Lines 75-77: place the particles that reach the piston against it and reverse them. */
    method BounceOffPiston()
      requires Shape()
      modifies positions, velocities
      ensures var top := PistonMask(old(positions[..]), radii[..], piston);
              positions[..] == ClampToPiston(old(positions[..]), radii[..], piston, top) &&
              velocities[..] == Reflect(old(velocities[..]), top)
    {
      var top := PistonMask(positions[..], radii[..], piston);
      forall i | 0 <= i < count && top[i] {
        positions[i] := piston - radii[i];
      }
      forall i | 0 <= i < count && top[i] {
        velocities[i] := -velocities[i];
      }
    }

    /** Lines 80-82: place the particles that reach the floor on it and reverse them. */
    method BounceOffFloor()
      requires Shape()
      modifies positions, velocities
      ensures var bottom := FloorMask(old(positions[..]), radii[..]);
              positions[..] == ClampToFloor(old(positions[..]), radii[..], bottom) &&
              velocities[..] == Reflect(old(velocities[..]), bottom)
    {
      var bottom := FloorMask(positions[..], radii[..]);
      forall i | 0 <= i < count && bottom[i] {
        positions[i] := radii[i];
      }
      forall i | 0 <= i < count && bottom[i] {
        velocities[i] := -velocities[i];
      }
    }

    /** Lines 92-98: move the piston by the net force on it, then floor it. */
    method MovePiston(pressure: real)
      requires pistonMass != 0.0
      modifies this`piston
      ensures piston == NextPiston(old(piston), pressure, pistonArea, pistonMass)
    {
      var pistonForce := pressure * pistonArea;
      var netForce := pistonForce - pistonMass * Gravity;
      piston := piston + (netForce / pistonMass) * Dt;
      if piston < MinPiston {
        piston := MinPiston;
      }
    }

    /** Lines 101-105: append the tick's time stamp and pressure to the history. */
    method RecordSample(pressure: real)
      requires |times| == |pressures| && TimeStamps(times)
      modifies this`times, this`pressures
      ensures |times| == |pressures| && TimeStamps(times)
      ensures times == old(times) + [NextTime(old(times))]
      ensures times[|times| - 1] == (|old(times)| as real) * Dt
      ensures pressures == old(pressures) + [pressure]
    {
      ghost var next := NextTime(times);
      assert next == (|times| as real) * Dt;
      AppendKeepsTimeStamps(times);
      if |times| == 0 {
        times := times + [0.0];
      } else {
        times := times + [times[|times| - 1] + Dt];
      }
      pressures := pressures + [pressure];
    }

    /**
     `passo_simulacao`: one tick. `noise` holds the Gaussian draws, one per
     particle. Returns the pressure recorded for this tick.
     */
    method Step(noise: seq<real>) returns (pressure: real)
      requires Valid() && |noise| == count
      modifies this, positions, velocities
      ensures Valid()
      ensures masses[..] == old(masses[..]) && radii[..] == old(radii[..])
      ensures var pv := Boundaries(old(positions[..]), old(velocities[..]), radii[..], noise, old(piston));
              positions[..] == pv.0 &&
              velocities[..] == Collide(masses[..], pv.0, radii[..], pv.1) &&
              temperature == Temperature(masses[..], pv.1)
      ensures forall i :: 0 <= i < count ==> positions[i] >= radii[i]
      ensures pressure == Pressure(pistonArea, old(piston), temperature) && pressure >= 0.0
      ensures piston == NextPiston(old(piston), pressure, pistonArea, pistonMass) && piston >= MinPiston
      ensures times == old(times) + [NextTime(old(times))]
      ensures times[|times| - 1] == (|old(times)| as real) * Dt
      ensures pressures == old(pressures) + [pressure] && pressures[|pressures| - 1] == pressure
    {
      ghost var pv := Boundaries(positions[..], velocities[..], radii[..], noise, piston);
      AddNoise(noise);
      Advect();
      BounceOffPiston();
      BounceOffFloor();
      assert positions[..] == pv.0 && velocities[..] == pv.1;

      HandleCollisions();
      UpdateTemperature();
      CollidePreservesTemperature(masses[..], pv.0, radii[..], pv.1);
      TemperatureNonnegative(masses[..], velocities[..]);
      pressure := CurrentPressure();

      MovePiston(pressure);

      RecordSample(pressure);
    }
  }
}
