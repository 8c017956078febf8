/**
 The vectorised first half of `passo_simulacao`: the noise kick, the
 position update, and the masked clamps at the piston and at the floor.
 Each function works on whole sequences, as the array expressions of the
 program work on whole arrays; a mask is computed once and then used for
 both the position and the velocity assignment.
 */
module Boundary {
  import opened Physics

  /** `velocidades += forca_estocastica * dt`, with the drawn noise passed in. */
  function Kick(v: seq<real>, noise: seq<real>): (w: seq<real>)
    requires |noise| == |v|
  {
    seq(|v|, i requires 0 <= i < |v| => v[i] + noise[i] * Dt)
  }

  /** `posicoes += velocidades * dt`. */
  function Drift(p: seq<real>, v: seq<real>): (q: seq<real>)
    requires |v| == |p|
  {
    seq(|p|, i requires 0 <= i < |p| => p[i] + v[i] * Dt)
  }

  /** `colisao_pistao`: the particles whose upper edge reaches the piston. */
  function PistonMask(p: seq<real>, r: seq<real>, piston: real): (hit: seq<bool>)
    requires |r| == |p|
  {
    seq(|p|, i requires 0 <= i < |p| => p[i] + r[i] >= piston)
  }

  /** `colisao_base`: the particles whose lower edge reaches the floor. */
  function FloorMask(p: seq<real>, r: seq<real>): (hit: seq<bool>)
    requires |r| == |p|
  {
    seq(|p|, i requires 0 <= i < |p| => p[i] - r[i] <= 0.0)
  }

  /** `posicoes[hit] = posicao_pistao - raios[hit]`. */
  function ClampToPiston(p: seq<real>, r: seq<real>, piston: real, hit: seq<bool>): (q: seq<real>)
    requires |r| == |p| && |hit| == |p|
  {
    seq(|p|, i requires 0 <= i < |p| => if hit[i] then piston - r[i] else p[i])
  }

  /** `posicoes[hit] = raios[hit]`. */
  function ClampToFloor(p: seq<real>, r: seq<real>, hit: seq<bool>): (q: seq<real>)
    requires |r| == |p| && |hit| == |p|
  {
    seq(|p|, i requires 0 <= i < |p| => if hit[i] then r[i] else p[i])
  }

  /** `velocidades[hit] *= -1`. */
  function Reflect(v: seq<real>, hit: seq<bool>): (w: seq<real>)
    requires |hit| == |v|
  {
    seq(|v|, i requires 0 <= i < |v| => if hit[i] then -v[i] else v[i])
  }

  /**
   Positions and velocities after the kick, the drift and both clamps of one
   tick, for the piston position `piston` at the start of the tick.
   */
  function Boundaries(p: seq<real>, v: seq<real>, r: seq<real>, noise: seq<real>, piston: real): (pv: (seq<real>, seq<real>))
    requires |v| == |p| && |r| == |p| && |noise| == |p|
    ensures |pv.0| == |p| && |pv.1| == |p|
    // the floor clamp comes last, so every particle ends above the floor
    ensures forall i :: 0 <= i < |p| ==> pv.0[i] >= r[i]
    // a particle that fits between floor and piston also ends below the piston
    ensures forall i :: 0 <= i < |p| && 2.0 * r[i] <= piston ==> pv.0[i] + r[i] <= piston
    // the clamps only ever flip the sign of the kicked velocity
    ensures forall i :: 0 <= i < |p| ==> Abs(pv.1[i]) == Abs(v[i] + noise[i] * Dt)
    // a particle that touches neither boundary moves freely
    ensures forall i :: 0 <= i < |p| ==>
              var free := p[i] + (v[i] + noise[i] * Dt) * Dt;
              (free + r[i] < piston && free - r[i] > 0.0) ==>
                pv.0[i] == free && pv.1[i] == v[i] + noise[i] * Dt
  {
    var kicked := Kick(v, noise);
    var moved := Drift(p, kicked);
    var top := PistonMask(moved, r, piston);
    var belowPiston := ClampToPiston(moved, r, piston, top);
    var bounced := Reflect(kicked, top);
    var bottom := FloorMask(belowPiston, r);
    (ClampToFloor(belowPiston, r, bottom), Reflect(bounced, bottom))
  }

  /**
   A single particle just below the piston, moving up with no noise, is
   reflected: its velocity is negated and it is placed against the piston.
   */
  lemma PistonReflectsSingleParticle()
    ensures Boundaries([0.969], [5.0], [0.03], [0.0], 1.0) == ([0.97], [-5.0])
  {
    var kicked := Kick([5.0], [0.0]);
    assert kicked == [5.0];
    var moved := Drift([0.969], kicked);
    assert moved == [0.974];
    var top := PistonMask(moved, [0.03], 1.0);
    assert top == [true];
    var belowPiston := ClampToPiston(moved, [0.03], 1.0, top);
    assert belowPiston == [0.97];
    assert Reflect(kicked, top) == [-5.0];
    var bottom := FloorMask(belowPiston, [0.03]);
    assert bottom == [false];
    assert ClampToFloor(belowPiston, [0.03], bottom) == [0.97];
    assert Reflect([-5.0], bottom) == [-5.0];
  }

  /**
   The floor clamp runs after the piston clamp, so when the piston is lower
   than a particle's diameter the particle ends on the floor and sticks
   through the piston: the upper bound of `Boundaries` needs `2 * r <= piston`.
   */
  lemma FloorClampCanOverridePiston()
    ensures var pv := Boundaries([0.03], [0.0], [0.029], [0.0], 0.05);
            pv.0 == [0.029] && pv.0[0] + 0.029 > 0.05
  {
    var kicked := Kick([0.0], [0.0]);
    assert kicked == [0.0];
    var moved := Drift([0.03], kicked);
    assert moved == [0.03];
    var top := PistonMask(moved, [0.029], 0.05);
    assert top == [true];
    var belowPiston := ClampToPiston(moved, [0.029], 0.05, top);
    assert belowPiston == [0.021];
    var bottom := FloorMask(belowPiston, [0.029]);
    assert bottom == [true];
    assert ClampToFloor(belowPiston, [0.029], bottom) == [0.029];
  }
}
