// One call of particle_interaction: every target row of particles_1 feels the
// summed force of all rows of particles_2, is integrated, and is confined to
// the screen. Only particles_1 is written.

module Interaction {
  import opened Particles
  import opened Forces
  import opened Boundary

  /** Weight of the summed force in the velocity update. */
  const ForceWeight: real := 0.5

  /** Velocity damping applied on every step. */
  const Damping: real := 0.995

  /** The defaults of particle_interaction's g, r_eq and box parameters. */
  const DefaultCoefficient: real := 1.0
  const DefaultEquilibrium: real := 40.0
  const DefaultBox: string := "cyclic"

  /** Integration: velocity += 0.5 * F, velocity *= 0.995, position += velocity. */
  function Integrate(p: Particle, f: Vec): (r: Particle)
    ensures r.colour == p.colour
  {
    var vx := (p.vx + ForceWeight * f.x) * Damping;
    var vy := (p.vy + ForceWeight * f.y) * Damping;
    p.(x := p.x + vx, y := p.y + vy, vx := vx, vy := vy)
  }

  /** The state before integration, recovered from the state after it. */
  function Unintegrate(r: Particle, f: Vec): Particle
  {
    r.(x := r.x - r.vx, y := r.y - r.vy,
       vx := r.vx / Damping - ForceWeight * f.x, vy := r.vy / Damping - ForceWeight * f.y)
  }

  /** Integration loses no information: the step can be undone exactly. */
  lemma IntegrateInvertible(p: Particle, f: Vec)
    ensures Unintegrate(Integrate(p, f), f) == p
  {
    var r := Integrate(p, f);
    assert r.vx / Damping == p.vx + ForceWeight * f.x;
    assert r.vy / Damping == p.vy + ForceWeight * f.y;
  }

  /** One target row after one call: integrate under force f, then confine. */
  function StepParticle(p: Particle, f: Vec, mode: BoxMode, width: int, height: int): (r: Particle)
    ensures r.colour == p.colour
  {
    Confine(Integrate(p, f), mode, width, height)
  }

  /** particles_1 after one call: row j is stepped under the net force that all
      rows of `sources` exert on the position row j had before the call. */
  function StepAll(targets: seq<Particle>, sources: seq<Particle>, g: real, rEq: real,
                   mode: BoxMode, width: int, height: int): (r: seq<Particle>)
    requires |targets| == |sources|
    ensures |r| == |targets|
    ensures forall j :: 0 <= j < |r| ==> r[j].colour == targets[j].colour
  {
    seq(|targets|, j requires 0 <= j < |targets| =>
      StepParticle(targets[j], NetForce(Pos(targets[j]), sources, g, rEq), mode, width, height))
  }

  /** The per-component update before the boundary step. */
  lemma StepBeforeBoundary(p: Particle, f: Vec)
    ensures var r := Integrate(p, f);
            r.vx == (p.vx + 0.5 * f.x) * 0.995 && r.vy == (p.vy + 0.5 * f.y) * 0.995 &&
            r.x == p.x + r.vx && r.y == p.y + r.vy
  {
  }

  /** With g == 0 a call only lets the particles drift: velocities are damped
      and positions advance by the damped velocity, then the boundary applies. */
  lemma ZeroCoefficientOnlyDrifts(targets: seq<Particle>, sources: seq<Particle>, rEq: real,
                                   mode: BoxMode, width: int, height: int, j: nat)
    requires |targets| == |sources| && j < |targets|
    ensures var p := targets[j];
            var drifted := p.(x := p.x + p.vx * Damping, y := p.y + p.vy * Damping,
                              vx := p.vx * Damping, vy := p.vy * Damping);
            StepAll(targets, sources, 0.0, rEq, mode, width, height)[j]
              == Confine(drifted, mode, width, height)
  {
    var p := targets[j];
    assert NetForce(Pos(p), sources, 0.0, rEq) == Zero;
    assert Integrate(p, Zero) == p.(x := p.x + p.vx * Damping, y := p.y + p.vy * Damping,
                                    vx := p.vx * Damping, vy := p.vy * Damping);
  }

  /** In a self-pair every row's own entry drops out of its force. */
  lemma SelfPairSkipsOwnRow(s: seq<Particle>, g: real, rEq: real,
                            mode: BoxMode, width: int, height: int, j: nat)
    requires j < |s|
    ensures StepAll(s, s, g, rEq, mode, width, height)[j]
         == StepParticle(s[j], NetForce(Pos(s[j]), s[..j] + s[j + 1..], g, rEq), mode, width, height)
  {
    NetForceIgnoresSelf(s, j, g, rEq);
  }

  /** Repulsive mode leaves the integrated position alone and keeps each
      integrated velocity component up to sign. */
  lemma RepulsiveStep(p: Particle, f: Vec, width: int, height: int)
    requires width > 0 && height > 0
    ensures var q := Integrate(p, f);
            var r := StepParticle(p, f, Repulsive, width, height);
            r.x == q.x && r.y == q.y &&
            r.vx == (if q.x >= width as real || q.x <= 0.0 then -q.vx else q.vx) &&
            r.vy == (if q.y >= height as real || q.y <= 0.0 then -q.vy else q.vy)
  {
  }

  /** Cyclic mode keeps the integrated velocity and wraps the integrated
      position; one that overshot by less than a screen ends in
      (0, width] x (0, height]. */
  lemma CyclicStep(p: Particle, f: Vec, width: int, height: int)
    requires width > 0 && height > 0
    ensures var q := Integrate(p, f);
            var r := StepParticle(p, f, Cyclic, width, height);
            r.vx == q.vx && r.vy == q.vy &&
            r.x == Wrap(q.x, width as real) && r.y == Wrap(q.y, height as real) &&
            (-(width as real) < q.x < 2.0 * width as real ==> 0.0 < r.x <= width as real) &&
            (-(height as real) < q.y < 2.0 * height as real ==> 0.0 < r.y <= height as real)
  {
  }

  /** Two one-particle sets on a horizontal line (g = 1, r_eq = 40, cyclic,
      1000 x 1000): the y displacement is zero, so the pair is excluded and the
      target at the origin feels no force; at rest on the corner it is then
      wrapped to (1000, 1000). */
  lemma AlignedPairFeelsNoForce(c: Colour)
    ensures StepAll([Particle(c, 0.0, 0.0, 0.0, 0.0)], [Particle(c, 10.0, 0.0, 0.0, 0.0)],
                    1.0, 40.0, Cyclic, 1000, 1000)
         == [Particle(c, 1000.0, 1000.0, 0.0, 0.0)]
  {
    var a := Particle(c, 0.0, 0.0, 0.0, 0.0);
    assert NetForce(Pos(a), [Particle(c, 10.0, 0.0, 0.0, 0.0)], 1.0, 40.0) == Zero by {
      assert [Particle(c, 10.0, 0.0, 0.0, 0.0)][..0] == [];
    }
  }

  /** The same target with the source at (10, 10): distance 10 * sqrt 2 < 40,
      so the core repulsion -1 / |d|^2 * d = (-0.05, -0.05) acts, giving the
      velocity (-0.024875, -0.024875) and, after wrapping, the position
      (999.975125, 999.975125). */
  lemma DiagonalPairInsideCoreRepels(c: Colour)
    ensures StepAll([Particle(c, 0.0, 0.0, 0.0, 0.0)], [Particle(c, 10.0, 10.0, 0.0, 0.0)],
                    1.0, 40.0, Cyclic, 1000, 1000)
         == [Particle(c, 999.975125, 999.975125, -0.024875, -0.024875)]
  {
    var a := Particle(c, 0.0, 0.0, 0.0, 0.0);
    var b := Particle(c, 10.0, 10.0, 0.0, 0.0);
    var d := Displacement(Pos(a), Pos(b));
    assert d == Vec(10.0, 10.0);
    assert Norm2(d) == 200.0;
    assert Strength(200.0, 1.0, 40.0) == -1.0;
    var f := Contribution(Pos(a), Pos(b), 1.0, 40.0);
    assert f == Vec(-0.05, -0.05);
    assert NetForce(Pos(a), [b], 1.0, 40.0) == f by {
      assert [b][..0] == [];
    }
    var q := Integrate(a, f);
    assert q == Particle(c, -0.024875, -0.024875, -0.024875, -0.024875);
    assert Wrap(-0.024875, 1000.0) == 999.975125;
    assert StepParticle(a, f, Cyclic, 1000, 1000)
        == Particle(c, 999.975125, 999.975125, -0.024875, -0.024875);
  }

  /** particle_interaction(particles_1, particles_2, g, r_eq, box) on a screen
      of width x height: updates particles_1 in place. All forces are taken
      from the positions before the call, also when particles_1 and
      particles_2 are the same array. */
  method Interact(p1: array<Particle>, p2: array<Particle>, width: int, height: int,
                  g: real := DefaultCoefficient, rEq: real := DefaultEquilibrium,
                  box: string := DefaultBox)
    requires p1.Length == p2.Length
    modifies p1
    ensures p1[..] == StepAll(old(p1[..]), old(p2[..]), g, rEq, ParseBox(box), width, height)
    ensures p1 != p2 ==> p2[..] == old(p2[..])
  {
    var mode := ParseBox(box);
    var targets := p1[..];
    var sources := p2[..];
    var j := 0;
    while j < p1.Length
      invariant 0 <= j <= p1.Length
      invariant p1 != p2 ==> p2[..] == sources
      invariant forall k :: 0 <= k < j ==>
        p1[k] == StepParticle(targets[k], NetForce(Pos(targets[k]), sources, g, rEq), mode, width, height)
      invariant forall k :: j <= k < p1.Length ==> p1[k] == targets[k]
    {
      var f := NetForce(Pos(p1[j]), sources, g, rEq);
      p1[j] := StepParticle(p1[j], f, mode, width, height);
      j := j + 1;
    }
    assert p1[..] == StepAll(targets, sources, g, rEq, mode, width, height);
  }
}
