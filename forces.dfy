// The pairwise force of particle_interaction, stated over the reals without a
// square root: a pair with displacement d = source - target contributes
// f * d / |d| with f = +-g / |d|, that is (m / |d|^2) * d with m in {g, -g, 0}.

module Forces {
  import opened Particles

  /** dist > rEq, for dist = sqrt(d2), written without the root. */
  predicate Beyond(d2: real, rEq: real) { rEq < 0.0 || d2 > rEq * rEq }

  /** dist < rEq, for dist = sqrt(d2), written without the root. */
  predicate Within(d2: real, rEq: real) { rEq > 0.0 && d2 < rEq * rEq }

  /** A pair is left out of the sum when EITHER component of its displacement
      is zero: the program turns every zero component into NaN, which spreads
      to both components and to the force and is finally replaced by 0. */
  predicate Excluded(d: Vec) { d.x == 0.0 || d.y == 0.0 }


  function Displacement(target: Vec, source: Vec): Vec
  {
    Vec(source.x - target.x, source.y - target.y)
  }

  /** f * dist: the force magnitude times the distance. For g > 0 it is g beyond
      the equilibrium distance, -g inside it and 0 exactly at it (neither mask
      is set); for g <= 0 it is g at every distance. */
  function Strength(d2: real, g: real, rEq: real): real
  {
    if g > 0.0 then
      if Beyond(d2, rEq) then g else if Within(d2, rEq) then -g else 0.0
    else g
  }

  /** The strength is g, -g or 0; it is always g when g <= 0; for g > 0 it is
      0 exactly at the equilibrium distance. */
  lemma StrengthRegimes(d2: real, g: real, rEq: real)
    ensures var m := Strength(d2, g, rEq);
            (m == g || m == -g || m == 0.0) &&
            (g <= 0.0 ==> m == g) &&
            (g > 0.0 && d2 >= 0.0 ==> (m == 0.0 <==> rEq >= 0.0 && d2 == rEq * rEq))
  {
  }

  lemma SquareSumPositive(d: Vec)
    requires !Excluded(d)
    ensures Norm2(d) > 0.0
  {
    calc {
      Norm2(d);
    ==
      d.x * d.x + d.y * d.y;
    > { SumOfSquaresPositive(d.x, d.y); }
      0.0;
    }
  }

  lemma SumOfSquaresPositive(a: real, b: real)
    requires a != 0.0
    ensures a * a + b * b > 0.0
  {
  }

  /** The force that the particle at `source` exerts on the particle at `target`. */
  function Contribution(target: Vec, source: Vec, g: real, rEq: real): (c: Vec)
    ensures Excluded(Displacement(target, source)) ==> c == Zero
    ensures g == 0.0 ==> c == Zero
  {
    var d := Displacement(target, source);
    if Excluded(d) then Zero
    else
      SquareSumPositive(d);
      var k := Strength(Norm2(d), g, rEq) / Norm2(d);
      Vec(k * d.x, k * d.y)
  }

  /** The program's own formula for a pair that is not excluded, with the norm
      `dist` given: unit vector d / dist scaled by f = +-g / dist or 0. */
  function RootedContribution(d: Vec, dist: real, g: real, rEq: real): (r: Vec)
    requires dist > 0.0
    ensures Cross(r, d) == 0.0
    ensures ForceEntry(dist, g, rEq) == 0.0 ==> r == Zero
  {
    var u := Vec(d.x / dist, d.y / dist);
    var f := ForceEntry(dist, g, rEq);
    ScaledCross(f / dist, d.x, d.y);
    Vec(f * u.x, f * u.y)
  }

  /** The program's force matrix entry f for one pair at distance dist:
      positive means attraction, negative repulsion. */
  function ForceEntry(dist: real, g: real, rEq: real): (f: real)
    requires dist > 0.0
    ensures g < 0.0 ==> f < 0.0
    ensures g == 0.0 ==> f == 0.0
    ensures g > 0.0 ==> (f > 0.0 <==> dist > rEq) && (f < 0.0 <==> dist < rEq)
    ensures f * dist == g || f * dist == -g || f == 0.0
  {
    if g > 0.0 then
      if dist > rEq then g / dist else if dist < rEq then -g / dist else 0.0
    else g / dist
  }

  lemma ProductPositive(p: real, q: real)
    requires p > 0.0 && q > 0.0
    ensures p * q > 0.0
  {
  }

  lemma SquareStrictlyMonotone(a: real, b: real)
    requires a > b && b >= 0.0
    ensures a * a > b * b
  {
    calc {
      a * a - b * b;
    ==
      (a - b) * (a + b);
    > { ProductPositive(a - b, a + b); }
      0.0;
    }
  }

  lemma SquareMonotone(a: real, b: real)
    requires a >= 0.0 && b >= 0.0
    ensures a > b <==> a * a > b * b
  {
    if a > b {
      SquareStrictlyMonotone(a, b);
    } else if b > a {
      SquareStrictlyMonotone(b, a);
    }
  }

  /** The root-free regime tests agree with comparing the true distance. */
  lemma RegimeTests(d2: real, dist: real, rEq: real)
    requires dist >= 0.0 && dist * dist == d2
    ensures Beyond(d2, rEq) <==> dist > rEq
    ensures Within(d2, rEq) <==> dist < rEq
  {
    if rEq >= 0.0 {
      SquareMonotone(dist, rEq);
      SquareMonotone(rEq, dist);
    }
  }

  lemma ScaleSplit(m: real, a: real, dist: real)
    requires dist > 0.0
    ensures (m / (dist * dist)) * a == (m / dist) * (a / dist)
  {
  }

  lemma DivideThenMultiply(m: real, q: real)
    requires q != 0.0
    ensures (m / q) * q == m
  {
  }

  lemma ScaledDot(k: real, a: real, b: real)
    ensures (k * a) * a + (k * b) * b == k * (a * a + b * b)
  {
  }

  lemma ScaledNorm(k: real, a: real, b: real)
    ensures ((k * a) * (k * a) + (k * b) * (k * b)) * (a * a + b * b)
         == (k * (a * a + b * b)) * (k * (a * a + b * b))
  {
  }

  lemma ScaledCross(k: real, a: real, b: real)
    ensures (k * a) * b - (k * b) * a == 0.0
  {
  }

  /** The root-free contribution equals the program's formula for every pair
      that is not excluded, whatever the norm dist with dist^2 = |d|^2. */
  lemma ContributionMatchesRooted(target: Vec, source: Vec, g: real, rEq: real, dist: real)
    requires !Excluded(Displacement(target, source))
    requires dist > 0.0 && dist * dist == Norm2(Displacement(target, source))
    ensures Contribution(target, source, g, rEq)
         == RootedContribution(Displacement(target, source), dist, g, rEq)
  {
    var d := Displacement(target, source);
    var d2 := Norm2(d);
    SquareSumPositive(d);
    var m := Strength(d2, g, rEq);
    MagnitudeMatches(d2, dist, g, rEq);
    ScaleSplit(m, d.x, dist);
    ScaleSplit(m, d.y, dist);
  }

  lemma MagnitudeMatches(d2: real, dist: real, g: real, rEq: real)
    requires dist > 0.0 && dist * dist == d2
    ensures ForceEntry(dist, g, rEq) == Strength(d2, g, rEq) / dist
  {
    RegimeTests(d2, dist, rEq);
  }

  /** Every non-excluded contribution lies along the displacement, its dot
      product with the displacement is the strength m, and its squared length
      is m^2 / |d|^2, i.e. |m| / dist. */
  lemma ContributionAlongDisplacement(target: Vec, source: Vec, g: real, rEq: real)
    requires !Excluded(Displacement(target, source))
    ensures var d := Displacement(target, source);
            var c := Contribution(target, source, g, rEq);
            var m := Strength(Norm2(d), g, rEq);
            Cross(c, d) == 0.0 && Dot(c, d) == m && Norm2(c) * Norm2(d) == m * m
  {
    var d := Displacement(target, source);
    var d2 := Norm2(d);
    SquareSumPositive(d);
    var m := Strength(d2, g, rEq);
    var k := m / d2;
    var c := Contribution(target, source, g, rEq);
    assert c == Vec(k * d.x, k * d.y);
    calc {
      Cross(c, d);
    ==
      (k * d.x) * d.y - (k * d.y) * d.x;
    == { ScaledCross(k, d.x, d.y); }
      0.0;
    }
    calc {
      Dot(c, d);
    ==
      (k * d.x) * d.x + (k * d.y) * d.y;
    == { ScaledDot(k, d.x, d.y); }
      k * d2;
    == { DivideThenMultiply(m, d2); }
      m;
    }
    calc {
      Norm2(c) * d2;
    ==
      ((k * d.x) * (k * d.x) + (k * d.y) * (k * d.y)) * (d.x * d.x + d.y * d.y);
    == { ScaledNorm(k, d.x, d.y); }
      (k * d2) * (k * d2);
    == { DivideThenMultiply(m, d2); }
      m * m;
    }
  }

  /** The excluded pairs are exactly the pairs that never exert a force,
      whatever the coefficient: every other pair is felt, for example with
      g = -1. */
  lemma ExcludedIffSilent(target: Vec, source: Vec, rEq: real)
    ensures Excluded(Displacement(target, source))
        <==> forall g: real :: Contribution(target, source, g, rEq) == Zero
  {
    if !Excluded(Displacement(target, source)) {
      RepulsiveRegime(target, source, -1.0, rEq);
    }
  }

  /** g <= 0: every counted pair pushes the target away from the source with
      magnitude |g| / dist (exactly zero when g == 0). */
  lemma RepulsiveRegime(target: Vec, source: Vec, g: real, rEq: real)
    requires g <= 0.0
    requires !Excluded(Displacement(target, source))
    ensures var d := Displacement(target, source);
            var c := Contribution(target, source, g, rEq);
            Cross(c, d) == 0.0 && Dot(c, d) == g && Norm2(c) * Norm2(d) == g * g
    ensures g == 0.0 ==> Contribution(target, source, g, rEq) == Zero
  {
    ContributionAlongDisplacement(target, source, g, rEq);
  }

  /** g > 0: attraction (towards the source) beyond rEq, repulsion inside it,
      no force at exactly rEq; magnitude g / dist away from rEq. */
  lemma AttractiveRegime(target: Vec, source: Vec, g: real, rEq: real, dist: real)
    requires g > 0.0
    requires !Excluded(Displacement(target, source))
    requires dist > 0.0 && dist * dist == Norm2(Displacement(target, source))
    ensures var d := Displacement(target, source);
            var c := Contribution(target, source, g, rEq);
            Cross(c, d) == 0.0 &&
            (dist > rEq ==> Dot(c, d) == g && Norm2(c) * Norm2(d) == g * g) &&
            (dist < rEq ==> Dot(c, d) == -g && Norm2(c) * Norm2(d) == g * g) &&
            (dist == rEq ==> c == Zero)
  {
    RegimeTests(Norm2(Displacement(target, source)), dist, rEq);
    ContributionAlongDisplacement(target, source, g, rEq);
  }

  /** Net force on a target at `t`: the sum of the contributions of every
      source row (the sum over axis 0 of the pairwise force array). */
  function NetForce(t: Vec, sources: seq<Particle>, g: real, rEq: real): (f: Vec)
    ensures g == 0.0 ==> f == Zero
  {
    if |sources| == 0 then Zero
    else
      var last := sources[|sources| - 1];
      Add(NetForce(t, sources[..|sources| - 1], g, rEq), Contribution(t, Pos(last), g, rEq))
  }

  /** The net force over two blocks of sources is the sum of the two. */
  lemma {:induction false} NetForceConcat(t: Vec, a: seq<Particle>, b: seq<Particle>, g: real, rEq: real)
    ensures NetForce(t, a + b, g, rEq) == Add(NetForce(t, a, g, rEq), NetForce(t, b, g, rEq))
  {
    if |b| == 0 {
      assert a + b == a;
    } else {
      var b' := b[..|b| - 1];
      assert (a + b)[..|a + b| - 1] == a + b';
      assert (a + b)[|a + b| - 1] == b[|b| - 1];
      NetForceConcat(t, a, b', g, rEq);
    }
  }

  /** The order of the sources does not matter, block by block. */
  lemma NetForceSwap(t: Vec, a: seq<Particle>, b: seq<Particle>, g: real, rEq: real)
    ensures NetForce(t, a + b, g, rEq) == NetForce(t, b + a, g, rEq)
  {
    NetForceConcat(t, a, b, g, rEq);
    NetForceConcat(t, b, a, g, rEq);
  }

  /** A source sharing the target's x or y coordinate adds nothing. */
  lemma NetForceSkipsExcluded(t: Vec, sources: seq<Particle>, i: nat, g: real, rEq: real)
    requires i < |sources|
    requires sources[i].x == t.x || sources[i].y == t.y
    ensures NetForce(t, sources, g, rEq) == NetForce(t, sources[..i] + sources[i + 1..], g, rEq)
  {
    var a, p, b := sources[..i], sources[i], sources[i + 1..];
    assert sources == (a + [p]) + b;
    NetForceConcat(t, a + [p], b, g, rEq);
    assert (a + [p])[..|a + [p]| - 1] == a;
    assert NetForce(t, a + [p], g, rEq) == Add(NetForce(t, a, g, rEq), Zero);
    NetForceConcat(t, a, b, g, rEq);
  }

  /** Self-pairs: the target's own row in the source array adds nothing. */
  lemma NetForceIgnoresSelf(sources: seq<Particle>, j: nat, g: real, rEq: real)
    requires j < |sources|
    ensures NetForce(Pos(sources[j]), sources, g, rEq)
         == NetForce(Pos(sources[j]), sources[..j] + sources[j + 1..], g, rEq)
  {
    NetForceSkipsExcluded(Pos(sources[j]), sources, j, g, rEq);
  }

  /** If every source lines up with the target on some axis, no force acts. */
  lemma {:induction false} NetForceAllExcluded(t: Vec, sources: seq<Particle>, g: real, rEq: real)
    requires forall i :: 0 <= i < |sources| ==> sources[i].x == t.x || sources[i].y == t.y
    ensures NetForce(t, sources, g, rEq) == Zero
  {
    if |sources| > 0 {
      NetForceAllExcluded(t, sources[..|sources| - 1], g, rEq);
    }
  }
}
