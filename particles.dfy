// The row layout of one species: each particle is a row of seven numbers,
// colour (columns 0-2), position (3-4) and velocity (5-6).

module Particles {

  /** The three colour channels (columns 0, 1, 2), fixed at creation. */
  datatype Colour = Colour(r: real, g: real, b: real)

  /** One row of a species array: colour, position (x, y), velocity (vx, vy). */
  datatype Particle = Particle(colour: Colour, x: real, y: real, vx: real, vy: real)

  /** A two-component vector: a position, a displacement or a force. */
  datatype Vec = Vec(x: real, y: real)

  const Zero := Vec(0.0, 0.0)

  function Pos(p: Particle): Vec { Vec(p.x, p.y) }

  function Add(a: Vec, b: Vec): Vec { Vec(a.x + b.x, a.y + b.y) }

  function Dot(a: Vec, b: Vec): real { a.x * b.x + a.y * b.y }

  /** Zero exactly when the two vectors are parallel. */
  function Cross(a: Vec, b: Vec): real { a.x * b.y - a.y * b.x }

  function Norm2(a: Vec): real { a.x * a.x + a.y * a.y }

  /** A freshly created particle: the species colour, an integer position
      drawn from [0, width - 2] x [0, height - 2], and zero velocity. */
  ghost predicate Initial(p: Particle, c: Colour, width: int, height: int)
  {
    p.colour == c && p.vx == 0.0 && p.vy == 0.0 &&
    p.x == p.x.Floor as real && p.y == p.y.Floor as real &&
    0.0 <= p.x <= (width - 2) as real && 0.0 <= p.y <= (height - 2) as real
  }

  /** create_particles: n rows with the given colour, zero velocity and the
      positions xs[i], ys[i], which stand for the random integers drawn by
      the program (uniform over [0, width - 1), i.e. 0 .. width - 2). */
  method CreateParticles(n: nat, c: Colour, width: int, height: int, xs: seq<int>, ys: seq<int>)
    returns (a: array<Particle>)
    requires width >= 2 && height >= 2
    requires |xs| == n && |ys| == n
    requires forall i :: 0 <= i < n ==> 0 <= xs[i] <= width - 2
    requires forall i :: 0 <= i < n ==> 0 <= ys[i] <= height - 2
    ensures fresh(a) && a.Length == n
    ensures forall i :: 0 <= i < n ==> Initial(a[i], c, width, height)
    ensures forall i :: 0 <= i < n ==> a[i].x == xs[i] as real && a[i].y == ys[i] as real
  {
    a := new Particle[n];
    for i := 0 to n
      invariant forall k :: 0 <= k < i ==> a[k] == Particle(c, xs[k] as real, ys[k] as real, 0.0, 0.0)
    {
      a[i] := Particle(c, xs[i] as real, ys[i] as real, 0.0, 0.0);
    }
  }
}
