// The boundary step of particle_interaction: particles leaving the screen
// either re-enter on the opposite side ("cyclic") or bounce off the wall
// ("repulsive").

module Boundary {
  import opened Particles

  datatype BoxMode = Cyclic | Repulsive

  /** The `box` argument: "repulsive" selects bouncing; "cyclic" and every
      unrecognised value select wrapping (the bad value is reported and
      replaced by "cyclic"). */
  function ParseBox(box: string): (m: BoxMode)
    ensures m == Repulsive <==> box == "repulsive"
    ensures m == Cyclic <==> box != "repulsive"
  {
    if box == "repulsive" then Repulsive
    else if box == "cyclic" then Cyclic
    else Cyclic
  }

  /** Cyclic re-entry of one coordinate: first width is subtracted from a
      coordinate >= width, then width is added to a coordinate <= 0 (the
      second test sees the result of the first). */
  function Wrap(x: real, w: real): (r: real)
    ensures r == x || r == x - w || r == x + w
    ensures w > 0.0 && -w < x < 2.0 * w ==> 0.0 < r <= w
    ensures 0.0 < x < w ==> r == x
  {
    var shifted := if x >= w then x - w else x;
    if shifted <= 0.0 then shifted + w else shifted
  }

  /** Wrapping is idempotent on every coordinate within one screen length of
      the screen, i.e. in (-w, 2w): a second wrap changes nothing. */
  lemma WrapIdempotent(x: real, w: real)
    requires w > 0.0 && -w < x < 2.0 * w
    ensures Wrap(Wrap(x, w), w) == Wrap(x, w)
  {
    var r := Wrap(x, w);
    assert 0.0 < r <= w;
  }

  /** A coordinate leaving through one wall re-enters one screen length away:
      beyond the right wall it moves left by w, at or before the left wall it
      moves right by w. */
  lemma WrapShift(x: real, w: real)
    requires w > 0.0
    ensures w <= x < 2.0 * w && x != w ==> Wrap(x, w) == x - w
    ensures x == w ==> Wrap(x, w) == w
    ensures -w < x <= 0.0 ==> Wrap(x, w) == x + w
  {
  }

  /** Reflection of one velocity component: negated when the coordinate is
      >= w and negated (again) when it is <= 0. */
  function Reflect(x: real, v: real, w: real): (r: real)
    ensures r == v || r == -v
    ensures w > 0.0 ==> r == (if x >= w || x <= 0.0 then -v else v)
  {
    var once := if x >= w then -v else v;
    if x <= 0.0 then -once else once
  }

  /** A bounce keeps the speed along the axis and points it back inside: a
      particle past the right wall moves left, one past the left wall moves
      right, unless it was at rest along that axis. */
  lemma ReflectPointsInward(x: real, v: real, w: real)
    requires w > 0.0
    ensures Reflect(x, v, w) * Reflect(x, v, w) == v * v
    ensures x >= w && v > 0.0 ==> Reflect(x, v, w) < 0.0
    ensures x <= 0.0 && v < 0.0 ==> Reflect(x, v, w) > 0.0
  {
  }

  /** The boundary step for one row: cyclic mode changes only the position,
      repulsive mode changes only the velocity. */
  function Confine(p: Particle, mode: BoxMode, width: int, height: int): (r: Particle)
    ensures r.colour == p.colour
    ensures mode == Cyclic ==> r.vx == p.vx && r.vy == p.vy
    ensures mode == Repulsive ==> r.x == p.x && r.y == p.y
  {
    match mode
    case Repulsive =>
      p.(vx := Reflect(p.x, p.vx, width as real), vy := Reflect(p.y, p.vy, height as real))
    case Cyclic =>
      p.(x := Wrap(p.x, width as real), y := Wrap(p.y, height as real))
  }

  /** Cyclic mode puts every particle that overshot by less than one screen
      length back into (0, width] x (0, height]. */
  lemma CyclicKeepsInScreen(p: Particle, width: int, height: int)
    requires width > 0 && height > 0
    requires -(width as real) < p.x < 2.0 * width as real
    requires -(height as real) < p.y < 2.0 * height as real
    ensures var r := Confine(p, Cyclic, width, height);
            0.0 < r.x <= width as real && 0.0 < r.y <= height as real
  {
  }
}
