# Particle Life — a verified model of the physics step

This project models the physics of Particle Life in Dafny. Four species of
particles move on a `width` x `height` screen. Each frame, every ordered pair
(target species, source species) runs one call of `particle_interaction`,
which:

1. computes every displacement from a target particle to a source particle;
2. picks attraction or repulsion from the coefficient `g` and the equilibrium
   distance `r_eq`;
3. sums the force on each target particle;
4. integrates velocity and then position in place;
5. applies a cyclic (wrap-around) or repulsive (bouncing) boundary.

The model also covers `create_particles`, which fixes the row layout, and the
nested pair order of `game_loop`. That order matters because every call updates
its target before the next call reads it.

Modules, one per concern:

- `Particles` (`particles.dfy`): one particle is one row of seven numbers.
  Columns 0–2 are the colour, 3–4 the position and 5–6 the velocity. The model
  writes a row as `Particle(colour, x, y, vx, vy)`, and a species as an
  `array<Particle>`. `CreateParticles` builds a species.
- `Forces` (`forces.dfy`): the force of one pair and the net force on a target.
  They are stated over `real` without a square root. A pair at displacement
  `d` contributes `f·d/|d|` with `f = ±g/|d|`, which is `(m/|d|²)·d` with
  `m ∈ {g, −g, 0}`. The test `|d| > r_eq` becomes `r_eq < 0 ∨ |d|² > r_eq²`.
  `ContributionMatchesRooted` proves this equals the program's formula with
  the square root (`RootedContribution`), for every `dist > 0` with
  `dist² = |d|²`.
- `Boundary` (`boundary.dfy`): the `box` argument, the cyclic wrap and the
  reflection.
- `Interaction` (`interaction.dfy`): integration, the whole effect of one call
  as a function `StepAll`, and the in-place method `Interact`. `Interact` has
  the same defaults for `g`, `r_eq` and `box` as `particle_interaction`
  (1.0, 40 and "cyclic"). It takes every force from a copy of the rows made
  before any write. So when `particles_1` and `particles_2` are the same array
  (a self-pair), forces still come from the positions before the call, as in
  the program.
- `GameLoop` (`game_loop.dfy`): one frame as nested loops over target and
  source species, proved against functions that apply the pairs in order
  (`SourcesUpTo`, `TargetsUpTo`, `FrameResult`).

Behaviour of the code that the model keeps, with the lines it comes from:

- **Exclusion.** A pair is excluded when either displacement component is zero,
  not only when both are (particle_life.py:152, :177). The zero component
  becomes NaN, NaN spreads to the whole pair, and `nan_to_num` turns it into
  0. So two particles on one horizontal or vertical line exert no force on
  each other at any distance. `AlignedPairFeelsNoForce` works through this:
  with dy = 0 the target at rest feels nothing, and it wraps from (0,0) to
  (1000,1000). `DiagonalPairInsideCoreRepels` is the same pair with the
  source at (10,10), where the force acts.
- **Equal distance.** For `g > 0` and `dist == r_eq` the force entry is 0,
  because neither mask is set (particle_life.py:165-168).
- **Initial positions.** They are integers in `[0, width − 2]` ×
  `[0, height − 2]`, from `randint(0, width − 1)` at particle_life.py:56-57.
  The docstring at particle_life.py:45-46 says they lie between 1 and the
  screen width.
- **Bad `box` value.** It is reported and falls back to cyclic
  (particle_life.py:125-128).
- **Damping.** The velocity is multiplied by 0.995 each step
  (particle_life.py:187-188).

## Model

| member | source | states |
|---|---|---|
| `Particles.CreateParticles` | particle_life.py:51-58 | n fresh rows; each has the given colour, the supplied integer position in [0, width−2] × [0, height−2], and zero velocity |
| `Forces.Contribution` | particle_life.py:150-177 | a pair whose x or y displacement is zero contributes nothing; with g = 0 no pair contributes anything |
| `Forces.ExcludedIffSilent` | particle_life.py:150-177 | a pair exerts no force for every coefficient g exactly when one of its displacement components is zero (the NaN of :152 cleared by :177); every other pair is felt for some g |
| `Forces.StrengthRegimes` | particle_life.py:160-172 | the strength m = f·dist is g, −g or 0; it is g at every distance when g ≤ 0; for g > 0 it is 0 exactly at the equilibrium distance |
| `Forces.ForceEntry` | particle_life.py:160-172 | the program's force entry f: negative (repulsion) for g < 0, zero for g = 0, and for g > 0 positive exactly beyond r_eq and negative exactly inside it; \|f\|·dist is \|g\| or f is 0 |
| `Forces.RootedContribution` | particle_life.py:155-176 | the program's pair vector f·d/dist with the square root: it lies along the displacement and is zero when f is 0 |
| `Forces.RegimeTests` | particle_life.py:165-166 | the root-free tests agree with the masks `d_abs > r_eq` and `d_abs < r_eq` for every distance whose square is \|d\|², negative r_eq included |
| `Forces.MagnitudeMatches` | particle_life.py:160-172 | ForceEntry, the program's force entry, is the strength m divided by the distance: g/dist, −g/dist or 0 in each regime |
| `Forces.ContributionMatchesRooted` | particle_life.py:150-176 | for every non-excluded pair, the root-free contribution equals RootedContribution, the program's unit vector d/dist scaled by f |
| `Forces.ContributionAlongDisplacement` | particle_life.py:155-176 | a counted contribution is parallel to the displacement, its dot product with d is m, and its squared length times \|d\|² is m² (magnitude \|m\|/dist) |
| `Forces.RepulsiveRegime` | particle_life.py:170-176 | for g ≤ 0, every counted pair pushes the target away from the source (dot product g) with magnitude \|g\|/dist; for g = 0 the contribution is zero |
| `Forces.AttractiveRegime` | particle_life.py:160-168 | for g > 0, dist > r_eq pulls toward the source (dot product g), dist < r_eq pushes away (−g), both with magnitude g/dist; dist = r_eq gives no force |
| `Forces.NetForce` | particle_life.py:180-181 | the net force on a target is the sum over all source rows; with g = 0 it is zero |
| `Forces.NetForceConcat` | particle_life.py:180-181 | the net force over two blocks of sources is the sum of the blocks' net forces |
| `Forces.NetForceSwap` | particle_life.py:180-181 | the summation order of the blocks of sources does not change the net force |
| `Forces.NetForceSkipsExcluded` | particle_life.py:150-181 | removing a source that shares the target's x or y coordinate does not change the net force |
| `Forces.NetForceIgnoresSelf` | particle_life.py:150-152 | in a self-pair, a particle's own row drops out of its net force |
| `Forces.NetForceAllExcluded` | particle_life.py:150-181 | if every source lines up with the target on some axis, the net force is zero |
| `Boundary.ParseBox` | particle_life.py:125-128 | "repulsive" selects bouncing; "cyclic" and every other string select wrapping |
| `Boundary.Wrap` | particle_life.py:203-206 | the wrapped coordinate differs from the input by −w, 0 or +w; a coordinate in (−w, 2w) ends in (0, w]; one already in (0, w) is unchanged |
| `Boundary.WrapIdempotent` | particle_life.py:203-206 | for a coordinate in (−w, 2w), wrapping the wrapped coordinate again changes nothing |
| `Boundary.WrapShift` | particle_life.py:203-206 | past the far wall the coordinate moves back by w, at or before 0 it moves forward by w, and exactly w stays at w |
| `Boundary.Reflect` | particle_life.py:196-199 | the velocity component is kept or negated; for w > 0 it is negated exactly when the coordinate is ≥ w or ≤ 0 |
| `Boundary.ReflectPointsInward` | particle_life.py:196-199 | a bounce keeps the speed along the axis and turns an outward velocity inward at either wall |
| `Boundary.Confine` | particle_life.py:194-206 | the boundary step keeps the colour; cyclic mode changes only positions, repulsive mode only velocities |
| `Boundary.CyclicKeepsInScreen` | particle_life.py:201-206 | in cyclic mode a particle that overshot the screen by less than its size ends in (0, width] × (0, height] |
| `Interaction.Integrate` | particle_life.py:185-191 | integration (new velocity = (velocity + 0.5·F)·0.995, new position = position + new velocity) never writes the colour columns; its partner IntegrateInvertible shows it loses no information |
| `Interaction.IntegrateInvertible` | particle_life.py:185-191 | integration can be undone exactly: old velocity = new/0.995 − 0.5·F, old position = new position − new velocity |
| `Interaction.StepParticle` | particle_life.py:185-206 | one target row after one call keeps its colour |
| `Interaction.StepAll` | particle_life.py:180-206 | a call keeps the number of target rows and every row's colour |
| `Interaction.ZeroCoefficientOnlyDrifts` | particle_life.py:170-191 | with g = 0 a row only drifts: velocity ·0.995, position + damped velocity, then the boundary |
| `Interaction.SelfPairSkipsOwnRow` | particle_life.py:141-152 | in a self-pair each row is stepped under the force of all other rows only |
| `Interaction.RepulsiveStep` | particle_life.py:194-199 | in repulsive mode the integrated position is kept and each velocity component is negated exactly when its coordinate is outside (0, size) |
| `Interaction.CyclicStep` | particle_life.py:201-206 | in cyclic mode the integrated velocity is kept and the position is wrapped into (0, size] when it overshot by less than one screen |
| `Interaction.AlignedPairFeelsNoForce` | particle_life.py:150-206 | target (0,0) and source (10,0) with g = 1, r_eq = 40, cyclic 1000×1000: no force, and the target wraps to (1000,1000) |
| `Interaction.DiagonalPairInsideCoreRepels` | particle_life.py:150-206 | target (0,0) and source (10,10): core repulsion (−0.05, −0.05), velocity (−0.024875, −0.024875), position wrapped to (999.975125, 999.975125) |
| `Interaction.Interact` | particle_life.py:71-208 | with g, r_eq and box defaulting to 1.0, 40 and "cyclic", particles_1 becomes StepAll of its old rows under forces from the old rows of particles_2, including when both are the same array; particles_2 is unchanged when it is a different array |
| `GameLoop.SourcesUpTo` | particle_life.py:247-248 | after the calls (t,0)…(t,s−1) only species t has changed, and no species has changed size |
| `GameLoop.TargetsUpTo` | particle_life.py:246-248 | after the calls of targets 0…t−1 the species not yet targeted are as at the start of the frame |
| `GameLoop.FrameResult` | particle_life.py:246-248 | the state after one frame, every target taken in list order with every source in list order; it keeps the number of species and their sizes |
| `GameLoop.InteractionsShape` | particle_life.py:237-243 | the coefficient matrix `Interactions` has one entry per ordered pair of the four species, is not symmetric, and makes self-interaction attractive for yellow, green and red and repulsive for blue |
| `GameLoop.SourcesKeepColours` | particle_life.py:247-248 | the calls for one target keep every particle's colour |
| `GameLoop.TargetsKeepColours` | particle_life.py:246-248 | the calls for targets 0…t−1 keep every particle's colour |
| `GameLoop.FrameKeepsColours` | particle_life.py:246-248 | a whole frame keeps the number of species, every species' size and every particle's colour |
| `GameLoop.TargetFinalAfterItsTurn` | particle_life.py:246-248 | once its own calls are done, a species does not change for the rest of the frame |
| `GameLoop.SourceSeenByTarget` | particle_life.py:246-248 | while target t is updated, an earlier source species is read in its final state for the frame and a later one in its state at the frame's start |
| `GameLoop.InteractPair` | particle_life.py:248 | one call, with r_eq and box at their defaults, performs pair (t, s) of the frame on the species arrays |
| `GameLoop.UpdateTarget` | particle_life.py:247-248 | the inner loop over all sources takes the species from the state before target t to the state after it |
| `GameLoop.Frame` | particle_life.py:231-248 | the nested loops leave the species arrays in FrameResult of their old contents |
| `GameLoop.GameLoopFrame` | particle_life.py:231-248 | one frame of yellow, blue, green and red with the fixed coefficient matrix, r_eq = 40 and cyclic boundary |

## Left out

- Window, display, event polling, clock, drawing and the `running` loop
  (particle_life.py:13-36, 60-69, 217-229, 250-259): these are I/O and UI. `GameLoop.Frame` models
  the body of one frame iteration only.
- Random positions in `create_particles`: the random integers are the
  parameters `xs` and `ys`. `width ≥ 2` and `height ≥ 2` are required, because
  `randint(0, width − 1)` fails otherwise.
- A negative particle count: `np.zeros` raises an error for it. The count is
  a `nat` in `CreateParticles`, so that error path is not modelled.
- The four `create_particles` calls of `game_loop` (particle_life.py:212-215)
  have no member of their own. Each call is one `CreateParticles` call.
- IEEE floating point: the model computes over `real`. The effect of NaN and
  `nan_to_num` is stated directly as the exclusion rule. Rounding, overflow and
  `nan_to_num`'s mapping of infinities are not modelled.
- `np.sqrt`: replaced by squared distances. `ContributionMatchesRooted` ties the
  model to the formula with the square root.
- The diagnostic printed for a bad `box` value: only its fallback to cyclic is
  modelled.
- NumPy broadcasting: the arrays `x1`, `x2`, `y1`, `y2` and `d` are not
  modelled. Broadcasting fails for arrays of different lengths, so
  `Interact` requires equal lengths.
- The return value of `particle_interaction`: it is the same array object, now
  updated in place, so `Interact` returns nothing.
- `width` and `height` are fields of the simulation object in the program. The
  model passes them as parameters. The object's other fields (screen, clock,
  running flag) are pygame state.
