// One frame of game_loop: particle_interaction is called for every ordered
// (target, source) pair of species, targets in list order and, for each
// target, sources in list order. Each call updates its target in place before
// the next call, so later calls see positions already moved in this frame.

module GameLoop {
  import opened Particles
  import opened Boundary
  import opened Interaction

  /** The interaction coefficients: row = target species, column = source
      species, in the order yellow, blue, green, red. */
  const Interactions: seq<seq<real>> :=
    [[0.1, -0.01, -0.03, 0.01],
     [0.2, -0.02, -0.02, 0.01],
     [0.1, -0.02, 0.05, -0.01],
     [0.09, -0.1, 0.1, 0.05]]

  /** All species have the same number of particles. */
  predicate SameSize(state: seq<seq<Particle>>)
  {
    forall i :: 0 <= i < |state| ==> |state[i]| == |state[0]|
  }

  /** One coefficient per ordered pair of the k species. */
  predicate Square(coeffs: seq<seq<real>>, k: nat)
  {
    |coeffs| == k && forall i :: 0 <= i < k ==> |coeffs[i]| == k
  }

  /** The species state after the calls (t, 0), ..., (t, s - 1). Only species t
      changes, and no species changes size or colour. */
  function SourcesUpTo(state: seq<seq<Particle>>, coeffs: seq<seq<real>>, t: nat, s: nat,
                       width: int, height: int): (r: seq<seq<Particle>>)
    requires SameSize(state) && Square(coeffs, |state|)
    requires t < |state| && s <= |state|
    ensures |r| == |state| && SameSize(r)
    ensures forall i :: 0 <= i < |r| ==> |r[i]| == |state[i]|
    ensures forall i :: 0 <= i < |r| && i != t ==> r[i] == state[i]
  {
    if s == 0 then state
    else
      var prev := SourcesUpTo(state, coeffs, t, s - 1, width, height);
      prev[t := StepAll(prev[t], prev[s - 1], coeffs[t][s - 1], DefaultEquilibrium, Cyclic,
                        width, height)]
  }

  /** The species state after all calls for targets 0, ..., t - 1. Species not
      yet targeted are as at the start of the frame. */
  function TargetsUpTo(state: seq<seq<Particle>>, coeffs: seq<seq<real>>, t: nat,
                       width: int, height: int): (r: seq<seq<Particle>>)
    requires SameSize(state) && Square(coeffs, |state|)
    requires t <= |state|
    ensures |r| == |state| && SameSize(r)
    ensures forall i :: 0 <= i < |r| ==> |r[i]| == |state[i]|
    ensures forall i :: t <= i < |r| ==> r[i] == state[i]
  {
    if t == 0 then state
    else SourcesUpTo(TargetsUpTo(state, coeffs, t - 1, width, height), coeffs, t - 1, |state|,
                     width, height)
  }

  /** The coefficient matrix has one entry per ordered pair of the four
      species and is not symmetric: yellow feels blue (-0.01) differently from
      how blue feels yellow (0.2). Self-interaction is attractive for yellow,
      green and red and repulsive for blue. */
  lemma InteractionsShape()
    ensures Square(Interactions, 4)
    ensures exists i, j :: 0 <= i < 4 && 0 <= j < 4 && Interactions[i][j] != Interactions[j][i]
    ensures Interactions[0][0] > 0.0 && Interactions[1][1] < 0.0
    ensures Interactions[2][2] > 0.0 && Interactions[3][3] > 0.0
  {
    assert Interactions[0][1] != Interactions[1][0];
  }

  /** The state at the end of one frame: every target species has had its
      calls with every source species, in list order. */
  function FrameResult(state: seq<seq<Particle>>, coeffs: seq<seq<real>>, width: int, height: int)
    : (r: seq<seq<Particle>>)
    requires SameSize(state) && Square(coeffs, |state|)
    ensures |r| == |state| && SameSize(r)
    ensures forall i :: 0 <= i < |r| ==> |r[i]| == |state[i]|
  {
    TargetsUpTo(state, coeffs, |state|, width, height)
  }

  /** Two versions of one species with the same particles' colours. */
  ghost predicate SameColours(a: seq<Particle>, b: seq<Particle>)
  {
    |a| == |b| && forall j :: 0 <= j < |a| ==> a[j].colour == b[j].colour
  }

  /** Colours are fixed: no call in the frame writes columns 0-2. */
  lemma {:induction false} SourcesKeepColours(state: seq<seq<Particle>>, coeffs: seq<seq<real>>,
                                              t: nat, s: nat, width: int, height: int)
    requires SameSize(state) && Square(coeffs, |state|)
    requires t < |state| && s <= |state|
    ensures var r := SourcesUpTo(state, coeffs, t, s, width, height);
            forall i :: 0 <= i < |r| ==> SameColours(r[i], state[i])
  {
    if s > 0 {
      var prev := SourcesUpTo(state, coeffs, t, s - 1, width, height);
      SourcesKeepColours(state, coeffs, t, s - 1, width, height);
      var row := StepAll(prev[t], prev[s - 1], coeffs[t][s - 1], DefaultEquilibrium, Cyclic,
                         width, height);
      assert SameColours(row, prev[t]);
      assert SameColours(row, state[t]);
    }
  }

  lemma {:induction false} TargetsKeepColours(state: seq<seq<Particle>>, coeffs: seq<seq<real>>,
                                              t: nat, width: int, height: int)
    requires SameSize(state) && Square(coeffs, |state|)
    requires t <= |state|
    ensures var r := TargetsUpTo(state, coeffs, t, width, height);
            forall i :: 0 <= i < |r| ==> SameColours(r[i], state[i])
  {
    if t > 0 {
      var prev := TargetsUpTo(state, coeffs, t - 1, width, height);
      TargetsKeepColours(state, coeffs, t - 1, width, height);
      SourcesKeepColours(prev, coeffs, t - 1, |state|, width, height);
    }
  }

  /** A whole frame keeps every species' size and every particle's colour. */
  lemma FrameKeepsColours(state: seq<seq<Particle>>, coeffs: seq<seq<real>>, width: int, height: int)
    requires SameSize(state) && Square(coeffs, |state|)
    ensures var r := FrameResult(state, coeffs, width, height);
            |r| == |state| &&
            (forall i :: 0 <= i < |r| ==> |r[i]| == |state[i]|) &&
            (forall i, j :: 0 <= i < |r| && 0 <= j < |r[i]| ==> r[i][j].colour == state[i][j].colour)
  {
    TargetsKeepColours(state, coeffs, |state|, width, height);
  }

  /** Once the calls for target i are done, species i is final for the frame. */
  lemma {:induction false} TargetFinalAfterItsTurn(state: seq<seq<Particle>>, coeffs: seq<seq<real>>,
                                                   i: nat, t: nat, width: int, height: int)
    requires SameSize(state) && Square(coeffs, |state|)
    requires i < t <= |state|
    ensures TargetsUpTo(state, coeffs, t, width, height)[i]
         == TargetsUpTo(state, coeffs, i + 1, width, height)[i]
  {
    if t > i + 1 {
      TargetFinalAfterItsTurn(state, coeffs, i, t - 1, width, height);
    }
  }

  /** Read-after-write order: while target t is updated, a source species
      s != t is read with its whole frame update already applied when s comes
      before t, and untouched when s comes after t. */
  lemma SourceSeenByTarget(state: seq<seq<Particle>>, coeffs: seq<seq<real>>, t: nat, s: nat,
                           width: int, height: int)
    requires SameSize(state) && Square(coeffs, |state|)
    requires t < |state| && s < |state| && s != t
    ensures var before := SourcesUpTo(TargetsUpTo(state, coeffs, t, width, height), coeffs, t, s,
                                      width, height);
            before[s] == (if s < t then FrameResult(state, coeffs, width, height)[s] else state[s])
  {
    if s < t {
      TargetFinalAfterItsTurn(state, coeffs, s, t, width, height);
      TargetFinalAfterItsTurn(state, coeffs, s, |state|, width, height);
    }
  }

  /** The current contents of the species arrays. */
  ghost function Snapshot(species: seq<array<Particle>>): (r: seq<seq<Particle>>)
    reads species
    ensures |r| == |species|
    ensures forall i :: 0 <= i < |species| ==> r[i] == species[i][..]
  {
    if |species| == 0 then []
    else Snapshot(species[..|species| - 1]) + [species[|species| - 1][..]]
  }

  lemma SnapshotIs(species: seq<array<Particle>>, state: seq<seq<Particle>>)
    requires |state| == |species|
    requires forall i :: 0 <= i < |species| ==> species[i][..] == state[i]
    ensures Snapshot(species) == state
  {
  }

  /** The species arrays are distinct objects of one common length. */
  ghost predicate SpeciesArrays(species: seq<array<Particle>>)
  {
    (forall i, j :: 0 <= i < |species| && 0 <= j < |species| && i != j ==> species[i] != species[j]) &&
    (forall i :: 0 <= i < |species| ==> species[i].Length == species[0].Length)
  }

  lemma SpeciesArraysSameSize(species: seq<array<Particle>>)
    requires SpeciesArrays(species)
    ensures SameSize(Snapshot(species))
  {
  }

  /** The species arrays hold the state after the calls (t, 0), ..., (t, s - 1)
      that started from `start`. */
  ghost predicate AfterSources(species: seq<array<Particle>>, coeffs: seq<seq<real>>, t: nat, s: nat,
                               width: int, height: int, start: seq<seq<Particle>>)
    reads species
  {
    SameSize(start) && Square(coeffs, |start|) && |start| == |species| &&
    t < |start| && s <= |start| &&
    Snapshot(species) == SourcesUpTo(start, coeffs, t, s, width, height)
  }

  /** One call particle_interaction(particles_1 = species[t],
      particles_2 = species[s], interactions[t][s]) inside the nested loops,
      with r_eq and box left at their defaults: it performs pair (t, s) of
      the frame. */
  method InteractPair(species: seq<array<Particle>>, coeffs: seq<seq<real>>, t: nat, s: nat,
                      width: int, height: int, ghost start: seq<seq<Particle>>)
    requires SpeciesArrays(species) && s < |species|
    requires AfterSources(species, coeffs, t, s, width, height, start)
    modifies species[t]
    ensures AfterSources(species, coeffs, t, s + 1, width, height, start)
  {
    ghost var prev := Snapshot(species);
    Interact(species[t], species[s], width, height, coeffs[t][s]);
    assert ParseBox(DefaultBox) == Cyclic;
    SnapshotIs(species, prev[t := StepAll(prev[t], prev[s], coeffs[t][s], DefaultEquilibrium,
                                          Cyclic, width, height)]);
  }

  /** The inner loop of game_loop for target species t: particle_interaction
      with every source species in list order, including t itself. It takes
      the frame from the state before target t to the state after it. */
  method UpdateTarget(species: seq<array<Particle>>, coeffs: seq<seq<real>>, t: nat,
                      width: int, height: int, ghost start: seq<seq<Particle>>)
    requires SpeciesArrays(species) && Square(coeffs, |species|) && t < |species|
    requires SameSize(start) && |start| == |species|
    requires Snapshot(species) == TargetsUpTo(start, coeffs, t, width, height)
    modifies species[t]
    ensures Snapshot(species) == TargetsUpTo(start, coeffs, t + 1, width, height)
  {
    ghost var base := Snapshot(species);
    var s := 0;
    while s < |species|
      invariant AfterSources(species, coeffs, t, s, width, height, base)
    {
      InteractPair(species, coeffs, t, s, width, height, base);
      s := s + 1;
    }
  }

  /** The body of the game loop that moves the particles: for each target
      species in list order, its inner loop over all source species. */
  method Frame(species: seq<array<Particle>>, coeffs: seq<seq<real>>, width: int, height: int)
    requires SpeciesArrays(species) && Square(coeffs, |species|)
    modifies species
    ensures SameSize(old(Snapshot(species)))
    ensures Snapshot(species) == FrameResult(old(Snapshot(species)), coeffs, width, height)
  {
    ghost var start := Snapshot(species);
    SpeciesArraysSameSize(species);
    var t := 0;
    while t < |species|
      invariant 0 <= t <= |species|
      invariant Snapshot(species) == TargetsUpTo(start, coeffs, t, width, height)
    {
      UpdateTarget(species, coeffs, t, width, height, start);
      t := t + 1;
    }
  }

  /** One frame of the program as configured: the yellow, blue, green and red
      species with the fixed coefficient matrix. */
  method GameLoopFrame(yellow: array<Particle>, blue: array<Particle>, green: array<Particle>,
                       red: array<Particle>, width: int, height: int)
    requires yellow != blue && yellow != green && yellow != red
    requires blue != green && blue != red && green != red
    requires yellow.Length == blue.Length == green.Length == red.Length
    modifies yellow, blue, green, red
    ensures SameSize(old(Snapshot([yellow, blue, green, red])))
    ensures Snapshot([yellow, blue, green, red])
         == FrameResult(old(Snapshot([yellow, blue, green, red])), Interactions, width, height)
  {
    Frame([yellow, blue, green, red], Interactions, width, height);
  }
}
