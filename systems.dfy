/**
 * The starfield's systems as the program runs them: `setup` once, then, every
 * frame, `reset_stars`, `calculate_velocity` and `move_stars`, each updating
 * the star components in place.
 *
 * The world's star entities are an array in the order a query visits them.
 * The frame time `time.delta_seconds()` is the parameter `dt`, the square
 * root the parameter `sqrt`, and the random source an `Rng` object that
 * counts its draws. Each method is proved to compute the value the
 * corresponding function of module Starfield gives, so the lemmas there
 * apply to it.
 */
module Systems {
  import opened Vectors
  import opened Starfield

  /**
   * The random source behind `rand_in_range`: the `k`-th draw is
   * `oracle(range, k)`, where `range` is the range it was requested from.
   */
  class Rng {
    const oracle: Oracle
    var drawn: nat

    /**
     * What `gen_range` promises of the source: each draw from a non-empty
     * range lies in it. This is an assumption about the oracle, not an
     * invariant the class establishes, so contracts state it as a hypothesis.
     */
    ghost predicate DrawsAreInRange() {
      DrawsInRange(oracle)
    }

    constructor (oracle: Oracle)
      ensures this.oracle == oracle && drawn == 0
    {
      this.oracle := oracle;
      drawn := 0;
    }

    /** `rand_in_range(range)`: the next draw. `gen_range` panics on an empty range, so callers must not pass one. */
    method RandInRange(range: RangeInclusive) returns (v: real)
      requires range.lo <= range.hi
      modifies this
      ensures v == oracle(range, old(drawn)) && drawn == old(drawn) + 1
      ensures DrawsAreInRange() ==> range.Contains(v)
    {
      v := oracle(range, drawn);
      drawn := drawn + 1;
    }
  }

  /** `Star::default()`: at rest, with a base speed drawn from `MOVE_SPEED_RANGE`. */
  method StarDefault(rng: Rng) returns (star: Star)
    modifies rng
    ensures star == DefaultStar(rng.oracle, old(rng.drawn)) && rng.drawn == old(rng.drawn) + 1
    ensures rng.DrawsAreInRange() ==> star.velocity == ZERO && MOVE_SPEED_RANGE.Contains(star.baseSpeed)
  {
    var baseSpeed := rng.RandInRange(MOVE_SPEED_RANGE);
    var velocity := ZERO;
    star := Star(velocity, baseSpeed);
  }

  /** One iteration of `setup`'s loop: x and y from the space extent, z from the half extent, then `Star::default()`. */
  method SpawnOne(rng: Rng) returns (e: StarEntity)
    modifies rng
    ensures e == SpawnedStar(rng.oracle, old(rng.drawn)) && rng.drawn == old(rng.drawn) + DRAWS_PER_STAR
  {
    var x := rng.RandInRange(SpaceExtent());
    var y := rng.RandInRange(SpaceExtent());
    var z := rng.RandInRange(HalfSpaceExtent());
    var translation := Vec3(x, y, z);
    var star := StarDefault(rng);
    e := StarEntity(translation, star);
  }

  /**
   * `setup`: spawns `NUM_STARS + 1` stars, each at a random x and y in the
   * space extent and z in the half extent, with a default `Star`.
   */
  method Setup(rng: Rng) returns (stars: seq<StarEntity>)
    modifies rng
    ensures stars == Spawned(NUM_STARS + 1, rng.oracle, old(rng.drawn))
    ensures rng.drawn == old(rng.drawn) + DRAWS_PER_STAR * (NUM_STARS + 1)
    ensures rng.DrawsAreInRange() ==> |stars| == 1301 && SpeedsInRange(stars) && AllSpawnedWell(stars)
  {
    ghost var k0 := rng.drawn;
    stars := [];
    for i := 0 to NUM_STARS + 1
      invariant stars == Spawned(i, rng.oracle, k0)
      invariant rng.drawn == k0 + DRAWS_PER_STAR * i
    {
      var e := SpawnOne(rng);
      SpawnedStep(i, rng.oracle, k0);
      stars := stars + [e];
    }
    if rng.DrawsAreInRange() {
      SetupPopulation(rng.oracle, k0);
      assert |stars| == 1301 && SpeedsInRange(stars) && AllSpawnedWell(stars);
    }
  }

  /** The closure `reset_stars` runs on one star: a star outside the extent is respawned, with four draws. */
  method ResetOne(e: StarEntity, rng: Rng) returns (r: StarEntity)
    modifies rng
    ensures r == ResetStar(e, rng.oracle, old(rng.drawn))
    ensures rng.drawn == old(rng.drawn) + (if OutsideExtent(e.translation) then DRAWS_PER_STAR else 0)
  {
    r := e;
    if OutsideExtent(e.translation) {
      var x := rng.RandInRange(HalfSpaceExtent());
      var y := rng.RandInRange(HalfSpaceExtent());
      var z := rng.RandInRange(HalfSpaceExtent());
      var baseSpeed := rng.RandInRange(MOVE_SPEED_RANGE);
      r := StarEntity(Vec3(x, y, z), e.star.(baseSpeed := baseSpeed));
    }
  }

  /**
   * `reset_stars`: every star outside the extent is moved to a random spot
   * in the half extent and given a new base speed; the others are left
   * alone. Afterwards no star is outside the extent.
   */
  method ResetStars(stars: array<StarEntity>, rng: Rng)
    modifies stars, rng
    ensures stars[..] == Reset(old(stars[..]), rng.oracle, old(rng.drawn))
    ensures rng.drawn == old(rng.drawn) + DRAWS_PER_STAR * CountOutside(old(stars[..]))
    ensures rng.DrawsAreInRange() ==> AllInsideExtent(stars[..])
  {
    ghost var s0 := stars[..];
    ghost var k0 := rng.drawn;
    for i := 0 to stars.Length
      invariant stars[..i] == Reset(s0[..i], rng.oracle, k0)
      invariant forall j :: i <= j < stars.Length ==> stars[j] == s0[j]
      invariant rng.drawn == k0 + DRAWS_PER_STAR * CountOutside(s0[..i])
    {
      ghost var before := stars[..];
      var r := ResetOne(stars[i], rng);
      ResetStep(s0, before, rng.oracle, k0, i, r);
      stars[i] := r;
      assert stars[..] == before[i := r];
    }
    assert stars[..] == stars[..stars.Length];
    assert s0 == s0[..stars.Length];
    if rng.DrawsAreInRange() {
      ResetLeavesAllInside(s0, rng.oracle, k0);
    }
  }

  /** `calculate_velocity`: every star's velocity is recomputed from its translation and base speed. */
  method CalculateVelocity(stars: array<StarEntity>, dt: real, sqrt: real -> real)
    modifies stars
    ensures stars[..] == CalculateVelocities(old(stars[..]), dt, sqrt)
    ensures IsSqrt(sqrt) ==> forall i :: 0 <= i < stars.Length ==> RadialVelocity(stars[i], dt)
  {
    ghost var s0 := stars[..];
    for i := 0 to stars.Length
      invariant forall j :: 0 <= j < i ==> stars[j] == WithVelocity(s0[j], dt, sqrt)
      invariant forall j :: i <= j < stars.Length ==> stars[j] == s0[j]
    {
      var e := stars[i];
      var velocity := Velocity(e.translation, e.star.baseSpeed, dt, sqrt);
      stars[i] := e.(star := e.star.(velocity := velocity));
    }
    if IsSqrt(sqrt) {
      CalculateVelocitiesRadial(s0, dt, sqrt);
    }
  }

  /** `move_stars`: every star's translation is advanced by its velocity times `dt`. */
  method MoveStars(stars: array<StarEntity>, dt: real)
    modifies stars
    ensures stars[..] == Move(old(stars[..]), dt)
  {
    ghost var s0 := stars[..];
    for i := 0 to stars.Length
      invariant forall j :: 0 <= j < i ==> stars[j] == Moved(s0[j], dt)
      invariant forall j :: i <= j < stars.Length ==> stars[j] == s0[j]
    {
      var e := stars[i];
      stars[i] := e.(translation := Add(e.translation, Scale(e.star.velocity, dt)));
    }
  }

  /**
   * One frame of the schedule: `reset_stars` in the pre-update stage,
   * `calculate_velocity` in the update stage, `move_stars` in the
   * post-update stage. Base speeds stay in `MOVE_SPEED_RANGE`.
   */
  method RunFrame(stars: array<StarEntity>, rng: Rng, dt: real, sqrt: real -> real)
    modifies stars, rng
    ensures stars[..] == Frame(old(stars[..]), rng.oracle, old(rng.drawn), dt, sqrt)
    ensures rng.drawn == old(rng.drawn) + DRAWS_PER_STAR * CountOutside(old(stars[..]))
    ensures rng.DrawsAreInRange() && SpeedsInRange(old(stars[..])) ==> SpeedsInRange(stars[..])
  {
    ghost var s0 := stars[..];
    ghost var k0 := rng.drawn;
    ResetStars(stars, rng);
    CalculateVelocity(stars, dt, sqrt);
    MoveStars(stars, dt);
    if rng.DrawsAreInRange() && SpeedsInRange(s0) {
      FrameKeepsSpeedsInRange(s0, rng.oracle, k0, dt, sqrt);
    }
  }
}
