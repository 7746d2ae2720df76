/**
 * The per-frame simulation of a starfield (src/main.rs), stated as values.
 *
 * Every star entity carries a translation and a `Star` component (velocity
 * and base speed). Three passes run once per frame, in this order:
 * `reset_stars` respawns the stars whose x or y left the space extent,
 * `calculate_velocity` replaces every velocity by a radial one, and
 * `move_stars` adds `velocity * dt` to every translation. This module gives
 * the value each pass computes, on a sequence of entities in the order the
 * passes visit them, and proves what the program relies on. The imperative
 * passes in module Systems are proved to compute exactly these values.
 *
 * Floats are reals. Randomness is an oracle: `oracle(range, k)` is the `k`-th
 * draw of the program's random source, requested from `range`, and all that
 * is assumed of it is `DrawsInRange`.
 */
module Starfield {
  import opened Vectors

  const ACCELERATION_MULTIPLIER: real := 1.0
  const SPACE_EXTENT: real := 1000.0
  const MOVE_SPEED_RANGE := RangeInclusive(10.0, 80.0)
  const NUM_STARS: nat := 1300

  /** Both `setup` and `reset_stars` draw x, y, z and then a base speed for each star they place. */
  const DRAWS_PER_STAR: nat := 4

  /** A closed interval `lo..=hi` of floats. */
  datatype RangeInclusive = RangeInclusive(lo: real, hi: real) {
    /** `RangeInclusive::contains`. */
    predicate Contains(v: real) {
      lo <= v <= hi
    }
  }

  /** `space_extent()`: `-SPACE_EXTENT..=SPACE_EXTENT`, that is `-1000..=1000`. */
  function SpaceExtent(): (r: RangeInclusive)
    ensures r == RangeInclusive(-1000.0, 1000.0) && r.lo <= r.hi
  {
    RangeInclusive(-SPACE_EXTENT, SPACE_EXTENT)
  }

  /** `half_space_extent()`: the space extent halved, `-500..=500`, which lies inside the space extent. */
  function HalfSpaceExtent(): (r: RangeInclusive)
    ensures r == RangeInclusive(-500.0, 500.0)
    ensures SpaceExtent().lo <= r.lo <= r.hi <= SpaceExtent().hi
  {
    var half := SPACE_EXTENT / 2.0;
    RangeInclusive(-half, half)
  }

  /** The `Star` component. */
  datatype Star = Star(velocity: Vec3, baseSpeed: real)

  /** A star entity as the passes see it: the translation of its `Transform` and its `Star` component. */
  datatype StarEntity = StarEntity(translation: Vec3, star: Star)

  /** The random source: `oracle(range, k)` is its `k`-th draw, which was requested from `range`. */
  type Oracle = (RangeInclusive, nat) -> real

  /** What `gen_range` promises: every draw from a non-empty closed range lies in that range. */
  ghost predicate DrawsInRange(oracle: Oracle) {
    forall r: RangeInclusive, k: nat :: r.lo <= r.hi ==> r.Contains(oracle(r, k))
  }

  // ---------------------------------------------------------------- setup

  /** One more iteration of `setup`'s loop appends one star, built from the next four draws. */
  lemma SpawnedStep(n: nat, oracle: Oracle, k: nat)
    ensures Spawned(n + 1, oracle, k) == Spawned(n, oracle, k) + [SpawnedStar(oracle, k + DRAWS_PER_STAR * n)]
  {
  }

  /** Where `setup` places a star: at rest, x and y in the space extent, z in the half extent. */
  predicate SpawnedWell(e: StarEntity) {
    e.translation.Vec3? && SpaceExtent().Contains(e.translation.x) && SpaceExtent().Contains(e.translation.y)
    && HalfSpaceExtent().Contains(e.translation.z) && e.star.velocity == ZERO
  }

  /** `Star::default()`, whose base speed is the draw numbered `k`: at rest, with a speed in range. */
  function DefaultStar(oracle: Oracle, k: nat): (star: Star)
    ensures star.velocity == ZERO
    ensures DrawsInRange(oracle) ==> MOVE_SPEED_RANGE.Contains(star.baseSpeed)
  {
    Star(ZERO, oracle(MOVE_SPEED_RANGE, k))
  }

  /** The star one iteration of `setup`'s loop spawns, from the draws numbered `k` to `k + 3`. */
  function SpawnedStar(oracle: Oracle, k: nat): (e: StarEntity)
    ensures e.star.velocity == ZERO
    ensures DrawsInRange(oracle) ==> SpawnedWell(e) && MOVE_SPEED_RANGE.Contains(e.star.baseSpeed)
  {
    var x := oracle(SpaceExtent(), k);
    var y := oracle(SpaceExtent(), k + 1);
    var z := oracle(HalfSpaceExtent(), k + 2);
    StarEntity(Vec3(x, y, z), DefaultStar(oracle, k + 3))
  }

  /**
   * The first `n` stars `setup` spawns when its first draw is numbered `k`:
   * `n` stars, the `i`-th built from the draws `k + 4 * i` to `k + 4 * i + 3`.
   */
  function Spawned(n: nat, oracle: Oracle, k: nat): (s: seq<StarEntity>)
    ensures |s| == n
    ensures forall i :: 0 <= i < n ==> s[i] == SpawnedStar(oracle, k + DRAWS_PER_STAR * i)
  {
    if n == 0 then [] else Spawned(n - 1, oracle, k) + [SpawnedStar(oracle, k + DRAWS_PER_STAR * (n - 1))]
  }

  // ---------------------------------------------------------- reset_stars

  /**
   * The `outside_extent` closure: x or y is not in the space extent, which
   * with the constants written out is x or y beyond 1000 in magnitude. A
   * NaN coordinate is in no range, so a NaN translation is outside.
   */
  predicate OutsideExtent(t: Vec3)
    ensures OutsideExtent(t) <==> t.NaN? || t.x < -1000.0 || 1000.0 < t.x || t.y < -1000.0 || 1000.0 < t.y
  {
    match t
    case NaN => true
    case Vec3(x, y, _) => !SpaceExtent().Contains(x) || !SpaceExtent().Contains(y)
  }

  /** Every coordinate of `t` lies in the half extent. */
  predicate InHalfExtent(t: Vec3) {
    t.Vec3? && HalfSpaceExtent().Contains(t.x) && HalfSpaceExtent().Contains(t.y) && HalfSpaceExtent().Contains(t.z)
  }

  /**
   * `e` moved to a fresh spot with a fresh base speed, from the draws `k` to
   * `k + 3`: it keeps its velocity, lands in the half extent (so it is no
   * longer outside) and has a speed in range.
   */
  function Respawned(e: StarEntity, oracle: Oracle, k: nat): (r: StarEntity)
    ensures r.star.velocity == e.star.velocity
    ensures DrawsInRange(oracle) ==>
      InHalfExtent(r.translation) && !OutsideExtent(r.translation) && MOVE_SPEED_RANGE.Contains(r.star.baseSpeed)
  {
    var x := oracle(HalfSpaceExtent(), k);
    var y := oracle(HalfSpaceExtent(), k + 1);
    var z := oracle(HalfSpaceExtent(), k + 2);
    StarEntity(Vec3(x, y, z), e.star.(baseSpeed := oracle(MOVE_SPEED_RANGE, k + 3)))
  }

  /**
   * What `reset_stars` does to one star when the next draw is numbered `k`:
   * a star inside is left alone, a star outside is respawned; either way the
   * velocity is kept and the result is inside.
   */
  function ResetStar(e: StarEntity, oracle: Oracle, k: nat): (r: StarEntity)
    ensures !OutsideExtent(e.translation) ==> r == e
    ensures r.star.velocity == e.star.velocity
    ensures DrawsInRange(oracle) ==> !OutsideExtent(r.translation)
    ensures DrawsInRange(oracle) && OutsideExtent(e.translation) ==>
      InHalfExtent(r.translation) && MOVE_SPEED_RANGE.Contains(r.star.baseSpeed)
  {
    if OutsideExtent(e.translation) then Respawned(e, oracle, k) else e
  }

  /** How many stars of `s` are outside the extent. */
  function CountOutside(s: seq<StarEntity>): (c: nat)
    ensures c <= |s|
  {
    if s == [] then 0
    else CountOutside(s[..|s| - 1]) + (if OutsideExtent(s[|s| - 1].translation) then 1 else 0)
  }

  /** No star of `s` is outside the extent. */
  predicate AllInsideExtent(s: seq<StarEntity>) {
    forall i :: 0 <= i < |s| ==> !OutsideExtent(s[i].translation)
  }

  /**
   * `reset_stars` over `s` when its first draw is numbered `k`: only the
   * stars outside draw, and no star is added or removed
   * (`ResetLeavesAllInside` says that afterwards none is outside).
   */
  function Reset(s: seq<StarEntity>, oracle: Oracle, k: nat): (r: seq<StarEntity>)
    ensures |r| == |s|
  {
    if s == [] then []
    else
      var n := |s| - 1;
      Reset(s[..n], oracle, k) + [ResetStar(s[n], oracle, k + DRAWS_PER_STAR * CountOutside(s[..n]))]
  }

  // --------------------------------------------------- calculate_velocity

  /**
   * The velocity `calculate_velocity` gives a star at `translation`. It is
   * NaN for a NaN translation, and otherwise lies in the x-y plane.
   */
  function Velocity(translation: Vec3, baseSpeed: real, dt: real, sqrt: real -> real): (v: Vec3)
    ensures translation.NaN? ==> v.NaN?
    ensures v.Vec3? ==> v.z == 0.0
  {
    match translation
    case NaN => NaN
    case Vec3(x, y, _) =>
      var xy := Vec3(x, y, 0.0);
      var direction := Normalize(xy, sqrt);
      var acceleration := Length(xy, sqrt) * ACCELERATION_MULTIPLIER * dt;
      Scale(Scale(direction, acceleration), baseSpeed)
  }

  /** `e` with its velocity recomputed; its translation and base speed are kept. */
  function WithVelocity(e: StarEntity, dt: real, sqrt: real -> real): (r: StarEntity)
    ensures r.translation == e.translation && r.star.baseSpeed == e.star.baseSpeed
  {
    e.(star := e.star.(velocity := Velocity(e.translation, e.star.baseSpeed, dt, sqrt)))
  }

  /** `calculate_velocity` over `s`: only velocities change. */
  function CalculateVelocities(s: seq<StarEntity>, dt: real, sqrt: real -> real): (r: seq<StarEntity>)
    ensures |r| == |s|
    ensures forall i :: 0 <= i < |s| ==> r[i].translation == s[i].translation && r[i].star.baseSpeed == s[i].star.baseSpeed
  {
    seq(|s|, i requires 0 <= i < |s| => WithVelocity(s[i], dt, sqrt))
  }

  // ----------------------------------------------------------- move_stars

  /**
   * `e` advanced by `velocity * dt`. The `Star` component is kept, and the
   * new translation is NaN exactly when the old translation or the velocity is.
   */
  function Moved(e: StarEntity, dt: real): (r: StarEntity)
    ensures r.star == e.star
    ensures r.translation.NaN? <==> e.translation.NaN? || e.star.velocity.NaN?
  {
    e.(translation := Add(e.translation, Scale(e.star.velocity, dt)))
  }

  /** `move_stars` over `s`: only translations change. */
  function Move(s: seq<StarEntity>, dt: real): (r: seq<StarEntity>)
    ensures |r| == |s|
    ensures forall i :: 0 <= i < |s| ==> r[i].star == s[i].star
  {
    seq(|s|, i requires 0 <= i < |s| => Moved(s[i], dt))
  }

  /** One frame: the three passes in their fixed order. No pass adds or removes stars. */
  function Frame(s: seq<StarEntity>, oracle: Oracle, k: nat, dt: real, sqrt: real -> real): (r: seq<StarEntity>)
    ensures |r| == |s|
  {
    Move(CalculateVelocities(Reset(s, oracle, k), dt, sqrt), dt)
  }

  // ------------------------------------------------------------ predicates

  /** Every base speed in `s` lies in `MOVE_SPEED_RANGE`. */
  predicate SpeedsInRange(s: seq<StarEntity>) {
    forall i :: 0 <= i < |s| ==> MOVE_SPEED_RANGE.Contains(s[i].star.baseSpeed)
  }

  // ================================================================ lemmas

  /** The z coordinate never affects the outside test. */
  lemma OutsideExtentIgnoresZ(x: real, y: real, z1: real, z2: real)
    ensures OutsideExtent(Vec3(x, y, z1)) == OutsideExtent(Vec3(x, y, z2))
  {
  }

  /** A point with every coordinate in the half extent is not outside the extent. */
  lemma HalfExtentInsideSpaceExtent(t: Vec3)
    ensures InHalfExtent(t) ==> !OutsideExtent(t)
  {
  }

  /** Every star of `s` is `SpawnedWell`. */
  predicate AllSpawnedWell(s: seq<StarEntity>) {
    forall i :: 0 <= i < |s| ==> SpawnedWell(s[i])
  }

  /**
   * What `setup` builds: `NUM_STARS + 1` stars (the loop `0..=NUM_STARS` is
   * inclusive), each placed as `SpawnedWell` says with a base speed in range.
   */
  lemma SetupPopulation(oracle: Oracle, k: nat)
    requires DrawsInRange(oracle)
    ensures |Spawned(NUM_STARS + 1, oracle, k)| == 1301
    ensures SpeedsInRange(Spawned(NUM_STARS + 1, oracle, k))
    ensures AllSpawnedWell(Spawned(NUM_STARS + 1, oracle, k))
  {
    var s := Spawned(NUM_STARS + 1, oracle, k);
    forall i | 0 <= i < |s|
      ensures MOVE_SPEED_RANGE.Contains(s[i].star.baseSpeed) && SpawnedWell(s[i])
    {
      assert s[i] == SpawnedStar(oracle, k + DRAWS_PER_STAR * i);
    }
  }

  /** `reset_stars` treats each star on its own; star `i` uses the draws after those of the outside stars before it. */
  lemma {:induction false} ResetAt(s: seq<StarEntity>, oracle: Oracle, k: nat, i: nat)
    requires i < |s|
    ensures |Reset(s, oracle, k)| == |s|
    ensures Reset(s, oracle, k)[i] == ResetStar(s[i], oracle, k + DRAWS_PER_STAR * CountOutside(s[..i]))
  {
    var n := |s| - 1;
    var p := s[..n];
    assert Reset(s, oracle, k) == Reset(p, oracle, k) + [ResetStar(s[n], oracle, k + DRAWS_PER_STAR * CountOutside(p))];
    if i < n {
      ResetAt(p, oracle, k, i);
      assert p[..i] == s[..i];
    } else {
      assert s[..i] == p;
    }
  }

  /** Resetting one more star of `s`: the prefix grows by that star's reset, and the draws by its four if it was outside. */
  lemma ResetPrefix(s: seq<StarEntity>, oracle: Oracle, k: nat, i: nat)
    requires i < |s|
    ensures Reset(s[..i + 1], oracle, k) == Reset(s[..i], oracle, k) + [ResetStar(s[i], oracle, k + DRAWS_PER_STAR * CountOutside(s[..i]))]
    ensures CountOutside(s[..i + 1]) == CountOutside(s[..i]) + (if OutsideExtent(s[i].translation) then 1 else 0)
  {
    assert s[..i + 1][..i] == s[..i];
  }

  /**
   * One step of an in-place `reset_stars` over `s`: when the first `i` slots
   * of `cur` hold the reset prefix and `r` is star `i` reset, writing `r`
   * into slot `i` gives the reset prefix of length `i + 1`.
   */
  lemma ResetStep(s: seq<StarEntity>, cur: seq<StarEntity>, oracle: Oracle, k: nat, i: nat, r: StarEntity)
    requires i < |s| && i < |cur| && cur[..i] == Reset(s[..i], oracle, k)
    requires r == ResetStar(s[i], oracle, k + DRAWS_PER_STAR * CountOutside(s[..i]))
    ensures cur[i := r][..i + 1] == Reset(s[..i + 1], oracle, k)
    ensures CountOutside(s[..i + 1]) == CountOutside(s[..i]) + (if OutsideExtent(s[i].translation) then 1 else 0)
  {
    ResetPrefix(s, oracle, k, i);
    assert cur[i := r][..i + 1] == cur[..i] + [r];
  }

  /** A star inside the extent comes out of `reset_stars` unchanged: position, velocity and base speed. */
  lemma ResetKeepsInsideStars(s: seq<StarEntity>, oracle: Oracle, k: nat, i: nat)
    requires i < |s| && !OutsideExtent(s[i].translation)
    ensures |Reset(s, oracle, k)| == |s| && Reset(s, oracle, k)[i] == s[i]
  {
    ResetAt(s, oracle, k, i);
  }

  /**
   * A star outside the extent comes out of `reset_stars` with x, y and z in
   * the half extent and a base speed in range; no star's velocity changes.
   */
  lemma ResetRespawnsOutsideStars(s: seq<StarEntity>, oracle: Oracle, k: nat, i: nat)
    requires DrawsInRange(oracle) && i < |s|
    ensures |Reset(s, oracle, k)| == |s|
    ensures Reset(s, oracle, k)[i].star.velocity == s[i].star.velocity
    ensures OutsideExtent(s[i].translation) ==>
      InHalfExtent(Reset(s, oracle, k)[i].translation)
      && MOVE_SPEED_RANGE.Contains(Reset(s, oracle, k)[i].star.baseSpeed)
  {
    ResetAt(s, oracle, k, i);
  }

  /** After `reset_stars` every star is inside the extent. */
  lemma ResetLeavesAllInside(s: seq<StarEntity>, oracle: Oracle, k: nat)
    requires DrawsInRange(oracle)
    ensures AllInsideExtent(Reset(s, oracle, k))
  {
    var r := Reset(s, oracle, k);
    forall i | 0 <= i < |r|
      ensures !OutsideExtent(r[i].translation)
    {
      ResetAt(s, oracle, k, i);
    }
  }

  /** `reset_stars` keeps every base speed in range when all were in range before. */
  lemma ResetKeepsSpeedsInRange(s: seq<StarEntity>, oracle: Oracle, k: nat)
    requires DrawsInRange(oracle) && SpeedsInRange(s)
    ensures SpeedsInRange(Reset(s, oracle, k))
  {
    var r := Reset(s, oracle, k);
    forall i | 0 <= i < |r|
      ensures MOVE_SPEED_RANGE.Contains(r[i].star.baseSpeed)
    {
      ResetAt(s, oracle, k, i);
    }
  }

  /** When no star is outside, `reset_stars` changes nothing and draws nothing. */
  lemma {:induction false} ResetOfInsideIsIdentity(s: seq<StarEntity>, oracle: Oracle, k: nat)
    requires AllInsideExtent(s)
    ensures Reset(s, oracle, k) == s && CountOutside(s) == 0
  {
    if s != [] {
      var n := |s| - 1;
      assert AllInsideExtent(s[..n]) by {
        forall i | 0 <= i < n ensures !OutsideExtent(s[..n][i].translation) {
          assert s[..n][i] == s[i];
        }
      }
      ResetOfInsideIsIdentity(s[..n], oracle, k);
      assert !OutsideExtent(s[n].translation);
      assert s[..n] + [s[n]] == s;
    }
  }

  /** Resetting twice is resetting once: the second pass finds no star outside. */
  lemma ResetIdempotent(s: seq<StarEntity>, oracle: Oracle, k: nat, k': nat)
    requires DrawsInRange(oracle)
    ensures Reset(Reset(s, oracle, k), oracle, k') == Reset(s, oracle, k)
    ensures CountOutside(Reset(s, oracle, k)) == 0
  {
    ResetLeavesAllInside(s, oracle, k);
    ResetOfInsideIsIdentity(Reset(s, oracle, k), oracle, k');
  }

  /** `(x * (1 / l)) * (l * a * dt) * b` cancels to `x * (a * dt * b)`. */
  lemma CancelLength(x: real, l: real, a: real, dt: real, b: real)
    requires l != 0.0
    ensures ((x * (1.0 / l)) * (l * a * dt)) * b == x * (a * dt * b)
  {
  }

  /**
   * Away from the origin the velocity is radial: `(x, y, 0)` scaled by
   * `ACCELERATION_MULTIPLIER * dt * base_speed`. Its z is 0 and the old
   * velocity plays no part.
   */
  lemma VelocityIsRadial(t: Vec3, baseSpeed: real, dt: real, sqrt: real -> real)
    requires IsSqrt(sqrt) && t.Vec3? && (t.x != 0.0 || t.y != 0.0)
    ensures Velocity(t, baseSpeed, dt, sqrt) == Scale(Vec3(t.x, t.y, 0.0), ACCELERATION_MULTIPLIER * dt * baseSpeed)
    ensures Velocity(t, baseSpeed, dt, sqrt).Vec3? && Velocity(t, baseSpeed, dt, sqrt).z == 0.0
  {
    var xy := Vec3(t.x, t.y, 0.0);
    LengthZero(xy, sqrt);
    var l := Length(xy, sqrt);
    assert l != 0.0;
    CancelLength(t.x, l, ACCELERATION_MULTIPLIER, dt, baseSpeed);
    CancelLength(t.y, l, ACCELERATION_MULTIPLIER, dt, baseSpeed);
    CancelLength(0.0, l, ACCELERATION_MULTIPLIER, dt, baseSpeed);
  }

  /**
   * Exactly at the origin (of the x-y plane), or at a NaN position, the
   * velocity is all-NaN: `normalize()` of the zero vector is NaN.
   */
  lemma VelocityAtOrigin(t: Vec3, baseSpeed: real, dt: real, sqrt: real -> real)
    requires IsSqrt(sqrt)
    ensures t.NaN? || (t.x == 0.0 && t.y == 0.0) <==> Velocity(t, baseSpeed, dt, sqrt).NaN?
  {
    if t.Vec3? {
      var xy := Vec3(t.x, t.y, 0.0);
      LengthZero(xy, sqrt);
      if t.x != 0.0 || t.y != 0.0 {
        VelocityIsRadial(t, baseSpeed, dt, sqrt);
      }
    }
  }

  /**
   * For `dt >= 0` and `base_speed >= 0` the speed of a star is its distance
   * from the origin times `ACCELERATION_MULTIPLIER * dt * base_speed`.
   */
  lemma VelocityMagnitude(t: Vec3, baseSpeed: real, dt: real, sqrt: real -> real)
    requires IsSqrt(sqrt) && t.Vec3? && (t.x != 0.0 || t.y != 0.0) && 0.0 <= dt && 0.0 <= baseSpeed
    ensures Velocity(t, baseSpeed, dt, sqrt).Vec3?
    ensures Length(Velocity(t, baseSpeed, dt, sqrt), sqrt)
      == Length(Vec3(t.x, t.y, 0.0), sqrt) * (ACCELERATION_MULTIPLIER * dt * baseSpeed)
  {
    VelocityIsRadial(t, baseSpeed, dt, sqrt);
    ProductNonNeg(ACCELERATION_MULTIPLIER * dt, baseSpeed);
    LengthOfScaled(Vec3(t.x, t.y, 0.0), ACCELERATION_MULTIPLIER * dt * baseSpeed, sqrt);
  }

  /** With equal base speed and `dt`, a star farther from the origin is at least as fast. */
  lemma VelocityGrowsWithDistance(t1: Vec3, t2: Vec3, baseSpeed: real, dt: real, sqrt: real -> real)
    requires IsSqrt(sqrt) && t1.Vec3? && t2.Vec3? && (t1.x != 0.0 || t1.y != 0.0) && 0.0 <= dt && 0.0 <= baseSpeed
    requires Length(Vec3(t1.x, t1.y, 0.0), sqrt) <= Length(Vec3(t2.x, t2.y, 0.0), sqrt)
    ensures Velocity(t1, baseSpeed, dt, sqrt).Vec3? && Velocity(t2, baseSpeed, dt, sqrt).Vec3?
    ensures Length(Velocity(t1, baseSpeed, dt, sqrt), sqrt) <= Length(Velocity(t2, baseSpeed, dt, sqrt), sqrt)
  {
    var xy1, xy2 := Vec3(t1.x, t1.y, 0.0), Vec3(t2.x, t2.y, 0.0);
    var l1, l2 := Length(xy1, sqrt), Length(xy2, sqrt);
    LengthZero(xy1, sqrt);
    LengthZero(xy2, sqrt);
    assert l2 != 0.0;
    assert xy2 != ZERO;
    VelocityMagnitude(t1, baseSpeed, dt, sqrt);
    VelocityMagnitude(t2, baseSpeed, dt, sqrt);
    var c := ACCELERATION_MULTIPLIER * dt * baseSpeed;
    ProductNonNeg(ACCELERATION_MULTIPLIER * dt, baseSpeed);
    MulMonotone(l1, l2, c);
    assert Length(Velocity(t1, baseSpeed, dt, sqrt), sqrt) == l1 * c;
    assert Length(Velocity(t2, baseSpeed, dt, sqrt), sqrt) == l2 * c;
    assert l1 * c <= l2 * c;
  }

  /**
   * `calculate_velocity` computes each velocity from its own star's
   * translation and base speed alone: two populations that differ only in
   * their old velocities get the same result.
   */
  lemma CalculateVelocitiesForgetsOldVelocity(s1: seq<StarEntity>, s2: seq<StarEntity>, dt: real, sqrt: real -> real)
    requires |s1| == |s2|
    requires forall i :: 0 <= i < |s1| ==> s1[i].translation == s2[i].translation && s1[i].star.baseSpeed == s2[i].star.baseSpeed
    ensures CalculateVelocities(s1, dt, sqrt) == CalculateVelocities(s2, dt, sqrt)
  {
    var r1, r2 := CalculateVelocities(s1, dt, sqrt), CalculateVelocities(s2, dt, sqrt);
    forall i | 0 <= i < |s1| ensures r1[i] == r2[i] {
      assert r1[i] == WithVelocity(s1[i], dt, sqrt);
      assert r2[i] == WithVelocity(s2[i], dt, sqrt);
    }
  }

  /** `move_stars` adds `velocity * dt` to each coordinate, z included, and leaves the `Star` component alone. */
  lemma MoveAt(s: seq<StarEntity>, dt: real, i: nat)
    requires i < |s| && s[i].translation.Vec3? && s[i].star.velocity.Vec3?
    ensures |Move(s, dt)| == |s|
    ensures Move(s, dt)[i].star == s[i].star
    ensures Move(s, dt)[i].translation == Vec3(
      s[i].translation.x + s[i].star.velocity.x * dt,
      s[i].translation.y + s[i].star.velocity.y * dt,
      s[i].translation.z + s[i].star.velocity.z * dt)
  {
  }

  /** Moving by `-dt` with the same velocities undoes moving by `dt`. */
  lemma MoveUndone(s: seq<StarEntity>, dt: real)
    requires forall i :: 0 <= i < |s| ==> s[i].translation.Vec3? && s[i].star.velocity.Vec3?
    ensures Move(Move(s, dt), -dt) == s
  {
    var m := Move(Move(s, dt), -dt);
    forall i | 0 <= i < |s| ensures m[i] == s[i] {
      var t, v := s[i].translation, s[i].star.velocity;
      assert Move(s, dt)[i] == Moved(s[i], dt);
      assert (t.x + v.x * dt) + v.x * (-dt) == t.x;
      assert (t.y + v.y * dt) + v.y * (-dt) == t.y;
      assert (t.z + v.z * dt) + v.z * (-dt) == t.z;
    }
  }

  /** A frame keeps every base speed in `MOVE_SPEED_RANGE` once all are in it. */
  lemma FrameKeepsSpeedsInRange(s: seq<StarEntity>, oracle: Oracle, k: nat, dt: real, sqrt: real -> real)
    requires DrawsInRange(oracle) && SpeedsInRange(s)
    ensures SpeedsInRange(Frame(s, oracle, k, dt, sqrt))
  {
    ResetKeepsSpeedsInRange(s, oracle, k);
    var r := Reset(s, oracle, k);
    var f := Frame(s, oracle, k, dt, sqrt);
    forall i | 0 <= i < |f| ensures MOVE_SPEED_RANGE.Contains(f[i].star.baseSpeed) {
      assert f[i].star.baseSpeed == CalculateVelocities(r, dt, sqrt)[i].star.baseSpeed == r[i].star.baseSpeed;
    }
  }

  /** The velocity of `e` points along its position projected on the x-y plane, as `VelocityIsRadial` says. */
  predicate RadialVelocity(e: StarEntity, dt: real) {
    match e.translation
    case NaN => true
    case Vec3(x, y, _) =>
      (x != 0.0 || y != 0.0) ==> e.star.velocity == Scale(Vec3(x, y, 0.0), ACCELERATION_MULTIPLIER * dt * e.star.baseSpeed)
  }

  /** After `calculate_velocity` every star away from the z axis moves radially outwards from it. */
  lemma CalculateVelocitiesRadial(s: seq<StarEntity>, dt: real, sqrt: real -> real)
    requires IsSqrt(sqrt)
    ensures forall i :: 0 <= i < |s| ==> RadialVelocity(CalculateVelocities(s, dt, sqrt)[i], dt)
  {
    var c := CalculateVelocities(s, dt, sqrt);
    forall i | 0 <= i < |s| ensures RadialVelocity(c[i], dt) {
      var t := s[i].translation;
      assert c[i] == WithVelocity(s[i], dt, sqrt);
      if t.Vec3? && (t.x != 0.0 || t.y != 0.0) {
        VelocityIsRadial(t, s[i].star.baseSpeed, dt, sqrt);
      }
    }
  }

  /**
   * A star sitting exactly on the z axis gets a NaN velocity and a NaN
   * position, and the next frame's reset respawns it in the half extent.
   */
  lemma StarOnAxisRecoversNextFrame(s: seq<StarEntity>, oracle: Oracle, k: nat, k': nat, dt: real, sqrt: real -> real, i: nat)
    requires DrawsInRange(oracle) && IsSqrt(sqrt) && i < |s|
    requires s[i].translation.Vec3? && s[i].translation.x == 0.0 && s[i].translation.y == 0.0
    ensures |Frame(s, oracle, k, dt, sqrt)| == |s|
    ensures Frame(s, oracle, k, dt, sqrt)[i].translation.NaN?
    ensures |Reset(Frame(s, oracle, k, dt, sqrt), oracle, k')| == |s|
    ensures InHalfExtent(Reset(Frame(s, oracle, k, dt, sqrt), oracle, k')[i].translation)
  {
    ResetKeepsInsideStars(s, oracle, k, i);
    var r := Reset(s, oracle, k);
    VelocityAtOrigin(r[i].translation, r[i].star.baseSpeed, dt, sqrt);
    var c := CalculateVelocities(r, dt, sqrt);
    assert c[i] == WithVelocity(r[i], dt, sqrt);
    assert Frame(s, oracle, k, dt, sqrt)[i] == Moved(c[i], dt);
    ResetRespawnsOutsideStars(Frame(s, oracle, k, dt, sqrt), oracle, k', i);
  }

  /**
   * One frame for a star at `(1200, 0, 0)` with `dt = 0.016` whose fresh base
   * speed is 50: the reset puts it in the half extent; its velocity is its
   * distance times `1.0 * 0.016 * 50` in magnitude, radially outwards; and it
   * moves by that velocity times 0.016.
   */
  lemma OneFrameFromOutside(oracle: Oracle, sqrt: real -> real, e: StarEntity)
    requires DrawsInRange(oracle) && IsSqrt(sqrt) && oracle(MOVE_SPEED_RANGE, 3) == 50.0
    requires e.translation == Vec3(1200.0, 0.0, 0.0)
    ensures var r := Reset([e], oracle, 0)[0];
      InHalfExtent(r.translation) && r.star.baseSpeed == 50.0
      && var t := r.translation;
      (t.x != 0.0 || t.y != 0.0) ==>
        var v := Velocity(t, 50.0, 0.016, sqrt);
        v == Vec3(t.x * 0.8, t.y * 0.8, 0.0)
        && Length(v, sqrt) == Length(Vec3(t.x, t.y, 0.0), sqrt) * (1.0 * 0.016 * 50.0)
        && Frame([e], oracle, 0, 0.016, sqrt)[0].translation
          == Vec3(t.x + v.x * 0.016, t.y + v.y * 0.016, t.z + v.z * 0.016)
  {
    ResetRespawnsOutsideStars([e], oracle, 0, 0);
    ResetAt([e], oracle, 0, 0);
    assert [e][..0] == [];
    var r := Reset([e], oracle, 0)[0];
    var t := r.translation;
    if t.x != 0.0 || t.y != 0.0 {
      VelocityIsRadial(t, 50.0, 0.016, sqrt);
      VelocityMagnitude(t, 50.0, 0.016, sqrt);
      var c := CalculateVelocities(Reset([e], oracle, 0), 0.016, sqrt);
      assert c[0] == WithVelocity(r, 0.016, sqrt);
      MoveAt(c, 0.016, 0);
    }
  }
}
