# Starfield simulation model

This project models in Dafny the simulation core of a small Bevy program, `src/main.rs`, which draws a starfield flying outwards. The program spawns its stars once at startup. Each frame then runs three systems in a fixed order:

- `reset_stars` (pre-update stage) finds every star whose x or y has left `-1000..=1000`. It moves that star to a random point in `-500..=500` on all three axes and draws it a new base speed.
- `calculate_velocity` (update stage) gives every star the velocity `normalize(x, y, 0) * (length(x, y, 0) * 1.0 * dt) * base_speed`. This velocity points away from the z axis, and its size grows with the star's distance from that axis.
- `move_stars` (post-update stage) adds `velocity * dt` to every translation.

The model has three modules:

- **Vectors** holds the part of glam's `Vec3` that the program uses. A vector is either three reals or `NaN`, the all-NaN vector. `normalize()` of the zero vector gives `NaN`, and `length()` takes the square root as a parameter `sqrt`.
- **Starfield** holds the constants, `RangeInclusive`, the `Star` component and a star entity (a translation plus a `Star`). It gives the value each system computes over a sequence of entities (`Spawned`, `Reset`, `CalculateVelocities`, `Move`, `Frame`), and proves the lemmas below about those values.
- **Systems** holds the systems as the program runs them. Star components are updated in place in an `array`, visited in index order. The random source is an `Rng` object whose `k`-th draw is `oracle(range, k)`. Each method is proved to compute the value that the matching Starfield function gives:
  - `Setup` gives `Spawned`;
  - `ResetStars` gives `Reset`;
  - `CalculateVelocity` gives `CalculateVelocities`;
  - `MoveStars` gives `Move`;
  - `RunFrame` gives `Frame`.

Randomness is modelled as an oracle that counts its draws, so every random value is a specific draw. `setup` draws x, y, z and then the base speed in `Star::default()`. `reset_stars` draws only for stars outside the extent, in the same order. The one fact assumed of the random source is what `gen_range` promises: a draw from a non-empty closed range lies in that range (`DrawsInRange`, `Rng.DrawsAreInRange`). It is a hypothesis of the contracts that use it, not an invariant the model establishes. The frame time is the parameter `dt`. The lemmas about lengths assume of `sqrt` only that it returns the non-negative root (`IsSqrt`).

Three behaviours of the code are worth noting. The model follows the code in each case:

- **Star count.** The loop in `setup` is `0..=NUM_STARS`, so it spawns `NUM_STARS + 1 = 1301` stars, not 1300 (`SetupPopulation`).
- **Star on the z axis.** If a star sits exactly on the z axis (x = y = 0), `normalize()` divides by a zero length and the velocity is NaN rather than zero. The star's translation then becomes NaN when it moves. `RangeInclusive::contains` is false for NaN, so the next `reset_stars` respawns the star. `VelocityAtOrigin` and `StarOnAxisRecoversNextFrame` prove this.
- **z is never checked.** The z coordinate is redrawn on every reset but never bounds-checked (`OutsideExtentIgnoresZ`).

## Model

| member | source | states |
|---|---|---|
| Vectors.Add | src/main.rs:95 | `+=` on vectors: NaN exactly when either operand is NaN |
| Vectors.Scale | src/main.rs:95 | `velocity * dt`: NaN exactly when the vector is NaN; `LengthOfScaled` gives its length |
| Vectors.SquaredLength | src/main.rs:110 | the squared length is never negative; `SquaredLengthZero` shows it is 0 only for the zero vector |
| Vectors.Length | src/main.rs:110 | for a true square root, `length()` is non-negative and its square is the squared length; `LengthZero` and `LengthOfScaled` give its further properties |
| Vectors.Normalize | src/main.rs:106 | `normalize()` is NaN exactly when the length is 0; `LengthZero` and `NormalizeIsUnit` give its further properties |
| Vectors.LengthZero | src/main.rs:103-110 | `length()` is 0 exactly for the zero vector, and `normalize()` yields NaN exactly for the zero vector |
| Vectors.LengthOfScaled | src/main.rs:110-111 | scaling a vector by a non-negative factor scales its `length()` by that factor |
| Vectors.NormalizeIsUnit | src/main.rs:106 | off the zero vector `normalize()` gives a vector of length 1 |
| Starfield.SpaceExtent | src/main.rs:146-148 | `space_extent()` is `-1000..=1000`, a non-empty range |
| Starfield.HalfSpaceExtent | src/main.rs:151-154 | `half_space_extent()` is `-500..=500` and lies inside the space extent |
| Starfield.DefaultStar | src/main.rs:49-59 | `Star::default()` is at rest, and its base speed lies in `10..=80` when draws lie in their ranges |
| Starfield.SpawnedStar | src/main.rs:74-88 | one iteration of the spawning loop gives a star at rest, with x and y in the space extent, z in the half extent and a base speed in `10..=80` when draws lie in their ranges |
| Starfield.Spawned | src/main.rs:73-89 | `n` iterations of the spawning loop give `n` stars, the `i`-th built from the draws `4i` to `4i+3` |
| Starfield.SpawnedStep | src/main.rs:73-89 | one more iteration appends one star built from the next four draws |
| Starfield.SetupPopulation | src/main.rs:73-89 | startup spawns 1301 stars, each at rest with x and y in the space extent, z in the half extent and a base speed in `10..=80` |
| Starfield.OutsideExtent | src/main.rs:120 | a star is outside exactly when its translation is NaN or its x or y lies beyond -1000 or 1000 |
| Starfield.OutsideExtentIgnoresZ | src/main.rs:120 | the outside test does not depend on z |
| Starfield.HalfExtentInsideSpaceExtent | src/main.rs:120-154 | a point with every coordinate in the half extent is not outside |
| Starfield.Respawned | src/main.rs:126-131 | a respawned star keeps its velocity; when draws lie in their ranges it has x, y and z in the half extent and a base speed in `10..=80`, so it is no longer outside |
| Starfield.ResetStar | src/main.rs:124-132 | a star inside is left unchanged; every star keeps its velocity; when draws lie in their ranges the result is inside, and a star that was outside lands in the half extent with a base speed in range |
| Starfield.CountOutside | src/main.rs:124 | the number of outside stars is at most the number of stars |
| Starfield.Reset | src/main.rs:118-133 | `reset_stars` neither adds nor removes stars; the lemmas below state the rest |
| Starfield.ResetAt | src/main.rs:122-132 | each star is reset on its own, using the draws that follow those of the outside stars before it |
| Starfield.ResetPrefix | src/main.rs:122-132 | visiting one more star extends the result by that star's reset, and adds four draws exactly when that star was outside |
| Starfield.ResetStep | src/main.rs:122-132 | writing the next star's reset into a partly reset sequence gives the reset of one more star |
| Starfield.ResetKeepsInsideStars | src/main.rs:124 | a star inside the extent passes through `reset_stars` unchanged |
| Starfield.ResetRespawnsOutsideStars | src/main.rs:126-132 | a star outside the extent comes out with all coordinates in the half extent and a base speed in range; no star's velocity changes |
| Starfield.ResetLeavesAllInside | src/main.rs:118-133 | after `reset_stars` no star is outside the extent |
| Starfield.ResetKeepsSpeedsInRange | src/main.rs:131 | `reset_stars` keeps every base speed in `10..=80` |
| Starfield.ResetOfInsideIsIdentity | src/main.rs:122-124 | when no star is outside, `reset_stars` changes nothing and draws nothing |
| Starfield.ResetIdempotent | src/main.rs:118-133 | a second `reset_stars` right after the first changes nothing and draws nothing |
| Starfield.Velocity | src/main.rs:103-111 | the velocity of a NaN translation is NaN, and otherwise has z component 0; `VelocityIsRadial`, `VelocityAtOrigin`, `VelocityMagnitude` and `VelocityGrowsWithDistance` state the rest |
| Starfield.WithVelocity | src/main.rs:113 | recomputing a star's velocity keeps its translation and base speed |
| Starfield.CalculateVelocities | src/main.rs:101-114 | `calculate_velocity` keeps the number of stars and every translation and base speed; `CalculateVelocitiesRadial` states the new velocities |
| Starfield.VelocityIsRadial | src/main.rs:100-115 | off the z axis the velocity equals `(x, y, 0) * (1.0 * dt * base_speed)`: radial, with z component 0, and independent of the old velocity |
| Starfield.VelocityAtOrigin | src/main.rs:103-106 | the velocity is NaN exactly when the star is on the z axis or its translation is NaN |
| Starfield.VelocityMagnitude | src/main.rs:110-111 | for `dt, base_speed >= 0`, speed equals distance from the z axis times `1.0 * dt * base_speed` |
| Starfield.VelocityGrowsWithDistance | src/main.rs:108-111 | at equal `dt` and base speed, a star farther from the z axis is at least as fast |
| Starfield.CalculateVelocitiesRadial | src/main.rs:101-114 | after `calculate_velocity` every star off the z axis has the radial velocity of `VelocityIsRadial` |
| Starfield.CalculateVelocitiesForgetsOldVelocity | src/main.rs:101-114 | the result does not depend on the old velocities |
| Starfield.Moved | src/main.rs:95 | moving keeps the `Star` component, and the new translation is NaN exactly when the old translation or the velocity is |
| Starfield.Move | src/main.rs:93-97 | `move_stars` keeps the number of stars and every `Star` component; `MoveAt` and `MoveUndone` state the new translations |
| Starfield.MoveAt | src/main.rs:93-97 | `move_stars` adds `velocity * dt` to each coordinate, z included, and leaves the `Star` component alone |
| Starfield.MoveUndone | src/main.rs:93-97 | moving by `-dt` with the same velocities undoes moving by `dt` |
| Starfield.Frame | src/main.rs:24-26 | a frame keeps the number of stars; `FrameKeepsSpeedsInRange`, `StarOnAxisRecoversNextFrame` and `OneFrameFromOutside` state the rest |
| Starfield.FrameKeepsSpeedsInRange | src/main.rs:24-26 | a frame keeps every base speed in `10..=80` |
| Starfield.StarOnAxisRecoversNextFrame | src/main.rs:100-133 | a star on the z axis gets a NaN translation from one frame and is respawned in the half extent by the next reset |
| Starfield.OneFrameFromOutside | src/main.rs:24-26 | a star at `(1200, 0, 0)` given base speed 50 lands in the half extent; with `dt = 0.016` its velocity is `(x, y, 0) * 0.8`, its speed is distance times `1.0 * 0.016 * 50`, and it moves by that velocity times 0.016 |
| Systems.Rng.RandInRange | src/main.rs:136-143 | returns the next draw, advances the draw count by one, and lies in the requested range when draws lie in their ranges |
| Systems.StarDefault | src/main.rs:49-59 | `Star::default()` is `DefaultStar` of the next draw, at rest with a base speed in `10..=80`, and takes one draw |
| Systems.SpawnOne | src/main.rs:74-88 | one iteration of the startup loop builds `SpawnedStar` of the next four draws |
| Systems.Setup | src/main.rs:65-89 | the startup loop builds exactly `Spawned(1301, ...)` with four draws per star |
| Systems.ResetOne | src/main.rs:124-132 | the filter and closure on one star: respawned with four draws if outside, otherwise unchanged with none |
| Systems.ResetStars | src/main.rs:118-133 | updates the array in place to `Reset` of its old contents, consumes four draws per outside star, and leaves no star outside |
| Systems.CalculateVelocity | src/main.rs:100-115 | updates the array in place to `CalculateVelocities` of its old contents; every velocity off the z axis is radial |
| Systems.MoveStars | src/main.rs:93-97 | updates the array in place to `Move` of its old contents |
| Systems.RunFrame | src/main.rs:18-28 | one frame of the schedule (reset, velocity, move) gives `Frame` of the old stars, consumes four draws per star that was outside, and keeps base speeds in range |

## Left out

- The Bevy application is not modelled: `main`'s plugins, the clear colour, `DebugPlugin`, the inspector, the camera, meshes, materials and the `StarTrail` component. Only the schedule order of the three systems is kept (`RunFrame`).
- The endless frame loop of `App::run` is not modelled; a single frame is (`RunFrame`, `Frame`).
- Floats are reals. f32 rounding, overflow to infinity and partly-NaN vectors are not modelled. The only non-finite value modelled is the all-NaN vector from `normalize()` of a zero vector.
- `thread_rng` is replaced by an oracle of draws. Its distribution and uniformity are not modelled, only that each draw lies in its range.
- `Systems.Rng.RandInRange`: requires a non-empty range because `gen_range` panics otherwise; every range the program passes is non-empty.
- The square root is a parameter, not computed.
- `time.delta_seconds()` is the parameter `dt`.
- Bevy query iteration order is modelled as array index order; only the order of draws in `Reset` depends on it.
- Commands that spawn entities are modelled as appending to a sequence; entity ids are not modelled.
