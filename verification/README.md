# HealthSystem — a Dafny model

A model of the Unity component `HealthSystem` (HealthSystem.cs) of the player
object in a small game. The model covers the component's own state and methods:

- **Hit points and hearts.** `TakeDamage`, `Heal` and `UpdateHealthUI` change
  `currentHealth` and show or hide the heart icons.
- **The poison fog.** `EnterPoisonFog` and `ExitPoisonFog` switch the fog on
  and off. While the player is in the fog, `Update` runs a damage timer and
  tints the renderer towards the poison colour.
- **Death.** `Die` shows the death panel and disables the BeanController and
  the CharacterController.
- **Respawn.** `Respawn` restores health. It also:
  - hides the panel;
  - resolves a spawn position from a fallback chain and moves the player there,
    with the CharacterController off during the move;
  - re-enables and resets the BeanController;
  - reactivates the object and restores its colour;
  - clears the fog flag.

Files:

- `wrappers.dfy`: `Option`.
- `scene.dfy`: the engine values the component touches. These are positions,
  colours, game objects with an active flag, and the engine's `Color.Lerp`. It
  also holds the `Event` type of collaborator calls.
- `vitality.dfy`: the value rules for health and for the heart icons, and what
  they imply over any sequence of damage and heal calls.
- `poison.dfy`: the fog timer as a function of the frame times, and its
  long-run behaviour.
- `respawn.dfy`: the spawn-point fallback chain and the order of the calls that
  `Die` and `Respawn` make on their collaborators.
- `health_system.dfy`: the component itself.
  - It is the class `Player.HealthSystem`, with the fields of the C# class.
  - The heart icons are an array of `Option<bool>`: `None` is an empty slot and
    `Some(active)` is an icon.
  - A ghost `trace` records the collaborator calls in order.
  - Every method is proved against the functions of the modules above.
- `scenarios.dfy`: whole runs of the component with its inspector defaults.
  There are two hit points, a one-second poison interval and two hearts.

### Engine lookups and other inputs

Engine lookups become parameters:

- `Start` receives what `GetComponent` finds for the Renderer (its material
  colour) and for the CharacterController.
- `Update`, `TakeDamage`, `Die` and `Respawn` receive `beanFound`: whether
  `GetComponent<BeanController>()` finds one at that call.
- `Respawn` receives `managerPoint`, the position of
  `SpawnPointManager.spawnPointTransform`, and `scenePoint`, the position of
  the object that `GameObject.Find("SpawnPoint")` would return.
- `Update` receives `dt`, the frame time `Time.deltaTime`, and `lerp`, the
  colour interpolation. `scene.dfy` defines the engine's own interpolation as
  `ColorLerp`.

### Behaviour worth knowing

- **No clamp at zero.** `TakeDamage` subtracts the full amount and does not
  clamp at zero (HealthSystem.cs:109). A blow larger than the remaining health
  leaves health negative (`Vitality.DamageIsNotClamped`). One-point damage, as
  the fog deals it, with non-negative heals keeps health within
  `[0, maxHealth]` (`Vitality.UnitDamageStaysInRange`).
- **No dead check in `Heal`.** `Heal` has no dead check (HealthSystem.cs:122-126).
  A heal that lifts a dead player's health above zero makes it count as alive,
  so `TakeDamage` applies to it again. A heal that leaves health at zero or
  below leaves it dead (`Vitality.HealRevivesTheDead`). Either way, the heal
  does not touch anything else: the death panel stays shown and both
  controllers stay disabled.
- **Controller re-enabled only after a move.** `Respawn` re-enables the
  CharacterController only right after writing a resolved position
  (HealthSystem.cs:216-238). With no spawn point anywhere, the controller stays
  disabled, as `Die` left it (`Respawn.RespawnMovesWithControllerOff`,
  `Scenarios.RespawnWithoutSpawnPoint`).
- **Leaving the fog keeps the timer.** `ExitPoisonFog` leaves the timer as it is
  (HealthSystem.cs:99-102). Only `EnterPoisonFog` resets it.

## Model

| member | source | states |
|---|---|---|
| Scene.ActiveSet | HealthSystem.cs:46-49 | `SetActive` on an assigned object sets its active flag; an unassigned (null) reference stays unassigned |
| Scene.LerpNeverMovesAway | HealthSystem.cs:70-87 | one colour-blend step never moves any channel farther from its target, and a fraction of one or more reaches the target |
| Scene.LerpAtTargetStays | HealthSystem.cs:80-87 | a colour already at its target is left there by further blend steps |
| Vitality.AfterDamage | HealthSystem.cs:105-119 | a dead player takes no damage; a living one loses exactly `damage` points; the result is dead iff the player was dead or the damage is at least its health |
| Vitality.Healed | HealthSystem.cs:124 | healed health is at most `maxHealth` and at most `health + amount`, and equals one of them |
| Vitality.IconsAfterUI | HealthSystem.cs:129-141 | the icon count is kept, empty slots stay empty, icon `i` is shown iff `i < health`, and the shown icons form a prefix |
| Vitality.ShownCountMatchesHealth | HealthSystem.cs:134-140 | with no empty slot, the number of shown hearts is the health clamped to `[0, icon count]` |
| Vitality.IconsAfterUIIdempotent | HealthSystem.cs:129-141 | refreshing the icons twice with the same health is the same as once |
| Vitality.HealthStaysAtMostMax | HealthSystem.cs:105-126 | no sequence of non-negative damage and heal calls lifts health above `maxHealth` |
| Vitality.DeadIgnoresDamage | HealthSystem.cs:107 | any sequence of damage calls on a dead player leaves its health unchanged |
| Vitality.UnitDamageStaysInRange | HealthSystem.cs:66 | with one-point damage (the fog's) and non-negative heals, health stays within `[0, maxHealth]` |
| Vitality.DamageIsNotClamped | HealthSystem.cs:109 | damage larger than a living player's health leaves it at exactly `health - damage`, below zero |
| Vitality.HealRevivesTheDead | HealthSystem.cs:124 | with a positive maximum, a heal of a dead player leaves it alive exactly when `health + amount` is above zero |
| Poison.FogTick | HealthSystem.cs:58-68 | one frame in the fog deals damage iff the timer plus the frame time reaches the interval; then the timer is zero, otherwise it is advanced by the frame time; it stays below a positive interval |
| Poison.Exposure | HealthSystem.cs:58-68 | a run of frames deals at most one point per frame |
| Poison.DamageNeverOutrunsTime | HealthSystem.cs:61-67 | over any run of non-negative frames, points dealt times the interval plus the remaining timer never exceed the time spent; the timer stays in `[0, interval)` |
| Poison.ExposureAppend | HealthSystem.cs:61-67 | a run split in two is the first part followed by the second, starting from the timer the first left |
| Poison.FramesFillingTheInterval | HealthSystem.cs:61-67 | positive frames that take the timer exactly up to the interval deal exactly one point and leave the timer at zero |
| Poison.WholeIntervalsDealOnePointEach | HealthSystem.cs:92-96 | entering the fog and staying exactly `k` intervals, in frames dividing the interval evenly, deals exactly `k` points and leaves the timer at zero |
| Poison.OvershootIsDiscarded | HealthSystem.cs:64-68 | with a 1 s interval and 0.4 s frames, the third frame deals the first point and clears the timer; the 0.2 s overshoot is not carried |
| Respawn.ResolveSpawn | HealthSystem.cs:188-213 | the manager's spawn point wins, then the component's own, then the scene lookup; the cached spawn point changes only on a scene-lookup hit, which it then holds; there is no position iff all three are missing |
| Respawn.LookupResultIsReused | HealthSystem.cs:203-212 | after the scene lookup has found a point, later respawns without a manager point go there whatever the lookup returns |
| Respawn.DeathEvents | HealthSystem.cs:144-164 | `Die` shows the panel iff one is assigned, and disables the BeanController and the CharacterController iff each is present, in at most three calls |
| Respawn.DeathOnlyDisables | HealthSystem.cs:144-164 | `Die` only shows the panel and disables controllers; it never enables anything or moves the player |
| Respawn.RespawnHidesPanelFirst | HealthSystem.cs:176-185 | the panel is hidden first, before the spawn lookup, and not touched again; with no panel there is no panel call |
| Respawn.MoveEventsWriteOnce | HealthSystem.cs:216-238 | the move step writes the position once when a point resolved and never otherwise |
| Respawn.RespawnWritesResolvedPosition | HealthSystem.cs:215-242 | a respawn writes the position exactly once iff a spawn point resolved, and only to that point |
| Respawn.RespawnMovesWithControllerOff | HealthSystem.cs:220-232 | with a resolved point and a CharacterController, the controller is disabled right before the position write and enabled right after; otherwise it is not touched |
| Respawn.RespawnResetsBeanLast | HealthSystem.cs:246-260 | a found BeanController is enabled, reset and given control back, in that order and last; with none there are no BeanController calls |
| Player.HealthSystem.constructor | HealthSystem.cs:7-28 | the component as the scene loads it: the inspector settings, no renderer or CharacterController found yet, out of the fog with the timer at zero |
| Player.HealthSystem.Start | HealthSystem.cs:30-53 | full health, the renderer and its colour remembered, the CharacterController lookup stored, the panel hidden, the icons refreshed |
| Player.HealthSystem.SetDeathPanelActive | HealthSystem.cs:177-185 | the panel's flag is set and the call recorded when a panel is assigned; nothing happens otherwise |
| Player.HealthSystem.Update | HealthSystem.cs:55-89 | in the fog, the timer follows `FogTick` and a frame reaching the interval does exactly what `TakeDamage(1)` does; out of the fog, health, icons, panel, controllers and timer are unchanged; the colour is blended towards the poison colour in the fog and back towards the original colour outside |
| Player.HealthSystem.EnterPoisonFog | HealthSystem.cs:92-96 | the player is in the fog with the timer at zero |
| Player.HealthSystem.ExitPoisonFog | HealthSystem.cs:99-102 | the player is out of the fog, so `Update` deals no more damage; the timer is untouched |
| Player.HealthSystem.TakeDamage | HealthSystem.cs:105-119 | nothing changes for a dead player; otherwise health follows `AfterDamage`, the icons are refreshed, and exactly when this call kills the player the death calls are made |
| Player.HealthSystem.Heal | HealthSystem.cs:122-126 | health follows `Healed` and the icons show the new health |
| Player.HealthSystem.UpdateHealthUI | HealthSystem.cs:129-141 | the icon array afterwards is `IconsAfterUI` of the array before |
| Player.HealthSystem.Die | HealthSystem.cs:144-164 | the panel is shown, the BeanController (if found) and CharacterController (if any) are disabled, and the calls are those of `DeathEvents` |
| Player.HealthSystem.Respawn | HealthSystem.cs:168-277 | full health and icons, the panel hidden, the position and cache from `ResolveSpawn`, the CharacterController re-enabled iff the player moved, the BeanController enabled if found, the calls those of `RespawnEvents`, the object active, the original colour back, and out of the fog |
| Player.HealthSystem.RestoreVitals | HealthSystem.cs:172-185 | full health, the icons refreshed, the panel hidden |
| Player.HealthSystem.ReturnToSpawn | HealthSystem.cs:187-264 | the position, cache and CharacterController after the fallback chain and the move, then the BeanController reset |
| Player.HealthSystem.ResolveRespawnPosition | HealthSystem.cs:188-213 | the position and the cached spawn point are those of `ResolveSpawn` |
| Player.HealthSystem.MoveTo | HealthSystem.cs:216-237 | the position is written, with the CharacterController disabled before and enabled after when there is one |
| Player.HealthSystem.ResetBeanController | HealthSystem.cs:246-264 | a found BeanController is enabled, reset and given control back |
| Player.HealthSystem.RestoreAppearance | HealthSystem.cs:266-276 | the object active, the renderer (if any) back at the original colour, out of the fog |
| Scenarios.StartedPlayer | HealthSystem.cs:30-53 | after `Start` with the defaults, both hearts are shown, the panel is hidden and health is 2 |
| Scenarios.PoisonKillsInTwoSeconds | HealthSystem.cs:58-68 | four half-second frames in the fog bring health from 2 to 0, show the panel and disable both controllers |
| Scenarios.PoisonedToDeath | HealthSystem.cs:105-164 | two one-second frames in the fog kill the player, hide both hearts and leave it where it stood |
| Scenarios.RespawnAfterPoisonDeath | HealthSystem.cs:168-277 | respawning after a fog death at a point found by the scene lookup restores health and hearts, moves the player there, remembers the point, re-enables both controllers and clears the fog |
| Scenarios.RespawnWithoutSpawnPoint | HealthSystem.cs:239-242 | with no spawn point anywhere, a respawn restores health but leaves the player where it died with the CharacterController disabled |
| Scenarios.DamageDeathAndRespawn | HealthSystem.cs:105-164 | two one-point hits leave the player at 1 and then dead with the panel shown; a respawn at the manager's point restores health 2, hides the panel and re-enables movement |
| Scenarios.LeavingTheFogStopsDamage | HealthSystem.cs:80-102 | after leaving the fog with the timer at 0.9, frames of any length deal no damage and the timer keeps its value |

## Left out

- RespawnButton.cs is not part of this model. It is the UI trigger that calls
  `Respawn`, and `Respawn` is modelled as an operation callable at any time.
- The lookups behind `managerPoint`, `scenePoint` and `beanFound` are not
  modelled: `SpawnPointManager`, `GameObject.Find` and `GetComponent` are
  parameters.
- Spawn points are `Transform` references in the code. The model holds the
  position each one has when it is read, so a spawn Transform that moves later
  is not captured.
- `Debug.Log`, `Debug.LogError` and `Debug.LogWarning` are not modelled; they
  have no effect on state.
- What `BeanController.ResetController` and `SetControlEnabled` do inside the
  BeanController is not modelled. The model records that the calls are made,
  and in what order.
- Floating point is not modelled. `float` values are reals, and the colour
  comparison at line 80 is exact equality, whereas Unity's `Color` `!=` is
  approximate.
- Player.HealthSystem.Update: leaves `Color.Lerp` abstract as the `lerp`
  parameter. `Scene.ColorLerp` is the engine's definition, used in the
  scenarios, and `Scene.LerpNeverMovesAway` states its convergence.
- Vitality.AfterDamage: does not model the 32-bit wrap-around of
  `currentHealth -= damage` for damage near the `int` range, because the model's
  integers are unbounded.
- Vitality.Healed: does not model the 32-bit wrap-around of
  `currentHealth + amount`, for the same reason.
- `gameObject.SetActive(true)` in `Respawn` is the `active` field. What
  deactivating the object would do to the engine's calls of `Update` is not
  modelled.
- The Unity lifecycle is not modelled: the engine calls `Start` once and then
  `Update` every frame. The model's methods can be called in any order.
- Unity object identity is not modelled.
  - Each icon slot is independent. An icon array that lists the same GameObject
    twice, or that contains the death panel, ends in the source with whichever
    `SetActive` ran last (HealthSystem.cs:134-140). The model shows each slot
    separately.
  - A destroyed object compares equal to null under Unity's `!= null`. So once
    the cached `spawnPoint` has been destroyed, the source falls through to
    `GameObject.Find` again (HealthSystem.cs:197, 205). The model keeps the
    cached position forever, and `Respawn.LookupResultIsReused` does not cover
    that case.
