# Combat bookkeeping of a one-level fighting game, in Dafny

This project models the combat state of the two combatants of a small
single-player fighting demo. The opponent (`OpponentAI`) and the player
(`FightingController`) each keep a health counter, a few boolean guards and
timestamp cooldowns. They hit each other by starting coroutines on each other's
objects.

The project is in four files:

- `attack_table.dfy` (module `AttackTable`): the opponent's table of attack
  moves and the repair `ValidateAttacks` makes to it.
- `opponent_model.dfy` (module `OpponentModel`): the opponent's state as a
  value. It has one function per operation and per coroutine continuation, an
  `Event` type for everything that can happen to the opponent, `Run` over any
  sequence of events, and the lemmas.
- `player_model.dfy` (module `PlayerModel`): the same for the player.
- `combat.dfy` (module `Combat`): the classes `OpponentAI` and
  `FightingController`. They have the source's fields, and their methods update
  those fields in place. Each method's postcondition ties the new state
  (`State()`) to the matching function of the value-level module. Calls from
  one combatant into the other are method calls on the other object.

How the engine is abstracted:

- Time: `Time.time` is the parameter `now`, as a `real`.
- Health: the opponent's `float` health is a `real`. The player's health is an
  `int`.
- Distances: each distance test is a boolean input. For the opponent this is
  `inRange`, for the player one flag per entry of `opponents`.
- Randomness: the random attack draw is the parameter `randomIndex`, and the
  method requires it to lie within the draw's range.
- Coroutines: each coroutine is split into its synchronous prefix (up to the
  first `yield`) and a method for each continuation that changes state. The
  coroutines in flight are explicit state:
  - `pendingResets` counts the opponent's `ResetAttackState` timers.
  - `pendingHitReactions` counts the opponent's hit reactions.
  - `pendingHits` holds the amount carried by each of the player's hit sequences.

  A continuation can only be resumed while one is pending. When continuations
  run, and in what order, is left open: the lemmas about `Run` hold for every
  order.

  `DodgeCoroutine` is the exception. Its loop changes no combat state until
  it ends, so one method runs all of its frames, given the frame times it
  receives. In the game, its first iteration runs inside `PerformDodge`, and
  each later iteration runs one frame after the previous one.

The model follows the code as written. Four behaviours differ from the game's
stated design:

- The player's attacks never lower opponent health. `PerformAttack` starts the
  opponent's `PlayHitDamageAnimation`, which ignores its damage argument.
  Opponent health changes only in `TakeDamage`, and the game reaches that only
  through the H test key of `Update`. So a full-health opponent hit three times
  by the player stays at full health.
- No script calls the player's `TakeDamage`. The opponent's attack starts the
  player's `PlayHitDamageAnimation` directly
  (Assets/Game/scripts/Opponent/OpponentAi.cs:203). So, as the game is wired,
  the player loses the move's damage once per attack, and the player's
  `isTakingDamage` is never raised. Called directly, `TakeDamage` would apply
  the damage twice: it subtracts `damage` at once, and the hit sequence it
  starts subtracts `takeDamage` again when it resumes.
- The player's `isTakingDamage` is never cleared. The only reset is in
  commented-out code. After the first accepted `TakeDamage`, every later
  `TakeDamage` is refused.
- The opponent's stuck-guard failsafe measures time from the opponent's own
  last attack, not from when the guard was raised. A `TakeDamage` within
  `2 * hitAnimationDuration` of that attack raises the guard but starts no hit
  reaction. The guard then stays up, and the opponent neither attacks nor takes
  damage, until `ResetDamageState` runs or a player strike lands outside that
  window.

Health is never clamped at zero.

## Model

| member | source | states |
|---|---|---|
| `Combat.OpponentAI.constructor` | Assets/Game/scripts/Opponent/OpponentAi.cs:34-42 | before `Start`, the attack table is the initialiser's four moves (damages 10, 15, 20, 25), the four animation names are set, and the flags are down |
| `Combat.OpponentAI.Start` | Assets/Game/scripts/Opponent/OpponentAi.cs:79-85 | `Start` sets up the initial state and then validates the attack table |
| `Combat.OpponentAI.SetupInitialState` | Assets/Game/scripts/Opponent/OpponentAi.cs:254-262 | health becomes `maxHealth`, all three flags are lowered, and `lastAttackTime` becomes `-attackCooldown` |
| `OpponentModel.SetupAllowsFirstAttack` | Assets/Game/scripts/Opponent/OpponentAi.cs:254-262 | after setup, health is full and all flags are down; the cooldown test of `Update` then passes exactly when `now > 0` |
| `Combat.OpponentAI.ValidateAttacks` | Assets/Game/scripts/Opponent/OpponentAi.cs:264-290 | a null or empty table is replaced by a fresh default table; the null slots are then filled in place; afterwards the table equals `ValidatedTable` of the old one |
| `AttackTable.ValidatedTable` | Assets/Game/scripts/Opponent/OpponentAi.cs:264-290 | the validated table is non-empty and has no null slots; a non-empty table keeps its length and its non-null entries |
| `AttackTable.NatToStringRoundTrip` | Assets/Game/scripts/Opponent/OpponentAi.cs:284 | the interpolated slot number is rendered with no leading zero, and reading it back as a decimal gives the number |
| `AttackTable.ValidatedTableFillsSlots` | Assets/Game/scripts/Opponent/OpponentAi.cs:278-289 | a null slot `i` gets damage `10 + 5*i` and the name `Attack{i+1}Animation`; an empty table becomes the four default moves |
| `AttackTable.DefaultAttacksAreDefaultMoves` | Assets/Game/scripts/Opponent/OpponentAi.cs:269-287 | the four default moves are exactly what the null-slot rule produces for slots 0 to 3 |
| `Combat.OpponentAI.TakeDamage` | Assets/Game/scripts/Opponent/OpponentAi.cs:297-349 | the new state is `OpponentModel.TakeDamage` of the old one, including the `Die` call or the start of the hit reaction |
| `OpponentModel.TakeDamageEffect` | Assets/Game/scripts/Opponent/OpponentAi.cs:302-348 | refused (nothing changes) when dead or already taking damage; otherwise health drops by exactly `damage` and the attack flag is cleared; the opponent ends either dead with both other flags down or alive with the guard up; a pending attack reset stays pending |
| `Combat.OpponentAI.Die` | Assets/Game/scripts/Opponent/OpponentAi.cs:404-424 | the new state is `OpponentModel.Die` of the old one |
| `OpponentModel.DieIdempotent` | Assets/Game/scripts/Opponent/OpponentAi.cs:404-412 | `Die` sets the dead flag and clears both others; a second `Die` changes nothing; health is untouched |
| `Combat.OpponentAI.PlayHitDamageAnimation` | Assets/Game/scripts/Opponent/OpponentAi.cs:355-376 | the prefix of the hit reaction: the new state is `BeginHitReaction` of the old one; health is unchanged; `started` holds exactly when a final continuation was scheduled |
| `OpponentModel.BeginHitReactionEffect` | Assets/Game/scripts/Opponent/OpponentAi.cs:359-392 | with the guard up and `now - lastAttackTime <= 2*hitAnimationDuration`, nothing changes; otherwise the guard is raised and one final continuation is scheduled, and that continuation lowers the guard |
| `Combat.OpponentAI.HitAnimationComplete` | Assets/Game/scripts/Opponent/OpponentAi.cs:389-392 | the final continuation lowers the guard and retires one pending hit reaction |
| `OpponentModel.TakeDamageInWindowLeavesGuardUp` | Assets/Game/scripts/Opponent/OpponentAi.cs:308-372 | a `TakeDamage` that leaves the opponent alive within the failsafe window raises the guard but schedules no continuation to lower it |
| `OpponentModel.StuckGuardPersists` | Assets/Game/scripts/Opponent/OpponentAi.cs:360-370 | with the guard up and no hit reaction pending, any run without `ResetDamageState` or player strikes keeps the guard up; health, death and last attack time stay the same |
| `OpponentModel.BeginHitReactionsKeepHealth` | Assets/Game/scripts/Opponent/OpponentAi.cs:355-402 | any number of hit-reaction prefixes leave health, death, the attack flag, the attack time and the pending resets unchanged |
| `OpponentModel.HealthOnlyChangesInTakeDamage` | Assets/Game/scripts/Opponent/OpponentAi.cs:311 | a run with no `TakeDamage` leaves health unchanged, whatever strikes, ticks and continuations it holds |
| `OpponentModel.HealthNeverIncreases` | Assets/Game/scripts/Opponent/OpponentAi.cs:311 | with non-negative damages, no run raises health |
| `OpponentModel.DeadIsFinal` | Assets/Game/scripts/Opponent/OpponentAi.cs:302-306 | once dead, every run keeps the opponent dead, with the same health and no new attack |
| `Combat.OpponentAI.PerformAttack` | Assets/Game/scripts/Opponent/OpponentAi.cs:189-208 | a no-op while attacking; otherwise the attack flag is set, `lastAttackTime := now`, a reset is scheduled, and the player (if wired) gets a hit sequence carrying `attacks[i].attackDamages` |
| `Combat.OpponentAI.PerformRandomAttack` | Assets/Game/scripts/Opponent/OpponentAi.cs:183-187 | the drawn index picks the move from the attack table; the caller must ensure the table is at least as long as the animation list and has no null slots |
| `OpponentModel.AttackFlagLifecycle` | Assets/Game/scripts/Opponent/OpponentAi.cs:189-214 | `PerformAttack` is refused while attacking and otherwise raises the flag, stamps the time and schedules one reset; the reset continuation and `OnAttackEnd` only lower the attack flag |
| `Combat.OpponentAI.ResetAttackState` | Assets/Game/scripts/Opponent/OpponentAi.cs:210-214 | the reset continuation lowers the attack flag and retires one pending reset |
| `Combat.OpponentAI.OnAttackEnd` | Assets/Game/scripts/Opponent/OpponentAi.cs:444-448 | lowers the attack flag and changes nothing else |
| `Combat.OpponentAI.ResetDamageState` | Assets/Game/scripts/Opponent/OpponentAi.cs:433-437 | lowers the damage guard and changes nothing else |
| `Combat.OpponentAI.Update` | Assets/Game/scripts/Opponent/OpponentAi.cs:124-146 | the action taken is `Decide` of the state; the new state is `UpdateTick`; when an attack starts, the player's hit sequence carries the drawn move's damage |
| `OpponentModel.DecideGuards` | Assets/Game/scripts/Opponent/OpponentAi.cs:125-141 | a tick does nothing when dead, taking damage or without a target; it attacks exactly when the player is in range, `now - lastAttackTime > attackCooldown` (strict) and no attack is running; an attack raises the flag and stamps `now` |
| `Combat.FightingController.constructor` | Assets/Game/scripts/FightingController/FightingController.cs:14-35 | before `Awake`, the flags are down, both timestamps are 0, and no hit sequence is in flight |
| `Combat.FightingController.Awake` | Assets/Game/scripts/FightingController/FightingController.cs:69-71 | health becomes `maxHealth` |
| `Combat.FightingController.TakeDamage` | Assets/Game/scripts/FightingController/FightingController.cs:139-180 | the new state is `PlayerModel.TakeDamage` of the old one |
| `PlayerModel.TakeDamageEffect` | Assets/Game/scripts/FightingController/FightingController.cs:142-179 | a no-op when the guard is up or health is at most 0; otherwise it raises the guard, lowers health by `damage`, starts one hit sequence carrying `takeDamage`, and touches nothing else |
| `PlayerModel.DamageFlagNeverCleared` | Assets/Game/scripts/FightingController/FightingController.cs:142-148 | once the guard is up it stays up over every run, and every later `TakeDamage` is a no-op |
| `PlayerModel.DamageAppliedTwice` | Assets/Game/scripts/FightingController/FightingController.cs:139-180 | an accepted `TakeDamage(d, t)` followed by its hit sequence lowers health by `d + t` |
| `Combat.FightingController.PlayHitDamageAnimation` | Assets/Game/scripts/FightingController/FightingController.cs:417-419 | starting a hit sequence only records it with its amount; it has no guard |
| `Combat.FightingController.HitDamageResume` | Assets/Game/scripts/FightingController/FightingController.cs:417-445 | the continuation lowers health by the sequence's amount with no guard and no floor; `Die` is reached exactly when health is at most 0, and it changes no state |
| `PlayerModel.ResumesLowerHealthBySum` | Assets/Game/scripts/FightingController/FightingController.cs:417-440 | resuming in-flight sequences in any order keeps `health - Sum(pendingHits)` fixed; once all are resumed, health has dropped by the sum of their amounts |
| `PlayerModel.SumRemoveAt` | Assets/Game/scripts/FightingController/FightingController.cs:433 | retiring one in-flight sequence lowers the outstanding total by its amount |
| `PlayerModel.StepNeverIncreasesHealth` | Assets/Game/scripts/FightingController/FightingController.cs:433 | a single event with non-negative amounts does not raise health and keeps every in-flight amount non-negative |
| `PlayerModel.HealthNeverIncreases` | Assets/Game/scripts/FightingController/FightingController.cs:433 | with non-negative amounts, no run raises health |
| `PlayerModel.HealthHasNoFloor` | Assets/Game/scripts/FightingController/FightingController.cs:433-438 | a sequence carrying more than the remaining health takes it below zero |
| `Combat.FightingController.PerformAttack` | Assets/Game/scripts/FightingController/FightingController.cs:334-361 | succeeds only when `now - lastAttackTime > attackCooldown`, and only then needs the attack index to name an animation; on success it stamps `now`; the struck opponents are exactly the in-range ones, each struck as many times as it is listed, and their health is unchanged; on failure nothing changes |
| `Combat.FightingController.StrikeInRange` | Assets/Game/scripts/FightingController/FightingController.cs:343-350 | the foreach over `opponents`: the struck list is exactly the in-range entries in order, and each opponent has gone through one hit-reaction prefix per listing |
| `PlayerModel.InRangeUpToMembers` | Assets/Game/scripts/FightingController/FightingController.cs:343-350 | after `n` iterations of the foreach, an opponent has been struck exactly when one of the first `n` entries holds it and is flagged in range |
| `PlayerModel.StrikesUpToCounts` | Assets/Game/scripts/FightingController/FightingController.cs:343-350 | after `n` iterations, the struck list holds an opponent exactly as many times as the foreach has struck it |
| `PlayerModel.AttackCooldownGate` | Assets/Game/scripts/FightingController/FightingController.cs:336-341 | the attack changes state exactly when the strict cooldown test passes, and then changes only `lastAttackTime` |
| `PlayerModel.InRangeMembers` | Assets/Game/scripts/FightingController/FightingController.cs:343-350 | an opponent is struck exactly when some entry holding it is flagged in range, whatever the attack index |
| `PlayerModel.AttackCooldownHolds` | Assets/Game/scripts/FightingController/FightingController.cs:336 | no attack within the cooldown of the last one succeeds, whatever happens in between |
| `Combat.FightingController.PerformDodge` | Assets/Game/scripts/FightingController/FightingController.cs:366-381 | the new state is `PlayerModel.PerformDodge` of the old one |
| `PlayerModel.DodgeGate` | Assets/Game/scripts/FightingController/FightingController.cs:366-371 | a no-op while dodging or when `now < lastDodgeTime + dodgeCooldown`; otherwise `isDodging := true` and `lastDodgeTime := now`; from the initial time 0, the first dodge needs `now >= dodgeCooldown` |
| `PlayerModel.DodgeCooldownHolds` | Assets/Game/scripts/FightingController/FightingController.cs:368 | no dodge starts before the cooldown since the last one has run out, whatever happens in between |
| `Combat.FightingController.DodgeCoroutine` | Assets/Game/scripts/FightingController/FightingController.cs:393-413 | the loop runs until the accumulated frame time first reaches 0.5 and then lowers `isDodging`; the frame count is the least one whose total reaches the duration: the total of every shorter prefix of the frames is below 0.5 |
| `PlayerModel.DodgeLastsUntilItsEnd` | Assets/Game/scripts/FightingController/FightingController.cs:366-413 | a running dodge is ended only by its coroutine: every other run keeps `isDodging` and the dodge time |
| `Combat.FightingController.PerformMovement` | Assets/Game/scripts/FightingController/FightingController.cs:251-253 | movement is processed exactly when no dodge is running |

## Left out

- Movement and geometry are not modelled. This covers `Vector3.Distance`,
  `Lerp`, `Slerp`, `LookRotation`, `FaceTarget`, `MoveTowardsPlayer`,
  `ApplyGravity`, the body of `PerformMovement` and the position updates of
  `DodgeCoroutine`. They are floating-point geometry, so distance tests become
  boolean inputs and positions are not tracked.
- Engine side effects are not modelled: the Animator, audio, particle effects,
  the health bar, `Debug.Log`, and the attack-effect hooks (`Attack*spEffect`,
  `Attack*Effect`, `OnAttackStart`). They change no combat state.
- The opponent's hit reaction also waits 0.3 s before its final wait. The
  continuation after that first wait only drives the Animator. The walking
  animation resumed at the end of the reaction is also left out.
- Timing is not modelled. The model does not enforce the delays (1 s for the
  attack reset, 0.3 s plus `hitAnimationDuration` for a hit reaction, 0.5 s for
  a player hit sequence). It also does not require `now` to grow from call to
  call. Any order of resumption is allowed.
- Real numbers stand in for `float`, so rounding is not modelled.
- `Destroy`/`DestroyAfterDelay` is not modelled. Neither is stopping a
  destroyed object's coroutines. A dead opponent stays in the model and can
  still be called.
- Start-up diagnostics and input are not modelled: `InitializeComponents`,
  `FindPlayer` (its result is the `hasTarget` input), the Animator-layer check in
  `Start`, the R and H test keys in `Update`, `createRandomNumber` (its number is
  never read), `SetupComponents`, `SetupButtonListeners`, `OnEnable` and
  `OnDisable`.
- Exceptions are not modelled. These include an attack index outside the
  animation list once the cooldown has passed, a null table slot used by an attack, and an entry of
  `opponents` without an `OpponentAI` component. Each of these throws in the
  source and is excluded here by a precondition or by the types.
- The attack table is taken as the field initialiser builds it. How the engine's
  serialisation overwrites it is not modelled.
- `Combat.FightingController.DodgeCoroutine`: only dodges whose supplied frame
  times reach the 0.5 s duration are modelled. The events that come between
  frames are covered by `PlayerModel.DodgeLastsUntilItsEnd`, not by this method.
- `CameraController.cs` is not part of this model. It is a smoothed camera
  follow with a first-active-target search.
- `ResultManager.cs` is not part of this model. It is win/lose UI and time-scale
  plumbing, and as written it does not compile. It reads the private
  `currentHealth` of `FightingController` (Assets/Game/scripts/UI/ResultManager.cs:20),
  and it reads `currentHealth` on the array `opponentAI` rather than on the loop
  variable (:29). The stray `;` after that `if` only draws a warning, but it
  makes the "you win" branch unconditional.
- `PlayerModel.HealthNeverIncreases`: player health and damage amounts are
  unbounded integers. The source's `int` subtractions
  (Assets/Game/scripts/FightingController/FightingController.cs:151 and 433)
  wrap around at 32 bits, so there a large enough amount can raise health. The
  lemma holds only for the unbounded model.
