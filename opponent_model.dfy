/** The combat bookkeeping of OpponentAI as values: the state the class keeps,
    one function per operation or coroutine continuation, and what a run of
    any interleaving of them can and cannot do. The class OpponentAI in
    module Combat is proved against these functions. */
module OpponentModel {

  /** The tunable fields the combat logic reads, as set in the Inspector. */
  datatype Config = Config(maxHealth: real, attackCooldown: real, hitAnimationDuration: real)

  /** The opponent's combat state. `pendingResets` counts ResetAttackState
      coroutines that have been started and not yet resumed;
      `pendingHitReactions` counts PlayHitDamageAnimation coroutines that
      passed their guard and have not yet reached their final continuation. */
  datatype Opponent = Opponent(
    health: real,
    isAttacking: bool,
    isTakingDamage: bool,
    isDead: bool,
    lastAttackTime: real,
    pendingResets: nat,
    pendingHitReactions: nat)

  /** SetupInitialState: full health, all flags down, and the last attack
      placed one cooldown before time zero. */
  function SetupInitialState(s: Opponent, c: Config): Opponent
  {
    s.(health := c.maxHealth, isAttacking := false, isTakingDamage := false,
       isDead := false, lastAttackTime := -c.attackCooldown)
  }

  /** Die: idempotent through the dead flag. */
  function Die(s: Opponent): Opponent
  {
    if s.isDead then s
    else s.(isDead := true, isAttacking := false, isTakingDamage := false)
  }

  /** The stuck-state failsafe of PlayHitDamageAnimation. It measures from the
      opponent's own last attack, not from when the guard was raised. */
  predicate FailsafeFires(s: Opponent, c: Config, now: real)
  {
    s.isTakingDamage && now - s.lastAttackTime > c.hitAnimationDuration * 2.0
  }

  /** The synchronous prefix of PlayHitDamageAnimation, up to its first wait.
      Its damage argument is never read, so it is not a parameter here. */
  function BeginHitReaction(s: Opponent, c: Config, now: real): Opponent
  {
    var s' := if FailsafeFires(s, c, now) then s.(isTakingDamage := false) else s;
    if s'.isTakingDamage then s'
    else s'.(isTakingDamage := true, pendingHitReactions := s'.pendingHitReactions + 1)
  }

  /** `k` hit-reaction prefixes at the same instant, one after the other. */
  function BeginHitReactions(s: Opponent, c: Config, now: real, k: nat): Opponent
  {
    if k == 0 then s else BeginHitReaction(BeginHitReactions(s, c, now, k - 1), c, now)
  }

  /** The final continuation of PlayHitDamageAnimation (after the hit
      animation's duration). The continuation after the initial 0.3 s delay
      only drives the animator and changes no state. */
  function EndHitReaction(s: Opponent): Opponent
    requires 0 < s.pendingHitReactions
  {
    s.(isTakingDamage := false, pendingHitReactions := s.pendingHitReactions - 1)
  }

  /** TakeDamage, including the Die call or the hit-reaction prefix it makes.
      The StopCoroutine("ResetAttackState") call stops nothing, so a pending
      attack reset stays pending. */
  function TakeDamage(s: Opponent, c: Config, damage: int, now: real): Opponent
  {
    if s.isDead || s.isTakingDamage then s
    else
      var hit := s.(isTakingDamage := true, health := s.health - damage as real, isAttacking := false);
      if hit.health <= 0.0 then Die(hit) else BeginHitReaction(hit, c, now)
  }

  /** PerformAttack: guarded by the attacking flag; starts the 1 s reset. */
  function PerformAttack(s: Opponent, now: real): Opponent
  {
    if s.isAttacking then s
    else s.(isAttacking := true, lastAttackTime := now, pendingResets := s.pendingResets + 1)
  }

  /** The continuation of ResetAttackState. */
  function ResetAttackState(s: Opponent): Opponent
    requires 0 < s.pendingResets
  {
    s.(isAttacking := false, pendingResets := s.pendingResets - 1)
  }

  /** The OnAttackEnd animation event. */
  function OnAttackEnd(s: Opponent): Opponent
  {
    s.(isAttacking := false)
  }

  /** ResetDamageState. */
  function ResetDamageState(s: Opponent): Opponent
  {
    s.(isTakingDamage := false)
  }

  /** What one Update tick does: nothing, hold position facing the player,
      walk towards the player, or start an attack. */
  datatype TickAction = Idle | Hold | Approach | Attack

  /** The guard and branch logic of Update; `hasTarget` is "playerTarget is
      set" and `inRange` is "distance to the player <= attackRadius". */
  function Decide(s: Opponent, c: Config, hasTarget: bool, inRange: bool, now: real): TickAction
  {
    if s.isDead || s.isTakingDamage || !hasTarget then Idle
    else if inRange then
      (if now - s.lastAttackTime > c.attackCooldown && !s.isTakingDamage && !s.isAttacking
       then Attack else Hold)
    else Approach
  }

  /** The state after one Update tick. */
  function UpdateTick(s: Opponent, c: Config, hasTarget: bool, inRange: bool, now: real): Opponent
  {
    if Decide(s, c, hasTarget, inRange, now) == Attack then PerformAttack(s, now) else s
  }

  /** Everything that can happen to an opponent after start-up, in any order. */
  datatype Event =
    | Damaged(damage: int, at: real)       // TakeDamage
    | Struck(at: real)                     // PlayHitDamageAnimation started by the player
    | HitReactionDone                      // final continuation of a hit reaction
    | AttackResetDue                       // continuation of ResetAttackState
    | AttackEnded                          // OnAttackEnd
    | DamageStateReset                     // ResetDamageState
    | Frame(hasTarget: bool, inRange: bool, at: real)   // Update

  /** One event; a continuation with none pending cannot be resumed. */
  function Step(s: Opponent, c: Config, e: Event): Opponent
  {
    match e
    case Damaged(d, t) => TakeDamage(s, c, d, t)
    case Struck(t) => BeginHitReaction(s, c, t)
    case HitReactionDone => if 0 < s.pendingHitReactions then EndHitReaction(s) else s
    case AttackResetDue => if 0 < s.pendingResets then ResetAttackState(s) else s
    case AttackEnded => OnAttackEnd(s)
    case DamageStateReset => ResetDamageState(s)
    case Frame(h, r, t) => UpdateTick(s, c, h, r, t)
  }

  function Run(s: Opponent, c: Config, evs: seq<Event>): Opponent
    decreases |evs|
  {
    if |evs| == 0 then s else Run(Step(s, c, evs[0]), c, evs[1..])
  }

  // ---------------------------------------------------------------------
  // Properties of single operations

  /** After SetupInitialState the flags are down, health is full, and the
      cooldown test of Update passes exactly when the clock is past zero. */
  lemma SetupAllowsFirstAttack(s: Opponent, c: Config, now: real)
    ensures var t := SetupInitialState(s, c);
      t.health == c.maxHealth && !t.isAttacking && !t.isTakingDamage && !t.isDead
    ensures Decide(SetupInitialState(s, c), c, true, true, now) == Attack <==> now > 0.0
  {
  }

  /** TakeDamage is refused while dead or already taking damage; otherwise it
      lowers health by exactly the damage, cancels any attack, and leaves
      the opponent either dead or in a hit reaction. */
  lemma TakeDamageEffect(s: Opponent, c: Config, damage: int, now: real)
    ensures s.isDead || s.isTakingDamage ==> TakeDamage(s, c, damage, now) == s
    ensures !s.isDead && !s.isTakingDamage ==>
      var t := TakeDamage(s, c, damage, now);
      && t.health == s.health - damage as real
      && !t.isAttacking
      && t.lastAttackTime == s.lastAttackTime
      && t.pendingResets == s.pendingResets
      && (t.health <= 0.0 ==> t.isDead && !t.isTakingDamage && t.pendingHitReactions == s.pendingHitReactions)
      && (t.health > 0.0 ==> !t.isDead && t.isTakingDamage)
  {
  }

  /** Die sets the dead flag and clears both others; a second Die changes nothing. */
  lemma DieIdempotent(s: Opponent)
    ensures Die(s).isDead
    ensures !s.isDead ==> !Die(s).isAttacking && !Die(s).isTakingDamage
    ensures Die(Die(s)) == Die(s)
    ensures Die(s).health == s.health
  {
  }

  /** The hit-reaction prefix exits without a change when the guard is up and
      the failsafe window has not passed; otherwise it raises the guard and
      schedules exactly one final continuation, which will lower it. It never
      touches health, death or attack state. */
  lemma BeginHitReactionEffect(s: Opponent, c: Config, now: real)
    ensures s.isTakingDamage && now - s.lastAttackTime <= c.hitAnimationDuration * 2.0 ==>
      BeginHitReaction(s, c, now) == s
    ensures !(s.isTakingDamage && now - s.lastAttackTime <= c.hitAnimationDuration * 2.0) ==>
      BeginHitReaction(s, c, now) == s.(isTakingDamage := true, pendingHitReactions := s.pendingHitReactions + 1)
    ensures 0 < BeginHitReaction(s, c, now).pendingHitReactions ==>
      !EndHitReaction(BeginHitReaction(s, c, now)).isTakingDamage
  {
  }

  /** A TakeDamage that leaves the opponent alive within the failsafe window of
      its own last attack raises the guard but starts no hit reaction, so no
      continuation will lower it. */
  lemma TakeDamageInWindowLeavesGuardUp(s: Opponent, c: Config, damage: int, now: real)
    requires !s.isDead && !s.isTakingDamage
    requires s.health - damage as real > 0.0
    requires now - s.lastAttackTime <= c.hitAnimationDuration * 2.0
    ensures TakeDamage(s, c, damage, now).isTakingDamage
    ensures TakeDamage(s, c, damage, now).pendingHitReactions == s.pendingHitReactions
  {
  }

  /** Any number of hit-reaction prefixes leave health, death, attack flag and
      attack time exactly as they were: the player's attacks cannot wound. */
  lemma {:induction false} BeginHitReactionsKeepHealth(s: Opponent, c: Config, now: real, k: nat)
    ensures var t := BeginHitReactions(s, c, now, k);
      t.health == s.health && t.isDead == s.isDead && t.isAttacking == s.isAttacking
      && t.lastAttackTime == s.lastAttackTime && t.pendingResets == s.pendingResets
    ensures 0 < k ==> BeginHitReactions(s, c, now, k).isTakingDamage
  {
    if k > 0 {
      BeginHitReactionsKeepHealth(s, c, now, k - 1);
    }
  }

  /** PerformAttack is refused while attacking; otherwise it raises the flag,
      stamps the time and schedules one reset. The reset continuation and
      OnAttackEnd only ever lower the attacking flag. */
  lemma AttackFlagLifecycle(s: Opponent, now: real)
    ensures s.isAttacking ==> PerformAttack(s, now) == s
    ensures !s.isAttacking ==>
      PerformAttack(s, now) == s.(isAttacking := true, lastAttackTime := now, pendingResets := s.pendingResets + 1)
    ensures 0 < s.pendingResets ==> ResetAttackState(s).(pendingResets := s.pendingResets) == s.(isAttacking := false)
    ensures OnAttackEnd(s) == s.(isAttacking := false)
  {
  }

  /** An Update tick does nothing when dead, in a hit reaction or without a
      target, and starts an attack exactly when the player is in range, the
      cooldown has strictly passed, and no attack is running. */
  lemma DecideGuards(s: Opponent, c: Config, hasTarget: bool, inRange: bool, now: real)
    ensures s.isDead || s.isTakingDamage || !hasTarget ==>
      Decide(s, c, hasTarget, inRange, now) == Idle && UpdateTick(s, c, hasTarget, inRange, now) == s
    ensures Decide(s, c, hasTarget, inRange, now) == Attack <==>
      hasTarget && inRange && !s.isDead && !s.isTakingDamage && !s.isAttacking
      && now - s.lastAttackTime > c.attackCooldown
    ensures Decide(s, c, hasTarget, inRange, now) == Attack ==>
      UpdateTick(s, c, hasTarget, inRange, now).isAttacking
      && UpdateTick(s, c, hasTarget, inRange, now).lastAttackTime == now
  {
  }

  // ---------------------------------------------------------------------
  // Properties of runs

  predicate NoDamage(evs: seq<Event>)
  {
    forall k :: 0 <= k < |evs| ==> !evs[k].Damaged?
  }

  predicate DamagesNonNegative(evs: seq<Event>)
  {
    forall k :: 0 <= k < |evs| && evs[k].Damaged? ==> 0 <= evs[k].damage
  }

  /** Health changes only in TakeDamage: a run without one, however many
      player strikes, ticks and continuations it holds, keeps health. */
  lemma {:induction false} HealthOnlyChangesInTakeDamage(s: Opponent, c: Config, evs: seq<Event>)
    requires NoDamage(evs)
    ensures Run(s, c, evs).health == s.health
    decreases |evs|
  {
    if |evs| > 0 {
      assert NoDamage(evs[1..]) by {
        forall k | 0 <= k < |evs[1..]| ensures !evs[1..][k].Damaged? { assert evs[1..][k] == evs[k + 1]; }
      }
      HealthOnlyChangesInTakeDamage(Step(s, c, evs[0]), c, evs[1..]);
    }
  }

  /** With non-negative damages, health never increases over any run. */
  lemma {:induction false} HealthNeverIncreases(s: Opponent, c: Config, evs: seq<Event>)
    requires DamagesNonNegative(evs)
    ensures Run(s, c, evs).health <= s.health
    decreases |evs|
  {
    if |evs| > 0 {
      assert DamagesNonNegative(evs[1..]) by {
        forall k | 0 <= k < |evs[1..]| && evs[1..][k].Damaged? ensures 0 <= evs[1..][k].damage {
          assert evs[1..][k] == evs[k + 1];
        }
      }
      HealthNeverIncreases(Step(s, c, evs[0]), c, evs[1..]);
    }
  }

  /** Once dead, always dead: no run changes health or starts an attack. */
  lemma {:induction false} DeadIsFinal(s: Opponent, c: Config, evs: seq<Event>)
    requires s.isDead
    ensures Run(s, c, evs).isDead
    ensures Run(s, c, evs).health == s.health
    ensures Run(s, c, evs).lastAttackTime == s.lastAttackTime
    decreases |evs|
  {
    if |evs| > 0 {
      DeadIsFinal(Step(s, c, evs[0]), c, evs[1..]);
    }
  }

  predicate NoRescue(evs: seq<Event>)
  {
    forall k :: 0 <= k < |evs| ==> !evs[k].DamageStateReset? && !evs[k].Struck?
  }

  /** A raised damage guard with no hit reaction pending stays raised until
      ResetDamageState or a new player strike: meanwhile the opponent takes
      no damage, does not die and starts no attack. */
  lemma {:induction false} StuckGuardPersists(s: Opponent, c: Config, evs: seq<Event>)
    requires s.isTakingDamage && s.pendingHitReactions == 0
    requires NoRescue(evs)
    ensures Run(s, c, evs).isTakingDamage
    ensures Run(s, c, evs).pendingHitReactions == 0
    ensures Run(s, c, evs).health == s.health
    ensures Run(s, c, evs).isDead == s.isDead
    ensures Run(s, c, evs).lastAttackTime == s.lastAttackTime
    decreases |evs|
  {
    if |evs| > 0 {
      assert NoRescue(evs[1..]) by {
        forall k | 0 <= k < |evs[1..]|
          ensures !evs[1..][k].DamageStateReset? && !evs[1..][k].Struck?
        {
          assert evs[1..][k] == evs[k + 1];
        }
      }
      StuckGuardPersists(Step(s, c, evs[0]), c, evs[1..]);
    }
  }
}
