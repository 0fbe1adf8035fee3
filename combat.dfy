/** The two combatants as the objects the game updates in place: OpponentAI
    and FightingController. Each call into the other side is a method call on
    the other object, as in the source. Every method's new state is tied to
    the value-level functions of OpponentModel and PlayerModel, where the
    properties of the combat bookkeeping are proved. Time is the explicit
    parameter `now`; distance tests and random draws are parameters too. */
module Combat {
  import opened AttackTable
  import OM = OpponentModel
  import PM = PlayerModel

  /** Sum of the frame times delivered to DodgeCoroutine, oldest first. */
  function FrameTime(deltas: seq<real>): real
  {
    if |deltas| == 0 then 0.0 else FrameTime(deltas[..|deltas| - 1]) + deltas[|deltas| - 1]
  }

  class OpponentAI {
    const maxHealth: real
    const attackCooldown: real
    const hitAnimationDuration: real
    const attackAnimations: seq<string>
    /** The player whose hit sequence an attack starts; may be unset. */
    const fightingController: FightingController?

    var currentHealth: real
    var isAttacking: bool
    var isTakingDamage: bool
    var isDead: bool
    var lastAttackTime: real
    var attacks: array?<Option<AttackMove>>
    /** ResetAttackState coroutines started and not yet resumed. */
    var pendingResets: nat
    /** PlayHitDamageAnimation coroutines past their guard and not yet finished. */
    var pendingHitReactions: nat

    function Config(): OM.Config
    {
      OM.Config(maxHealth, attackCooldown, hitAnimationDuration)
    }

    function State(): OM.Opponent
      reads this
    {
      OM.Opponent(currentHealth, isAttacking, isTakingDamage, isDead, lastAttackTime,
                  pendingResets, pendingHitReactions)
    }

    /** The attack table can serve every index the random draw can produce. */
    predicate AttackTableReady()
      reads this, attacks
    {
      attacks != null && attacks.Length >= |attackAnimations|
      && forall i :: 0 <= i < |attackAnimations| ==> attacks[i].Some?
    }

    /** The object as the engine creates it, before Start: field defaults and
        the attack table of the field initialiser. */
    constructor (maxHealth: real, attackCooldown: real, hitAnimationDuration: real,
                 fightingController: FightingController?)
      ensures Config() == OM.Config(maxHealth, attackCooldown, hitAnimationDuration)
      ensures this.fightingController == fightingController
      ensures attackAnimations == ["Attack1Animation", "Attack2Animation", "Attack3Animation", "Attack4Animation"]
      ensures State() == OM.Opponent(0.0, false, false, false, 0.0, 0, 0)
      ensures attacks != null && fresh(attacks) && attacks[..] == DefaultAttacks()
    {
      this.maxHealth := maxHealth;
      this.attackCooldown := attackCooldown;
      this.hitAnimationDuration := hitAnimationDuration;
      this.fightingController := fightingController;
      attackAnimations := ["Attack1Animation", "Attack2Animation", "Attack3Animation", "Attack4Animation"];
      currentHealth := 0.0;
      isAttacking, isTakingDamage, isDead := false, false, false;
      lastAttackTime := 0.0;
      pendingResets, pendingHitReactions := 0, 0;
      var table := new Option<AttackMove>[4](i requires 0 <= i < 4 => DefaultAttacks()[i]);
      assert table[..] == DefaultAttacks();
      attacks := table;
    }

    /** Start: SetupInitialState, then ValidateAttacks. */
    method Start()
      modifies this, attacks
      ensures State() == OM.SetupInitialState(old(State()), Config())
      ensures attacks != null
      ensures attacks[..] == ValidatedTable(old(if attacks == null then [] else attacks[..]))
      ensures AttackTableReady() <==> attacks.Length >= |attackAnimations|
    {
      SetupInitialState();
      ValidateAttacks();
    }

    method SetupInitialState()
      modifies this
      ensures State() == OM.SetupInitialState(old(State()), Config())
      ensures attacks == old(attacks)
    {
      currentHealth := maxHealth;
      isAttacking := false;
      isTakingDamage := false;
      isDead := false;
      lastAttackTime := -attackCooldown;
    }

    /** Installs the default table when there is none, then fills every null
        slot in place; non-null slots are left alone. */
    method ValidateAttacks()
      modifies this, attacks
      ensures attacks != null
      ensures attacks[..] == ValidatedTable(old(if attacks == null then [] else attacks[..]))
      ensures old(attacks) != null && old(attacks.Length) > 0 ==> attacks == old(attacks)
      ensures old(attacks) == null || old(attacks.Length) == 0 ==> fresh(attacks)
      ensures State() == old(State())
    {
      ghost var original := if attacks == null then [] else attacks[..];
      if attacks == null || attacks.Length == 0 {
        attacks := new Option<AttackMove>[4](i requires 0 <= i < 4 => DefaultAttacks()[i]);
      }
      var a := attacks;
      ghost var found := a[..];
      assert |original| == 0 ==> found == DefaultAttacks();
      for i := 0 to a.Length
        invariant attacks == a
        invariant State() == old(State())
        invariant forall k :: 0 <= k < i ==> a[k] == Filled(found[k], k)
        invariant forall k :: i <= k < a.Length ==> a[k] == found[k]
      {
        if a[i].None? {
          a[i] := Some(DefaultMove(i));
        }
      }
      assert a[..] == ValidatedTable(original);
    }

    /** TakeDamage: refused while dead or already taking damage; otherwise
        raises the guard, lowers health, cancels the attack flag, and either
        dies or starts its own hit reaction. */
    method TakeDamage(damage: int, now: real)
      modifies this
      ensures State() == OM.TakeDamage(old(State()), Config(), damage, now)
      ensures attacks == old(attacks)
    {
      if isDead || isTakingDamage {
        return;
      }
      isTakingDamage := true;
      currentHealth := currentHealth - damage as real;
      if isAttacking {
        // StopCoroutine("ResetAttackState") stops nothing: the reset stays pending.
        isAttacking := false;
      }
      if currentHealth <= 0.0 {
        Die();
      } else {
        var started := PlayHitDamageAnimation(damage, now);
      }
    }

    method Die()
      modifies this
      ensures State() == OM.Die(old(State()))
      ensures attacks == old(attacks)
    {
      if isDead {
        return;
      }
      isDead := true;
      isAttacking := false;
      isTakingDamage := false;
    }

    /** The synchronous prefix of PlayHitDamageAnimation: the stuck-state
        failsafe, the guard, and raising the guard. `takedamage` is unused. */
    method PlayHitDamageAnimation(takedamage: int, now: real) returns (started: bool)
      modifies this
      ensures State() == OM.BeginHitReaction(old(State()), Config(), now)
      ensures started <==> pendingHitReactions == old(pendingHitReactions) + 1
      ensures currentHealth == old(currentHealth)
      ensures attacks == old(attacks)
    {
      if isTakingDamage && now - lastAttackTime > hitAnimationDuration * 2.0 {
        isTakingDamage := false;
      }
      if isTakingDamage {
        return false;
      }
      isTakingDamage := true;
      pendingHitReactions := pendingHitReactions + 1;
      started := true;
    }

    /** The final continuation of PlayHitDamageAnimation. */
    method HitAnimationComplete()
      requires 0 < pendingHitReactions
      modifies this
      ensures State() == OM.EndHitReaction(old(State()))
      ensures attacks == old(attacks)
    {
      isTakingDamage := false;
      pendingHitReactions := pendingHitReactions - 1;
    }

    /** PerformAttack: refused while attacking; otherwise stamps the time,
        starts the player's hit sequence with the move's damage, and starts
        the one-second reset. */
    method PerformAttack(attackIndex: nat, now: real) returns (damage: Option<int>)
      requires !isAttacking ==>
        attacks != null && attackIndex < |attackAnimations| && attackIndex < attacks.Length
        && attacks[attackIndex].Some?
      modifies this, fightingController
      ensures State() == OM.PerformAttack(old(State()), now)
      ensures attacks == old(attacks)
      ensures old(isAttacking) ==> damage == None
      ensures !old(isAttacking) ==> damage == Some(attacks[attackIndex].value.attackDamages)
      ensures fightingController != null ==>
        fightingController.State() ==
          if damage.Some? then PM.BeginHitDamage(old(fightingController.State()), damage.value)
          else old(fightingController.State())
    {
      if isAttacking {
        return None;
      }
      isAttacking := true;
      var d := attacks[attackIndex].value.attackDamages;
      lastAttackTime := now;
      if fightingController != null {
        fightingController.PlayHitDamageAnimation(d);
      }
      pendingResets := pendingResets + 1;
      damage := Some(d);
    }

    /** PerformRandomAttack: `randomIndex` is the draw of Random.Range over
        the animation names, used to index the attack table as well. */
    method PerformRandomAttack(randomIndex: nat, now: real) returns (damage: Option<int>)
      requires randomIndex < |attackAnimations|
      requires !isAttacking ==> AttackTableReady()
      modifies this, fightingController
      ensures State() == OM.PerformAttack(old(State()), now)
      ensures attacks == old(attacks)
      ensures old(isAttacking) ==> damage == None
      ensures !old(isAttacking) ==> damage == Some(attacks[randomIndex].value.attackDamages)
      ensures fightingController != null ==>
        fightingController.State() ==
          if damage.Some? then PM.BeginHitDamage(old(fightingController.State()), damage.value)
          else old(fightingController.State())
    {
      damage := PerformAttack(randomIndex, now);
    }

    /** The continuation of ResetAttackState. */
    method ResetAttackState()
      requires 0 < pendingResets
      modifies this
      ensures State() == OM.ResetAttackState(old(State()))
      ensures attacks == old(attacks)
    {
      isAttacking := false;
      pendingResets := pendingResets - 1;
    }

    method OnAttackEnd()
      modifies this
      ensures State() == OM.OnAttackEnd(old(State()))
      ensures attacks == old(attacks)
    {
      isAttacking := false;
    }

    method ResetDamageState()
      modifies this
      ensures State() == OM.ResetDamageState(old(State()))
      ensures attacks == old(attacks)
    {
      isTakingDamage := false;
    }

    /** The guard and branch logic of one Update tick. `hasTarget` stands for
        playerTarget being set, `inRange` for the distance test against
        attackRadius, `randomIndex` for the attack draw. */
    method Update(now: real, hasTarget: bool, inRange: bool, randomIndex: nat) returns (action: OM.TickAction)
      requires OM.Decide(State(), Config(), hasTarget, inRange, now) == OM.Attack ==>
        randomIndex < |attackAnimations| && AttackTableReady()
      modifies this, fightingController
      ensures action == OM.Decide(old(State()), Config(), hasTarget, inRange, now)
      ensures State() == OM.UpdateTick(old(State()), Config(), hasTarget, inRange, now)
      ensures attacks == old(attacks)
      ensures fightingController != null ==>
        fightingController.State() ==
          if action == OM.Attack
          then PM.BeginHitDamage(old(fightingController.State()), attacks[randomIndex].value.attackDamages)
          else old(fightingController.State())
    {
      if isDead || isTakingDamage || !hasTarget {
        return OM.Idle;
      }
      if inRange {
        if now - lastAttackTime > attackCooldown && !isTakingDamage && !isAttacking {
          var damage := PerformRandomAttack(randomIndex, now);
          action := OM.Attack;
        } else {
          action := OM.Hold;
        }
      } else {
        action := OM.Approach;
      }
    }
  }

  class FightingController {
    const maxHealth: int
    const attackCooldown: real
    const dodgeCooldown: real
    const attackDamages: int
    const attackAnimations: seq<string>
    /** The opponents the player's attacks can reach. */
    const opponents: seq<OpponentAI>

    var currentHealth: int
    var isTakingDamage: bool
    var isDodging: bool
    var lastAttackTime: real
    var lastDodgeTime: real
    /** Amounts carried by the PlayHitDamageAnimation coroutines in flight. */
    var pendingHits: seq<int>

    function Config(): PM.Config
    {
      PM.Config(maxHealth, attackCooldown, dodgeCooldown, attackDamages)
    }

    function State(): PM.Player
      reads this
    {
      PM.Player(currentHealth, isTakingDamage, isDodging, lastAttackTime, lastDodgeTime, pendingHits)
    }

    /** The object as the engine creates it, before Awake. */
    constructor (maxHealth: int, attackCooldown: real, dodgeCooldown: real, attackDamages: int,
                 opponents: seq<OpponentAI>)
      ensures Config() == PM.Config(maxHealth, attackCooldown, dodgeCooldown, attackDamages)
      ensures this.opponents == opponents
      ensures attackAnimations == ["Attack1Animation", "Attack2Animation", "Attack3Animation", "Attack4Animation"]
      ensures State() == PM.Player(0, false, false, 0.0, 0.0, [])
    {
      this.maxHealth := maxHealth;
      this.attackCooldown := attackCooldown;
      this.dodgeCooldown := dodgeCooldown;
      this.attackDamages := attackDamages;
      this.opponents := opponents;
      attackAnimations := ["Attack1Animation", "Attack2Animation", "Attack3Animation", "Attack4Animation"];
      currentHealth := 0;
      isTakingDamage, isDodging := false, false;
      lastAttackTime, lastDodgeTime := 0.0, 0.0;
      pendingHits := [];
    }

    method Awake()
      modifies this
      ensures State() == PM.Awake(old(State()), Config())
      ensures currentHealth == maxHealth
    {
      currentHealth := maxHealth;
    }

    /** TakeDamage: refused while taking damage or out of health; otherwise
        raises the guard (for good), lowers health by `damage`, and starts a
        hit sequence carrying `takeDamage`. */
    method TakeDamage(damage: int, takeDamage: int)
      modifies this
      ensures State() == PM.TakeDamage(old(State()), damage, takeDamage)
    {
      if isTakingDamage || currentHealth <= 0 {
        return;
      }
      isTakingDamage := true;
      currentHealth := currentHealth - damage;
      PlayHitDamageAnimation(takeDamage);
    }

    /** Starting PlayHitDamageAnimation: it waits before doing anything. */
    method PlayHitDamageAnimation(takeDamage: int)
      modifies this
      ensures State() == PM.BeginHitDamage(old(State()), takeDamage)
    {
      pendingHits := pendingHits + [takeDamage];
    }

    /** The continuation of the in-flight hit sequence at position `k`:
        lowers health by its amount with no guard; `died` says whether Die
        (which only logs) is reached. */
    method HitDamageResume(k: nat) returns (died: bool)
      requires k < |pendingHits|
      modifies this
      ensures State() == PM.ResumeHitDamage(old(State()), k)
      ensures currentHealth == old(currentHealth) - old(pendingHits)[k]
      ensures died <==> currentHealth <= 0
    {
      var takeDamage := pendingHits[k];
      pendingHits := PM.RemoveAt(pendingHits, k);
      currentHealth := currentHealth - takeDamage;
      died := currentHealth <= 0;
    }

    /** PerformAttack: when the cooldown has strictly passed, stamps the time
        and starts a hit reaction on every opponent whose in-range flag is
        set; otherwise does nothing. `inRange[i]` stands for "the distance to
        opponents[i] is at most attackRadius". The same opponent listed twice
        is struck twice. The attack index selects an animation only once the
        cooldown has passed, so it must name one only then. */
    method PerformAttack(attackIndex: nat, now: real, inRange: seq<bool>) returns (struck: seq<OpponentAI>)
      requires PM.AttackReady(State(), Config(), now) ==> attackIndex < |attackAnimations|
      requires |inRange| == |opponents|
      modifies this, opponents
      ensures State() == PM.PerformAttack(old(State()), Config(), now)
      ensures struck == if PM.AttackReady(old(State()), Config(), now) then PM.InRange(opponents, inRange) else []
      ensures forall o :: o in opponents ==>
        o.State() == OM.BeginHitReactions(old(o.State()), o.Config(), now, multiset(struck)[o])
      ensures forall o :: o in opponents ==> o.currentHealth == old(o.currentHealth) && o.attacks == old(o.attacks)
    {
      struck := [];
      if now - lastAttackTime > attackCooldown {
        lastAttackTime := now;
        struck := StrikeInRange(now, inRange);
      }
      forall o | o in opponents
        ensures o.currentHealth == old(o.currentHealth)
      {
        OM.BeginHitReactionsKeepHealth(old(o.State()), o.Config(), now, multiset(struck)[o]);
      }
    }

    /** The foreach of PerformAttack: every opponent flagged in range gets the
        prefix of its hit reaction, once for each time it is listed. */
    method StrikeInRange(now: real, inRange: seq<bool>) returns (struck: seq<OpponentAI>)
      requires |inRange| == |opponents|
      modifies opponents
      ensures struck == PM.InRange(opponents, inRange)
      ensures forall o :: o in opponents ==>
        o.State() == OM.BeginHitReactions(old(o.State()), o.Config(), now, multiset(struck)[o])
        && o.attacks == old(o.attacks)
    {
      struck := [];
      var i := 0;
      while i < |opponents|
        invariant 0 <= i <= |opponents|
        invariant struck == PM.InRangeUpTo(opponents, inRange, i)
        invariant forall o {:trigger o.State()} :: o in opponents ==>
          o.State() == OM.BeginHitReactions(old(o.State()), o.Config(), now, PM.StrikesUpTo(opponents, inRange, i, o))
          && o.attacks == old(o.attacks)
      {
        if inRange[i] {
          var target := opponents[i];
          label before:
          var started := target.PlayHitDamageAnimation(attackDamages, now);
          struck := struck + [target];
          forall o | o in opponents
            ensures o.State() == OM.BeginHitReactions(old(o.State()), o.Config(), now, PM.StrikesUpTo(opponents, inRange, i + 1, o))
            ensures o.attacks == old(o.attacks)
          {
            if o != target { assert o.State() == old@before(o.State()); }
          }
        }
        i := i + 1;
      }
      assert struck == PM.InRange(opponents, inRange);
      forall o | o in opponents
        ensures o.State() == OM.BeginHitReactions(old(o.State()), o.Config(), now, multiset(struck)[o])
      {
        PM.StrikesUpToCounts(opponents, inRange, |opponents|, o);
      }
    }

    /** PerformDodge: refused during a dodge or before the cooldown since the
        last dodge has run out; otherwise starts one. */
    method PerformDodge(now: real)
      modifies this
      ensures State() == PM.PerformDodge(old(State()), Config(), now)
    {
      if isDodging || now < lastDodgeTime + dodgeCooldown {
        return;
      }
      isDodging := true;
      lastDodgeTime := now;
    }

    /** DodgeCoroutine: accumulates frame times until the dodge duration is
        reached, then clears the dodge flag once. `frameDeltas` are the frame
        times the engine delivers; together they reach the duration. The
        coroutine stops at the first frame that reaches it: no earlier prefix
        of the frames does. */
    method DodgeCoroutine(frameDeltas: seq<real>) returns (frames: nat)
      requires isDodging
      requires PM.DodgeDuration <= FrameTime(frameDeltas)
      modifies this
      ensures State() == PM.EndDodge(old(State()))
      ensures 0 < frames <= |frameDeltas|
      ensures PM.DodgeDuration <= FrameTime(frameDeltas[..frames])
      ensures FrameTime(frameDeltas[..frames - 1]) < PM.DodgeDuration
      ensures forall j :: 0 <= j < frames ==> FrameTime(frameDeltas[..j]) < PM.DodgeDuration
    {
      var elapsedTime := 0.0;
      frames := 0;
      while elapsedTime < PM.DodgeDuration
        invariant frames <= |frameDeltas|
        invariant elapsedTime == FrameTime(frameDeltas[..frames])
        invariant forall j :: 0 <= j < frames ==> FrameTime(frameDeltas[..j]) < PM.DodgeDuration
        invariant State() == old(State())
        decreases |frameDeltas| - frames
      {
        assert frameDeltas[..|frameDeltas|] == frameDeltas;
        assert frames < |frameDeltas|;
        assert frameDeltas[..frames + 1][..frames] == frameDeltas[..frames];
        elapsedTime := elapsedTime + frameDeltas[frames];
        frames := frames + 1;
      }
      isDodging := false;
    }

    /** The guard of PerformMovement: movement is processed only when no
        dodge is running. */
    method PerformMovement() returns (moves: bool)
      ensures moves <==> !isDodging
    {
      if isDodging {
        return false;
      }
      moves := true;
    }
  }
}
