/** The combat bookkeeping of FightingController as values: the state the
    class keeps, one function per operation or coroutine continuation, and
    what a run of any interleaving of them can and cannot do. The class
    FightingController in module Combat is proved against these functions. */
module PlayerModel {

  /** The tunable fields the combat logic reads, as set in the Inspector. */
  datatype Config = Config(maxHealth: int, attackCooldown: real, dodgeCooldown: real, attackDamages: int)

  /** How long DodgeCoroutine runs, in seconds of accumulated frame time. */
  const DodgeDuration: real := 0.5

  /** The player's combat state. `pendingHits` holds, in start order, the
      amount carried by every PlayHitDamageAnimation coroutine that has been
      started and not yet resumed. */
  datatype Player = Player(
    health: int,
    isTakingDamage: bool,
    isDodging: bool,
    lastAttackTime: real,
    lastDodgeTime: real,
    pendingHits: seq<int>)

  function Sum(xs: seq<int>): int
  {
    if |xs| == 0 then 0 else xs[0] + Sum(xs[1..])
  }

  predicate NonNegative(xs: seq<int>)
  {
    forall k :: 0 <= k < |xs| ==> 0 <= xs[k]
  }

  /** `xs` without its element at position `k`. */
  function RemoveAt(xs: seq<int>, k: nat): (r: seq<int>)
    requires k < |xs|
    ensures |r| == |xs| - 1
    ensures multiset(r) == multiset(xs) - multiset{xs[k]}
  {
    assert xs == xs[..k] + [xs[k]] + xs[k + 1..];
    xs[..k] + xs[k + 1..]
  }

  /** Awake: full health. */
  function Awake(s: Player, c: Config): Player
  {
    s.(health := c.maxHealth)
  }

  /** TakeDamage(damage, takeDamage): guarded by the damage flag and by death;
      lowers health at once and starts a hit sequence carrying `takeDamage`. */
  function TakeDamage(s: Player, damage: int, takeDamage: int): Player
  {
    if s.isTakingDamage || s.health <= 0 then s
    else s.(isTakingDamage := true, health := s.health - damage,
            pendingHits := s.pendingHits + [takeDamage])
  }

  /** The synchronous prefix of PlayHitDamageAnimation: it waits at once, so
      starting it only records the in-flight sequence. There is no guard. */
  function BeginHitDamage(s: Player, takeDamage: int): Player
  {
    s.(pendingHits := s.pendingHits + [takeDamage])
  }

  /** The continuation of PlayHitDamageAnimation (after 0.5 s) for the
      in-flight sequence at position `k`: no guard, no floor at zero. */
  function ResumeHitDamage(s: Player, k: nat): Player
    requires k < |s.pendingHits|
  {
    s.(health := s.health - s.pendingHits[k], pendingHits := RemoveAt(s.pendingHits, k))
  }

  /** Whether PerformAttack's cooldown test passes. */
  predicate AttackReady(s: Player, c: Config, now: real)
  {
    now - s.lastAttackTime > c.attackCooldown
  }

  /** The player's own state after PerformAttack. */
  function PerformAttack(s: Player, c: Config, now: real): Player
  {
    if AttackReady(s, c, now) then s.(lastAttackTime := now) else s
  }

  /** Whether PerformDodge's guard lets a dodge start. */
  predicate DodgeReady(s: Player, c: Config, now: real)
  {
    !(s.isDodging || now < s.lastDodgeTime + c.dodgeCooldown)
  }

  /** PerformDodge. */
  function PerformDodge(s: Player, c: Config, now: real): Player
  {
    if DodgeReady(s, c, now) then s.(isDodging := true, lastDodgeTime := now) else s
  }

  /** The end of DodgeCoroutine. */
  function EndDodge(s: Player): Player
  {
    s.(isDodging := false)
  }

  /** The targets among the first `n` whose in-range flag is set, in order:
      what the foreach of PerformAttack has struck after `n` iterations. */
  function InRangeUpTo<T>(targets: seq<T>, inRange: seq<bool>, n: nat): seq<T>
    requires n <= |targets| == |inRange|
  {
    if n == 0 then []
    else InRangeUpTo(targets, inRange, n - 1) + (if inRange[n - 1] then [targets[n - 1]] else [])
  }

  /** How many times `x` is struck in the first `n` iterations of the foreach. */
  function StrikesUpTo<T(==)>(targets: seq<T>, inRange: seq<bool>, n: nat, x: T): nat
    requires n <= |targets| == |inRange|
  {
    if n == 0 then 0
    else StrikesUpTo(targets, inRange, n - 1, x) + (if inRange[n - 1] && targets[n - 1] == x then 1 else 0)
  }

  /** The targets whose in-range flag is set, in order. */
  function InRange<T>(targets: seq<T>, inRange: seq<bool>): seq<T>
    requires |targets| == |inRange|
  {
    InRangeUpTo(targets, inRange, |targets|)
  }

  /** Everything that can happen to the player after Awake, in any order. */
  datatype Event =
    | Damaged(damage: int, takeDamage: int)   // TakeDamage
    | HitStarted(amount: int)                 // PlayHitDamageAnimation started by an opponent
    | HitResumed(index: nat)                  // a hit sequence's continuation
    | Attacked(at: real)                      // PerformAttack
    | Dodged(at: real)                        // PerformDodge
    | DodgeFinished                           // end of DodgeCoroutine

  /** One event; a continuation with nothing in flight cannot be resumed. */
  function Step(s: Player, c: Config, e: Event): Player
  {
    match e
    case Damaged(d, t) => TakeDamage(s, d, t)
    case HitStarted(a) => BeginHitDamage(s, a)
    case HitResumed(k) => if k < |s.pendingHits| then ResumeHitDamage(s, k) else s
    case Attacked(t) => PerformAttack(s, c, t)
    case Dodged(t) => PerformDodge(s, c, t)
    case DodgeFinished => EndDodge(s)
  }

  function Run(s: Player, c: Config, evs: seq<Event>): Player
    decreases |evs|
  {
    if |evs| == 0 then s else Run(Step(s, c, evs[0]), c, evs[1..])
  }

  // ---------------------------------------------------------------------
  // Sums and removal

  lemma {:induction false} SumAppend(xs: seq<int>, ys: seq<int>)
    ensures Sum(xs + ys) == Sum(xs) + Sum(ys)
  {
    if |xs| == 0 {
      assert xs + ys == ys;
    } else {
      assert (xs + ys)[1..] == xs[1..] + ys;
      SumAppend(xs[1..], ys);
    }
  }

  /** Removing one in-flight amount lowers the outstanding total by that amount. */
  lemma SumRemoveAt(xs: seq<int>, k: nat)
    requires k < |xs|
    ensures Sum(RemoveAt(xs, k)) == Sum(xs) - xs[k]
  {
    var front, mid, back := xs[..k], xs[k..], xs[k + 1..];
    assert xs == front + mid;
    SumAppend(front, mid);
    assert mid[0] == xs[k] && mid[1..] == back;
    assert Sum(mid) == xs[k] + Sum(back);
    SumAppend(front, back);
  }

  /** Removing one in-flight amount keeps the others non-negative. */
  lemma RemoveAtNonNegative(xs: seq<int>, k: nat)
    requires k < |xs|
    requires NonNegative(xs)
    ensures NonNegative(RemoveAt(xs, k))
  {
    var r := RemoveAt(xs, k);
    assert r == xs[..k] + xs[k + 1..];
    forall i | 0 <= i < |r| ensures 0 <= r[i] {
      if i < k {
        assert r[i] == xs[i];
      } else {
        assert r[i] == xs[i + 1];
      }
    }
  }

  // ---------------------------------------------------------------------
  // Properties of single operations

  /** TakeDamage is refused while the flag is up or health is gone; otherwise
      it raises the flag, lowers health by `damage` and starts one hit
      sequence carrying `takeDamage`. */
  lemma TakeDamageEffect(s: Player, damage: int, takeDamage: int)
    ensures s.isTakingDamage || s.health <= 0 ==> TakeDamage(s, damage, takeDamage) == s
    ensures !s.isTakingDamage && s.health > 0 ==>
      var t := TakeDamage(s, damage, takeDamage);
      t.isTakingDamage && t.health == s.health - damage && t.pendingHits == s.pendingHits + [takeDamage]
      && t.isDodging == s.isDodging && t.lastAttackTime == s.lastAttackTime && t.lastDodgeTime == s.lastDodgeTime
  {
  }

  /** The damage is applied twice: an accepted TakeDamage(d, t) lowers health
      by d at once, and its hit sequence, when resumed, lowers it by t more. */
  lemma DamageAppliedTwice(s: Player, damage: int, takeDamage: int)
    requires !s.isTakingDamage && s.health > 0
    ensures var t := TakeDamage(s, damage, takeDamage);
      ResumeHitDamage(t, |t.pendingHits| - 1).health == s.health - damage - takeDamage
    ensures var t := TakeDamage(s, damage, takeDamage);
      ResumeHitDamage(t, |t.pendingHits| - 1).pendingHits == s.pendingHits
  {
  }

  /** PerformAttack stamps the time exactly when the cooldown has strictly
      passed, and changes nothing else. */
  lemma AttackCooldownGate(s: Player, c: Config, now: real)
    ensures PerformAttack(s, c, now) != s <==> AttackReady(s, c, now) && now != s.lastAttackTime
    ensures AttackReady(s, c, now) ==> PerformAttack(s, c, now).lastAttackTime == now
    ensures PerformAttack(s, c, now).(lastAttackTime := s.lastAttackTime) == s
  {
  }

  /** PerformDodge starts a dodge exactly when none is running and the
      cooldown since the last one has passed. From the initial dodge time 0,
      the first dodge needs the clock at or past the cooldown. */
  lemma DodgeGate(s: Player, c: Config, now: real)
    ensures DodgeReady(s, c, now) <==> !s.isDodging && now >= s.lastDodgeTime + c.dodgeCooldown
    ensures DodgeReady(s, c, now) ==>
      PerformDodge(s, c, now) == s.(isDodging := true, lastDodgeTime := now)
    ensures !DodgeReady(s, c, now) ==> PerformDodge(s, c, now) == s
    ensures s.lastDodgeTime == 0.0 && !s.isDodging ==> (DodgeReady(s, c, now) <==> now >= c.dodgeCooldown)
  {
  }

  /** Exactly the flagged targets are struck, whatever else is in the list. */
  lemma {:induction false} InRangeMembers<T>(targets: seq<T>, inRange: seq<bool>, x: T)
    requires |targets| == |inRange|
    ensures x in InRange(targets, inRange) <==>
      exists i :: 0 <= i < |targets| && inRange[i] && targets[i] == x
  {
    InRangeUpToMembers(targets, inRange, |targets|, x);
  }

  /** The same after `n` iterations, over the first `n` targets. */
  lemma {:induction false} InRangeUpToMembers<T>(targets: seq<T>, inRange: seq<bool>, n: nat, x: T)
    requires n <= |targets| == |inRange|
    ensures x in InRangeUpTo(targets, inRange, n) <==>
      exists i :: 0 <= i < n && inRange[i] && targets[i] == x
  {
    if n > 0 {
      InRangeUpToMembers(targets, inRange, n - 1, x);
    }
  }

  /** The struck list holds `x` exactly as many times as the foreach strikes it. */
  lemma {:induction false} StrikesUpToCounts<T>(targets: seq<T>, inRange: seq<bool>, n: nat, x: T)
    requires n <= |targets| == |inRange|
    ensures multiset(InRangeUpTo(targets, inRange, n))[x] == StrikesUpTo(targets, inRange, n, x)
  {
    if n > 0 {
      StrikesUpToCounts(targets, inRange, n - 1, x);
      var prev := InRangeUpTo(targets, inRange, n - 1);
      var last := if inRange[n - 1] then [targets[n - 1]] else [];
      assert InRangeUpTo(targets, inRange, n) == prev + last;
      assert multiset(prev + last) == multiset(prev) + multiset(last);
      assert multiset(last)[x] == if inRange[n - 1] && targets[n - 1] == x then 1 else 0;
    }
  }

  // ---------------------------------------------------------------------
  // Properties of runs

  /** Nothing lowers the damage flag: once up it stays up over any run, and
      every later TakeDamage is refused. */
  lemma {:induction false} DamageFlagNeverCleared(s: Player, c: Config, evs: seq<Event>, damage: int, takeDamage: int)
    requires s.isTakingDamage
    ensures Run(s, c, evs).isTakingDamage
    ensures TakeDamage(Run(s, c, evs), damage, takeDamage) == Run(s, c, evs)
    decreases |evs|
  {
    if |evs| > 0 {
      DamageFlagNeverCleared(Step(s, c, evs[0]), c, evs[1..], damage, takeDamage);
    }
  }

  predicate OnlyResumes(evs: seq<Event>)
  {
    forall k :: 0 <= k < |evs| ==> evs[k].HitResumed?
  }

  /** Resuming in-flight hit sequences, in any order, lowers health by the sum
      of the amounts they carry: health minus the outstanding total is
      unchanged. With every sequence resumed, health has dropped by the sum. */
  lemma {:induction false} ResumesLowerHealthBySum(s: Player, c: Config, evs: seq<Event>)
    requires OnlyResumes(evs)
    ensures Run(s, c, evs).health - Sum(Run(s, c, evs).pendingHits) == s.health - Sum(s.pendingHits)
    ensures Run(s, c, evs).pendingHits == [] ==> Run(s, c, evs).health == s.health - Sum(s.pendingHits)
    decreases |evs|
  {
    if |evs| > 0 {
      var k := evs[0].index;
      if k < |s.pendingHits| {
        SumRemoveAt(s.pendingHits, k);
      }
      assert OnlyResumes(evs[1..]) by {
        forall j | 0 <= j < |evs[1..]| ensures evs[1..][j].HitResumed? { assert evs[1..][j] == evs[j + 1]; }
      }
      ResumesLowerHealthBySum(Step(s, c, evs[0]), c, evs[1..]);
    }
  }

  /** The amounts an event carries are non-negative. */
  predicate EventNonNegative(e: Event)
  {
    (e.Damaged? ==> 0 <= e.damage && 0 <= e.takeDamage)
    && (e.HitStarted? ==> 0 <= e.amount)
  }

  predicate AmountsNonNegative(evs: seq<Event>)
  {
    forall k :: 0 <= k < |evs| ==> EventNonNegative(evs[k])
  }

  /** One step with non-negative amounts does not raise health and keeps the
      in-flight amounts non-negative. */
  lemma StepNeverIncreasesHealth(s: Player, c: Config, e: Event)
    requires NonNegative(s.pendingHits)
    requires EventNonNegative(e)
    ensures Step(s, c, e).health <= s.health
    ensures NonNegative(Step(s, c, e).pendingHits)
  {
    if e.HitResumed? && e.index < |s.pendingHits| {
      RemoveAtNonNegative(s.pendingHits, e.index);
    }
  }

  /** With non-negative amounts, health never increases after Awake; it may
      pass below zero, as nothing clamps it. */
  lemma {:induction false} HealthNeverIncreases(s: Player, c: Config, evs: seq<Event>)
    requires NonNegative(s.pendingHits)
    requires AmountsNonNegative(evs)
    ensures Run(s, c, evs).health <= s.health
    ensures NonNegative(Run(s, c, evs).pendingHits)
    decreases |evs|
  {
    if |evs| > 0 {
      StepNeverIncreasesHealth(s, c, evs[0]);
      assert AmountsNonNegative(evs[1..]) by {
        forall j | 0 <= j < |evs[1..]| ensures EventNonNegative(evs[1..][j]) {
          assert evs[1..][j] == evs[j + 1];
        }
      }
      HealthNeverIncreases(Step(s, c, evs[0]), c, evs[1..]);
    }
  }

  /** An in-flight hit sequence lowers health below zero when it carries more
      than what is left: there is no floor. */
  lemma HealthHasNoFloor(s: Player, k: nat)
    requires k < |s.pendingHits|
    requires s.health < s.pendingHits[k]
    ensures ResumeHitDamage(s, k).health < 0
  {
  }

  predicate NoDodgeEnd(evs: seq<Event>)
  {
    forall k :: 0 <= k < |evs| ==> !evs[k].DodgeFinished?
  }

  /** A running dodge lasts until DodgeCoroutine ends it; meanwhile no other
      event lowers the flag, so PerformMovement stays suspended. */
  lemma {:induction false} DodgeLastsUntilItsEnd(s: Player, c: Config, evs: seq<Event>)
    requires s.isDodging
    requires NoDodgeEnd(evs)
    ensures Run(s, c, evs).isDodging
    ensures Run(s, c, evs).lastDodgeTime == s.lastDodgeTime
    decreases |evs|
  {
    if |evs| > 0 {
      assert NoDodgeEnd(evs[1..]) by {
        forall k | 0 <= k < |evs[1..]| ensures !evs[1..][k].DodgeFinished? { assert evs[1..][k] == evs[k + 1]; }
      }
      DodgeLastsUntilItsEnd(Step(s, c, evs[0]), c, evs[1..]);
    }
  }

  predicate DodgesBefore(evs: seq<Event>, limit: real)
  {
    forall k :: 0 <= k < |evs| && evs[k].Dodged? ==> evs[k].at < limit
  }

  /** No dodge starts before the cooldown since the last one has run out,
      whatever happens in between (dodge ends included). */
  lemma {:induction false} DodgeCooldownHolds(s: Player, c: Config, evs: seq<Event>)
    requires DodgesBefore(evs, s.lastDodgeTime + c.dodgeCooldown)
    ensures Run(s, c, evs).lastDodgeTime == s.lastDodgeTime
    decreases |evs|
  {
    if |evs| > 0 {
      assert DodgesBefore(evs[1..], s.lastDodgeTime + c.dodgeCooldown) by {
        forall k | 0 <= k < |evs[1..]| && evs[1..][k].Dodged?
          ensures evs[1..][k].at < s.lastDodgeTime + c.dodgeCooldown
        {
          assert evs[1..][k] == evs[k + 1];
        }
      }
      DodgeCooldownHolds(Step(s, c, evs[0]), c, evs[1..]);
    }
  }

  predicate AttacksWithin(evs: seq<Event>, from: real, cooldown: real)
  {
    forall k :: 0 <= k < |evs| && evs[k].Attacked? ==> evs[k].at - from <= cooldown
  }

  /** No attack is made again before its cooldown has strictly passed. */
  lemma {:induction false} AttackCooldownHolds(s: Player, c: Config, evs: seq<Event>)
    requires AttacksWithin(evs, s.lastAttackTime, c.attackCooldown)
    ensures Run(s, c, evs).lastAttackTime == s.lastAttackTime
    decreases |evs|
  {
    if |evs| > 0 {
      assert AttacksWithin(evs[1..], s.lastAttackTime, c.attackCooldown) by {
        forall k | 0 <= k < |evs[1..]| && evs[1..][k].Attacked?
          ensures evs[1..][k].at - s.lastAttackTime <= c.attackCooldown
        {
          assert evs[1..][k] == evs[k + 1];
        }
      }
      AttackCooldownHolds(Step(s, c, evs[0]), c, evs[1..]);
    }
  }
}
