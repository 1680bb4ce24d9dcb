/**
 * Hit points and the heart icons that display them: the value-level rules that
 * the methods of `Player.HealthSystem` follow, and what they imply over many calls.
 */
module Vitality {
  import opened Wrappers

  /** The component treats an entity whose health is zero or below as dead. */
  predicate Dead(health: int) {
    health <= 0
  }

  /**
   * Health after `TakeDamage(damage)`: a dead entity takes no damage, a living one
   * loses exactly `damage` points, with no clamp at zero.
   */
  function AfterDamage(health: int, damage: int): (r: int)
    ensures Dead(health) ==> r == health
    ensures damage >= 0 ==> r <= health
    ensures Dead(r) <==> Dead(health) || damage >= health
    ensures !Dead(health) ==> health - r == damage
  {
    if Dead(health) then health else health - damage
  }

  /** Health after `Heal(amount)`: the smaller of `health + amount` and `maxHealth`. */
  function Healed(health: int, amount: int, maxHealth: int): (r: int)
    ensures r <= maxHealth && r <= health + amount
    ensures r == maxHealth || r == health + amount
  {
    if health + amount < maxHealth then health + amount else maxHealth
  }

  // ---------------------------------------------------------------------------
  // Heart icons. An icon slot is `None` for a null entry of the array and
  // `Some(active)` for an icon whose active flag is `active`.

  /** What `UpdateHealthUI` does to slot `index`. */
  function IconAfterUI(icon: Option<bool>, index: int, health: int): (r: Option<bool>) {
    if icon.None? then None else Some(index < health)
  }

  /** The icon slots after `UpdateHealthUI` has run with the given health. */
  function IconsAfterUI(icons: seq<Option<bool>>, health: int): (r: seq<Option<bool>>)
    ensures |r| == |icons|
    ensures forall i :: 0 <= i < |icons| ==> (r[i].None? <==> icons[i].None?)
    ensures forall i :: 0 <= i < |icons| && icons[i].Some? ==> (r[i] == Some(true) <==> i < health)
    ensures forall i, j :: 0 <= i < j < |icons| && r[i].Some? && r[j] == Some(true) ==> r[i] == Some(true)
  {
    seq(|icons|, i requires 0 <= i < |icons| => IconAfterUI(icons[i], i, health))
  }

  /** The number of icons that are shown. */
  function ShownCount(icons: seq<Option<bool>>): (n: nat)
    ensures n <= |icons|
  {
    if icons == [] then 0
    else ShownCount(icons[..|icons| - 1]) + (if icons[|icons| - 1] == Some(true) then 1 else 0)
  }

  function Clamp(x: int, lo: int, hi: int): (r: int) {
    if x < lo then lo else if x > hi then hi else x
  }

  /**
   * With no null slot, the display shows as many hearts as the entity has health
   * points, never fewer than none and never more than there are icons.
   */
  lemma {:induction false} ShownCountMatchesHealth(icons: seq<Option<bool>>, health: int)
    requires forall i :: 0 <= i < |icons| ==> icons[i].Some?
    ensures ShownCount(IconsAfterUI(icons, health)) == Clamp(health, 0, |icons|)
  {
    if icons != [] {
      var n := |icons| - 1;
      assert IconsAfterUI(icons, health)[..n] == IconsAfterUI(icons[..n], health);
      ShownCountMatchesHealth(icons[..n], health);
    }
  }

  /** Running `UpdateHealthUI` a second time with the same health changes nothing. */
  lemma IconsAfterUIIdempotent(icons: seq<Option<bool>>, health: int)
    ensures IconsAfterUI(IconsAfterUI(icons, health), health) == IconsAfterUI(icons, health)
  {
  }

  // ---------------------------------------------------------------------------
  // Sequences of damage and heal calls.

  datatype HealthOp = Damage(amount: int) | Heal(amount: int)

  function ApplyOp(health: int, maxHealth: int, op: HealthOp): (r: int) {
    match op
    case Damage(d) => AfterDamage(health, d)
    case Heal(a) => Healed(health, a, maxHealth)
  }

  /** Health after the calls in `ops`, made one after another. */
  function ApplyOps(health: int, maxHealth: int, ops: seq<HealthOp>): (r: int)
    decreases |ops|
  {
    if ops == [] then health else ApplyOps(ApplyOp(health, maxHealth, ops[0]), maxHealth, ops[1..])
  }

  predicate NoNegativeDamage(ops: seq<HealthOp>) {
    forall i :: 0 <= i < |ops| && ops[i].Damage? ==> ops[i].amount >= 0
  }

  /** No sequence of damage (of a non-negative amount) and heal calls lifts health above the maximum. */
  lemma {:induction false} HealthStaysAtMostMax(health: int, maxHealth: int, ops: seq<HealthOp>)
    requires health <= maxHealth
    requires NoNegativeDamage(ops)
    ensures ApplyOps(health, maxHealth, ops) <= maxHealth
    decreases |ops|
  {
    if ops != [] {
      assert NoNegativeDamage(ops[1..]) by {
        forall i | 0 <= i < |ops[1..]| && ops[1..][i].Damage? ensures ops[1..][i].amount >= 0 {
          assert ops[1..][i] == ops[i + 1];
        }
      }
      HealthStaysAtMostMax(ApplyOp(health, maxHealth, ops[0]), maxHealth, ops[1..]);
    }
  }

  /** A dead entity ignores every further damage call, however many. */
  lemma {:induction false} DeadIgnoresDamage(health: int, maxHealth: int, ops: seq<HealthOp>)
    requires Dead(health)
    requires forall i :: 0 <= i < |ops| ==> ops[i].Damage?
    ensures ApplyOps(health, maxHealth, ops) == health
    decreases |ops|
  {
    if ops != [] {
      DeadIgnoresDamage(ApplyOp(health, maxHealth, ops[0]), maxHealth, ops[1..]);
    }
  }

  /**
   * When damage comes one point at a time (as the poison fog deals it) and heals
   * are non-negative, health stays within zero and the maximum.
   */
  lemma {:induction false} UnitDamageStaysInRange(health: int, maxHealth: int, ops: seq<HealthOp>)
    requires 0 <= health <= maxHealth
    requires forall i :: 0 <= i < |ops| ==> ops[i] == Damage(1) || (ops[i].Heal? && ops[i].amount >= 0)
    ensures 0 <= ApplyOps(health, maxHealth, ops) <= maxHealth
    decreases |ops|
  {
    if ops != [] {
      UnitDamageStaysInRange(ApplyOp(health, maxHealth, ops[0]), maxHealth, ops[1..]);
    }
  }

  /** A blow larger than the remaining health leaves it below zero: nothing clamps it. */
  lemma DamageIsNotClamped(health: int, damage: int)
    requires 0 < health < damage
    ensures AfterDamage(health, damage) < 0
    ensures AfterDamage(health, damage) == health - damage
  {
  }

  /**
   * Heal has no dead check: a heal that lifts a dead entity's health above zero
   * makes it count as alive again (and `TakeDamage` applies to it once more),
   * while a heal that leaves it at zero or below leaves it dead.
   */
  lemma HealRevivesTheDead(health: int, amount: int, maxHealth: int)
    requires Dead(health) && 0 < maxHealth
    ensures !Dead(Healed(health, amount, maxHealth)) <==> 0 < health + amount
  {
  }
}
