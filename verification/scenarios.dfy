/**
 * Whole-component runs of `Player.HealthSystem` with the inspector defaults:
 * two hit points, a one-second poison interval, two heart icons, a death panel,
 * a CharacterController and a BeanController.
 */
module Scenarios {
  import opened Wrappers
  import opened Scene
  import opened Vitality
  import opened Player

  /** The component after `Start`, standing at `origin` with both hearts shown. */
  method StartedPlayer(origin: Vector3) returns (h: HealthSystem)
    ensures fresh(h) && h.healthIcons != null && fresh(h.healthIcons)
    ensures h.maxHealth == 2 && h.currentHealth == 2 && h.poisonDamageInterval == 1.0
    ensures h.Icons() == [Some(true), Some(true)]
    ensures h.deathPanel == Some(false) && h.spawnPoint == None && h.position == origin
    ensures h.hasCharacterController && h.characterControllerEnabled && h.beanControllerEnabled
    ensures !h.isInPoisonFog && h.active
  {
    var hearts := new Option<bool>[2](i => Some(false));
    h := new HealthSystem(DefaultMaxHealth, 0, DefaultPoisonDamageInterval, DefaultPoisonColor,
                          DefaultColorChangeSpeed, hearts, Some(true), None, origin, true, true);
    h.Start(Some(Color(1.0, 1.0, 1.0, 1.0)), true);
    assert h.Icons() == [Some(true), Some(true)] by {
      assert h.Icons()[0] == Some(true) && h.Icons()[1] == Some(true);
    }
  }

  /**
   * Two one-second frames in the fog kill the player: one point per frame, both
   * hearts hidden, the death panel shown and both controllers disabled; nothing
   * moves it.
   */
  method PoisonedToDeath(origin: Vector3) returns (h: HealthSystem)
    ensures fresh(h) && h.healthIcons != null && fresh(h.healthIcons)
    ensures h.maxHealth == 2 && h.currentHealth == 0 && h.Icons() == [Some(false), Some(false)]
    ensures h.deathPanel == Some(true) && h.spawnPoint == None && h.position == origin
    ensures h.hasCharacterController && !h.characterControllerEnabled && !h.beanControllerEnabled
    ensures h.isInPoisonFog
  {
    h := StartedPlayer(origin);
    h.EnterPoisonFog();
    h.Update(1.0, true, ColorLerp);
    assert h.currentHealth == 1;
    h.Update(1.0, true, ColorLerp);
    assert h.Icons() == [Some(false), Some(false)] by {
      assert h.Icons()[0] == Some(false) && h.Icons()[1] == Some(false);
    }
  }

  /**
   * Half-second frames: the timer reaches the interval on every second frame, so
   * two seconds in the fog deal exactly the two points the player has.
   */
  method PoisonKillsInTwoSeconds() returns (health: int, panel: Option<bool>,
                                             beanEnabled: bool, controllerEnabled: bool)
    ensures health == 0 && panel == Some(true)
    ensures !beanEnabled && !controllerEnabled
  {
    var h := StartedPlayer(Vector3(0.0, 0.0, 0.0));
    h.EnterPoisonFog();
    h.Update(0.5, true, ColorLerp);
    assert h.currentHealth == 2;
    h.Update(0.5, true, ColorLerp);
    assert h.currentHealth == 1;
    h.Update(0.5, true, ColorLerp);
    h.Update(0.5, true, ColorLerp);
    health, panel := h.currentHealth, h.deathPanel;
    beanEnabled, controllerEnabled := h.beanControllerEnabled, h.characterControllerEnabled;
  }

  /**
   * Respawning after a death in the fog at the object found by the scene lookup:
   * full health and hearts, the panel hidden, the player moved there with its
   * CharacterController back on, the spawn point remembered, and out of the fog.
   */
  method RespawnAfterPoisonDeath(found: Vector3) returns (health: int, hearts: seq<Option<bool>>,
                                                         panel: Option<bool>, at: Vector3,
                                                         remembered: Option<Vector3>, controllerEnabled: bool,
                                                         beanEnabled: bool, inFog: bool)
    ensures health == 2 && hearts == [Some(true), Some(true)] && panel == Some(false)
    ensures at == found && remembered == Some(found)
    ensures controllerEnabled && beanEnabled && !inFog
  {
    var h := PoisonedToDeath(Vector3(0.0, 0.0, 0.0));
    h.Respawn(None, Some(found), true);
    health, panel, at, remembered := h.currentHealth, h.deathPanel, h.position, h.spawnPoint;
    controllerEnabled, beanEnabled, inFog := h.characterControllerEnabled, h.beanControllerEnabled, h.isInPoisonFog;
    hearts := h.healthIcons[..];
    assert hearts[0] == Some(true) && hearts[1] == Some(true);
  }

  /**
   * Respawning with no spawn point anywhere restores health and hides the panel,
   * but leaves the player where it died with its CharacterController still
   * disabled by `Die`.
   */
  method RespawnWithoutSpawnPoint(origin: Vector3) returns (health: int, at: Vector3, controllerEnabled: bool)
    ensures health == 2 && at == origin && !controllerEnabled
  {
    var h := StartedPlayer(origin);
    h.TakeDamage(5, true);
    assert h.currentHealth == -3;
    h.Respawn(None, None, true);
    health, at, controllerEnabled := h.currentHealth, h.position, h.characterControllerEnabled;
  }

  /**
   * Two single points of damage: one heart left and alive, then dead with the
   * panel shown and movement disabled; a respawn at the manager's spawn point
   * brings back both hearts, hides the panel and re-enables movement.
   */
  method DamageDeathAndRespawn(managerPoint: Vector3)
    returns (firstHealth: int, secondHealth: int, deadPanel: Option<bool>, deadController: bool,
             health: int, panel: Option<bool>, controllerEnabled: bool, beanEnabled: bool, at: Vector3)
    ensures firstHealth == 1 && !Dead(firstHealth)
    ensures secondHealth == 0 && Dead(secondHealth) && deadPanel == Some(true) && !deadController
    ensures health == 2 && !Dead(health) && panel == Some(false)
    ensures controllerEnabled && beanEnabled && at == managerPoint
  {
    var h := StartedPlayer(Vector3(0.0, 0.0, 0.0));
    h.TakeDamage(1, true);
    firstHealth := h.currentHealth;
    h.TakeDamage(1, true);
    secondHealth, deadPanel, deadController := h.currentHealth, h.deathPanel, h.characterControllerEnabled;
    h.Respawn(Some(managerPoint), None, true);
    health, panel, at := h.currentHealth, h.deathPanel, h.position;
    controllerEnabled, beanEnabled := h.characterControllerEnabled, h.beanControllerEnabled;
  }

  /**
   * Leaving the fog with the timer almost at the interval stops the damage: later
   * frames, however long, deal none, and the timer keeps its value.
   */
  method LeavingTheFogStopsDamage() returns (health: int, timer: real)
    ensures health == 2 && timer == 0.9
  {
    var h := StartedPlayer(Vector3(0.0, 0.0, 0.0));
    h.EnterPoisonFog();
    h.Update(0.9, true, ColorLerp);
    h.ExitPoisonFog();
    h.Update(5.0, true, ColorLerp);
    h.Update(5.0, true, ColorLerp);
    health, timer := h.currentHealth, h.poisonTimer;
  }
}
