/**
 * The health component of the player object: hit points, the heart icons, the
 * poison-fog timer, death, and respawn at a spawn point.
 *
 * Engine lookups are inputs: `Start` receives what `GetComponent` finds for the
 * renderer (with its material colour) and for the CharacterController, and the
 * methods that look up the BeanController receive whether one was found. The
 * colour interpolation of the engine is the function `lerp` given to `Update`.
 */
module Player {
  import opened Wrappers
  import opened Scene
  import opened Vitality
  import opened Poison
  import opened Respawn

  // The inspector defaults of the component.
  const DefaultMaxHealth: int := 2
  const DefaultPoisonDamageInterval: real := 1.0
  const DefaultPoisonColor: Color := Color(0.5, 0.0, 0.5, 1.0)
  const DefaultColorChangeSpeed: real := 2.0

  class HealthSystem {
    // Inspector settings.
    const maxHealth: int
    const poisonDamageInterval: real
    const poisonColor: Color
    const colorChangeSpeed: real
    /** The heart icons; `null` when none are assigned, and `None` in a slot left empty. */
    const healthIcons: array?<Option<bool>>
    /** The death panel: `None` when none is assigned, else `Some` of its active flag. */
    var deathPanel: Option<bool>
    /** The component's own spawn point, if one is assigned or has been found. */
    var spawnPoint: Option<Vector3>

    var currentHealth: int
    /** The renderer found by `Start` (if any), holding its material colour. */
    var characterRenderer: Option<Color>
    var originalColor: Color
    var isInPoisonFog: bool
    var poisonTimer: real
    /** Whether `Start` found a CharacterController. */
    var hasCharacterController: bool

    // The objects around the component that it acts on.
    var characterControllerEnabled: bool
    var beanControllerEnabled: bool
    var position: Vector3
    var active: bool

    /** The collaborator calls made so far, in order. */
    ghost var trace: seq<Event>

    /** The icon slots, empty when no icon array is assigned. */
    ghost function Icons(): (icons: seq<Option<bool>>)
      reads healthIcons
    {
      if healthIcons == null then [] else healthIcons[..]
    }

    /** The component as the scene loads it, before `Start`. */
    constructor (maxHealth: int, currentHealth: int, poisonDamageInterval: real, poisonColor: Color,
                 colorChangeSpeed: real, healthIcons: array?<Option<bool>>, deathPanel: Option<bool>,
                 spawnPoint: Option<Vector3>, position: Vector3, characterControllerEnabled: bool,
                 beanControllerEnabled: bool)
      ensures this.maxHealth == maxHealth && this.currentHealth == currentHealth
      ensures this.poisonDamageInterval == poisonDamageInterval && this.poisonColor == poisonColor
      ensures this.colorChangeSpeed == colorChangeSpeed && this.healthIcons == healthIcons
      ensures this.deathPanel == deathPanel && this.spawnPoint == spawnPoint && this.position == position
      ensures this.characterControllerEnabled == characterControllerEnabled
      ensures this.beanControllerEnabled == beanControllerEnabled
      ensures characterRenderer == None && originalColor == Color(0.0, 0.0, 0.0, 0.0)
      ensures !isInPoisonFog && poisonTimer == 0.0 && !hasCharacterController && active && trace == []
    {
      this.maxHealth := maxHealth;
      this.currentHealth := currentHealth;
      this.poisonDamageInterval := poisonDamageInterval;
      this.poisonColor := poisonColor;
      this.colorChangeSpeed := colorChangeSpeed;
      this.healthIcons := healthIcons;
      this.deathPanel := deathPanel;
      this.spawnPoint := spawnPoint;
      this.position := position;
      this.characterControllerEnabled := characterControllerEnabled;
      this.beanControllerEnabled := beanControllerEnabled;
      characterRenderer := None;
      originalColor := Color(0.0, 0.0, 0.0, 0.0);
      isInPoisonFog := false;
      poisonTimer := 0.0;
      hasCharacterController := false;
      active := true;
      trace := [];
    }

    /** Full health, the renderer's colour remembered, the death panel hidden, the icons refreshed. */
    method Start(renderer: Option<Color>, characterControllerFound: bool)
      modifies this`currentHealth, this`characterRenderer, this`originalColor,
               this`hasCharacterController, this`deathPanel, this`trace, healthIcons
      ensures currentHealth == maxHealth
      ensures characterRenderer == renderer && originalColor == renderer.GetOr(old(originalColor))
      ensures hasCharacterController == characterControllerFound
      ensures deathPanel == ActiveSet(old(deathPanel), false)
      ensures trace == old(trace) + PanelEvents(old(deathPanel).Some?, false)
      ensures Icons() == IconsAfterUI(old(Icons()), maxHealth)
    {
      currentHealth := maxHealth;
      characterRenderer := renderer;
      if renderer.Some? {
        originalColor := renderer.value;
      }
      hasCharacterController := characterControllerFound;
      SetDeathPanelActive(false);
      UpdateHealthUI();
    }

    /** `deathPanel.SetActive(visible)` when a death panel is assigned. */
    method SetDeathPanelActive(visible: bool)
      modifies this`deathPanel, this`trace
      ensures deathPanel == ActiveSet(old(deathPanel), visible)
      ensures trace == old(trace) + PanelEvents(old(deathPanel).Some?, visible)
    {
      if deathPanel.Some? {
        deathPanel := Some(visible);
        trace := trace + [DeathPanelSet(visible)];
      }
    }

    /**
     * What `TakeDamage(damage)` does: nothing at all to a dead entity; otherwise the
     * damage is subtracted, the icons refreshed, and the entity dies if that brought
     * its health to zero or below.
     */
    twostate predicate TookDamage(damage: int, beanFound: bool)
      reads this, healthIcons
    {
      var dies := !Dead(old(currentHealth)) && Dead(currentHealth);
      && currentHealth == AfterDamage(old(currentHealth), damage)
      && Icons() == (if Dead(old(currentHealth)) then old(Icons()) else IconsAfterUI(old(Icons()), currentHealth))
      && deathPanel == (if dies then ActiveSet(old(deathPanel), true) else old(deathPanel))
      && beanControllerEnabled == (old(beanControllerEnabled) && !(dies && beanFound))
      && characterControllerEnabled == (old(characterControllerEnabled) && !(dies && hasCharacterController))
      && trace == old(trace) + (if dies then DeathEvents(old(deathPanel).Some?, beanFound, hasCharacterController) else [])
    }

    /** Health, icons, death panel, controllers and trace are as they were. */
    twostate predicate VitalsUnchanged()
      reads this, healthIcons
    {
      && currentHealth == old(currentHealth)
      && Icons() == old(Icons())
      && deathPanel == old(deathPanel)
      && beanControllerEnabled == old(beanControllerEnabled)
      && characterControllerEnabled == old(characterControllerEnabled)
      && trace == old(trace)
    }

    /**
     * One frame of `dt` seconds. In the fog the timer advances and, once it reaches
     * the damage interval, one point of damage is dealt and the timer cleared; the
     * renderer's colour moves towards the poison colour. Out of the fog, health and
     * timer stay as they are and the colour moves back towards the original one.
     */
    method Update(dt: real, beanFound: bool, lerp: (Color, Color, real) -> Color)
      modifies this`poisonTimer, this`characterRenderer, this`currentHealth, this`deathPanel,
               this`beanControllerEnabled, this`characterControllerEnabled, this`trace, healthIcons
      ensures var tick := FogTick(old(poisonTimer), dt, poisonDamageInterval);
        if old(isInPoisonFog) then
          poisonTimer == tick.timer && (if tick.damage then TookDamage(1, beanFound) else VitalsUnchanged())
        else
          poisonTimer == old(poisonTimer) && VitalsUnchanged()
      ensures characterRenderer ==
        match old(characterRenderer)
        case None => None
        case Some(c) =>
          if old(isInPoisonFog) then Some(lerp(c, poisonColor, dt * colorChangeSpeed))
          else if c != originalColor then Some(lerp(c, originalColor, dt * colorChangeSpeed))
          else Some(c)
    {
      if isInPoisonFog {
        poisonTimer := poisonTimer + dt;
        if poisonTimer >= poisonDamageInterval {
          TakeDamage(1, beanFound);
          poisonTimer := 0.0;
        }
        if characterRenderer.Some? {
          characterRenderer := Some(lerp(characterRenderer.value, poisonColor, dt * colorChangeSpeed));
        }
      } else if characterRenderer.Some? && characterRenderer.value != originalColor {
        characterRenderer := Some(lerp(characterRenderer.value, originalColor, dt * colorChangeSpeed));
      }
    }

    /** Entering the fog starts the damage timer from zero. */
    method EnterPoisonFog()
      modifies this`isInPoisonFog, this`poisonTimer
      ensures isInPoisonFog && poisonTimer == 0.0
    {
      isInPoisonFog := true;
      poisonTimer := 0.0;
    }

    /** Leaving the fog only clears the flag; the timer keeps its value. */
    method ExitPoisonFog()
      modifies this`isInPoisonFog
      ensures !isInPoisonFog
    {
      isInPoisonFog := false;
    }

    method TakeDamage(damage: int, beanFound: bool)
      modifies this`currentHealth, this`deathPanel, this`beanControllerEnabled,
               this`characterControllerEnabled, this`trace, healthIcons
      ensures TookDamage(damage, beanFound)
    {
      if currentHealth <= 0 {
        return;
      }
      currentHealth := currentHealth - damage;
      UpdateHealthUI();
      if currentHealth <= 0 {
        Die(beanFound);
      }
    }

    /** Healing raises health up to the maximum; it touches nothing else, dead or alive. */
    method Heal(amount: int)
      modifies this`currentHealth, healthIcons
      ensures currentHealth == Healed(old(currentHealth), amount, maxHealth)
      ensures Icons() == IconsAfterUI(old(Icons()), currentHealth)
    {
      currentHealth := if currentHealth + amount < maxHealth then currentHealth + amount else maxHealth;
      UpdateHealthUI();
    }

    /** Shows icon `i` exactly when `i < currentHealth`, leaving empty slots alone. */
    method UpdateHealthUI()
      modifies healthIcons
      ensures Icons() == IconsAfterUI(old(Icons()), currentHealth)
    {
      if healthIcons == null || healthIcons.Length == 0 {
        return;
      }
      for i := 0 to healthIcons.Length
        invariant forall k :: 0 <= k < i ==> healthIcons[k] == IconAfterUI(old(healthIcons[k]), k, currentHealth)
        invariant forall k :: i <= k < healthIcons.Length ==> healthIcons[k] == old(healthIcons[k])
      {
        if healthIcons[i].Some? {
          healthIcons[i] := Some(i < currentHealth);
        }
      }
      assert Icons() == IconsAfterUI(old(Icons()), currentHealth);
    }

    /** Show the death panel and switch off the BeanController and the CharacterController. */
    method Die(beanFound: bool)
      modifies this`deathPanel, this`beanControllerEnabled, this`characterControllerEnabled, this`trace
      ensures deathPanel == ActiveSet(old(deathPanel), true)
      ensures beanControllerEnabled == (old(beanControllerEnabled) && !beanFound)
      ensures characterControllerEnabled == (old(characterControllerEnabled) && !hasCharacterController)
      ensures trace == old(trace) + DeathEvents(old(deathPanel).Some?, beanFound, hasCharacterController)
    {
      SetDeathPanelActive(true);
      if beanFound {
        beanControllerEnabled := false;
        trace := trace + [BeanControllerSet(false)];
      }
      if hasCharacterController {
        characterControllerEnabled := false;
        trace := trace + [CharacterControllerSet(false)];
      }
    }

    /**
     * Full health, the death panel hidden, the entity moved to the first spawn point
     * found (with the CharacterController off during the move), the BeanController
     * enabled and reset, the object active, the original colour back, and out of the fog.
     * `managerPoint` is the spawn point registered with the spawn-point manager and
     * `scenePoint` the object the scene lookup by name would find.
     */
    method Respawn(managerPoint: Option<Vector3>, scenePoint: Option<Vector3>, beanFound: bool)
      modifies this`currentHealth, this`deathPanel, this`spawnPoint, this`position,
               this`characterControllerEnabled, this`beanControllerEnabled, this`active,
               this`characterRenderer, this`isInPoisonFog, this`trace, healthIcons
      ensures currentHealth == maxHealth
      ensures Icons() == IconsAfterUI(old(Icons()), maxHealth)
      ensures deathPanel == ActiveSet(old(deathPanel), false)
      ensures var choice := ResolveSpawn(managerPoint, old(spawnPoint), scenePoint);
        && spawnPoint == choice.cache
        && position == choice.target.GetOr(old(position))
        && characterControllerEnabled ==
             (if choice.target.Some? && hasCharacterController then true else old(characterControllerEnabled))
        && trace == old(trace) + RespawnEvents(old(deathPanel).Some?, choice.target, hasCharacterController, beanFound)
      ensures beanControllerEnabled == (beanFound || old(beanControllerEnabled))
      ensures active
      ensures characterRenderer == (if old(characterRenderer).Some? then Some(originalColor) else None)
      ensures !isInPoisonFog
    {
      RestoreVitals();
      ReturnToSpawn(managerPoint, scenePoint, beanFound);
      ghost var choice := ResolveSpawn(managerPoint, old(spawnPoint), scenePoint);
      AppendAssoc(old(trace), PanelEvents(old(deathPanel).Some?, false),
                  MoveEvents(choice.target, hasCharacterController) + BeanResetEvents(beanFound));
      RestoreAppearance();
    }

    /** The object active again, the original colour back, and out of the fog. */
    method RestoreAppearance()
      modifies this`active, this`characterRenderer, this`isInPoisonFog
      ensures active
      ensures characterRenderer == (if old(characterRenderer).Some? then Some(originalColor) else None)
      ensures !isInPoisonFog
    {
      active := true;
      if characterRenderer.Some? {
        characterRenderer := Some(originalColor);
      }
      isInPoisonFog := false;
    }

    /** Full health, hearts redrawn, death panel hidden. */
    method RestoreVitals()
      modifies this`currentHealth, this`deathPanel, this`trace, healthIcons
      ensures currentHealth == maxHealth
      ensures Icons() == IconsAfterUI(old(Icons()), maxHealth)
      ensures deathPanel == ActiveSet(old(deathPanel), false)
      ensures trace == old(trace) + PanelEvents(old(deathPanel).Some?, false)
    {
      currentHealth := maxHealth;
      UpdateHealthUI();
      SetDeathPanelActive(false);
    }

    /** Moves the player to the resolved spawn point and resets the BeanController. */
    method ReturnToSpawn(managerPoint: Option<Vector3>, scenePoint: Option<Vector3>, beanFound: bool)
      modifies this`spawnPoint, this`position, this`characterControllerEnabled,
               this`beanControllerEnabled, this`trace
      ensures var choice := ResolveSpawn(managerPoint, old(spawnPoint), scenePoint);
        && spawnPoint == choice.cache
        && position == choice.target.GetOr(old(position))
        && characterControllerEnabled ==
             (if choice.target.Some? && hasCharacterController then true else old(characterControllerEnabled))
        && trace == old(trace) + (MoveEvents(choice.target, hasCharacterController) + BeanResetEvents(beanFound))
      ensures beanControllerEnabled == (beanFound || old(beanControllerEnabled))
    {
      var respawnPosition := ResolveRespawnPosition(managerPoint, scenePoint);
      if respawnPosition.Some? {
        MoveTo(respawnPosition.value);
      }
      ResetBeanController(beanFound);
      AppendAssoc(old(trace), MoveEvents(respawnPosition, hasCharacterController), BeanResetEvents(beanFound));
    }

    /**
     * The fallback chain for the respawn position; a hit of the scene lookup is
     * kept as the component's own spawn point.
     */
    method ResolveRespawnPosition(managerPoint: Option<Vector3>, scenePoint: Option<Vector3>)
      returns (respawnPosition: Option<Vector3>)
      modifies this`spawnPoint
      ensures var choice := ResolveSpawn(managerPoint, old(spawnPoint), scenePoint);
        respawnPosition == choice.target && spawnPoint == choice.cache
    {
      respawnPosition := None;
      if managerPoint.Some? {
        respawnPosition := managerPoint;
      } else if spawnPoint.Some? {
        respawnPosition := spawnPoint;
      } else if scenePoint.Some? {
        respawnPosition := scenePoint;
        spawnPoint := respawnPosition;
      }
    }

    /** Writes the position, with the CharacterController (if any) disabled around the write. */
    method MoveTo(p: Vector3)
      modifies this`position, this`characterControllerEnabled, this`trace
      ensures position == p
      ensures characterControllerEnabled == (hasCharacterController || old(characterControllerEnabled))
      ensures trace == old(trace) + MoveEvents(Some(p), hasCharacterController)
    {
      if hasCharacterController {
        characterControllerEnabled := false;
        trace := trace + [CharacterControllerSet(false)];
        position := p;
        trace := trace + [PositionWritten(p)];
        characterControllerEnabled := true;
        trace := trace + [CharacterControllerSet(true)];
      } else {
        position := p;
        trace := trace + [PositionWritten(p)];
      }
    }

    /** Enables the BeanController (if found), resets it and hands control back to it. */
    method ResetBeanController(beanFound: bool)
      modifies this`beanControllerEnabled, this`trace
      ensures beanControllerEnabled == (beanFound || old(beanControllerEnabled))
      ensures trace == old(trace) + BeanResetEvents(beanFound)
    {
      if beanFound {
        beanControllerEnabled := true;
        trace := trace + [BeanControllerSet(true)];
        trace := trace + [BeanControllerReset];
        trace := trace + [BeanControlEnabled(true)];
      }
    }
  }

  lemma AppendAssoc<T>(t: seq<T>, a: seq<T>, b: seq<T>)
    ensures (t + a) + b == t + (a + b)
  {
  }
}
