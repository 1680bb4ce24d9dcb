/**
 * Death and respawn as seen by the collaborators: where the entity respawns and
 * in which order the panel, the controllers and the position are touched.
 */
module Respawn {
  import opened Wrappers
  import opened Scene

  /** The position a respawn moves to (if any) and the local spawn point it leaves cached. */
  datatype SpawnChoice = SpawnChoice(target: Option<Vector3>, cache: Option<Vector3>)

  /**
   * The fallback chain for the respawn position: the spawn point registered with
   * the spawn-point manager, else the component's own spawn point, else the
   * object named "SpawnPoint" in the scene, whose position is then kept as the
   * component's own spawn point.
   */
  function ResolveSpawn(managerPoint: Option<Vector3>, localPoint: Option<Vector3>, scenePoint: Option<Vector3>): (c: SpawnChoice)
    ensures managerPoint.Some? ==> c.target == managerPoint
    ensures managerPoint.None? && localPoint.Some? ==> c.target == localPoint
    ensures managerPoint.None? && localPoint.None? ==> c.target == scenePoint
    ensures c.cache == if managerPoint.None? && localPoint.None? then scenePoint else localPoint
    ensures c.target.None? <==> managerPoint.None? && localPoint.None? && scenePoint.None?
  {
    if managerPoint.Some? then SpawnChoice(managerPoint, localPoint)
    else if localPoint.Some? then SpawnChoice(localPoint, localPoint)
    else SpawnChoice(scenePoint, scenePoint)
  }

  /**
   * Once the scene lookup has found a spawn point, later respawns without a
   * manager spawn point go there again, whatever the lookup returns then.
   */
  lemma LookupResultIsReused(p: Vector3, laterLookup: Option<Vector3>)
    ensures var first := ResolveSpawn(None, None, Some(p));
      first.target == Some(p) && ResolveSpawn(None, first.cache, laterLookup).target == Some(p)
  {
  }

  // ---------------------------------------------------------------------------
  // Collaborator calls.

  /** `deathPanel.SetActive(visible)`, made only when a death panel is assigned. */
  function PanelEvents(panelSet: bool, visible: bool): (es: seq<Event>) {
    if panelSet then [DeathPanelSet(visible)] else []
  }

  /** The position write of a respawn, with the CharacterController (if any) off around it. */
  function MoveEvents(target: Option<Vector3>, hasCharacterController: bool): (es: seq<Event>) {
    if target.None? then []
    else if hasCharacterController
    then [CharacterControllerSet(false), PositionWritten(target.value), CharacterControllerSet(true)]
    else [PositionWritten(target.value)]
  }

  /** Enabling the BeanController, resetting it and handing control back, when there is one. */
  function BeanResetEvents(beanFound: bool): (es: seq<Event>) {
    if beanFound then [BeanControllerSet(true), BeanControllerReset, BeanControlEnabled(true)] else []
  }

  /** The calls `Die` makes: show the panel, then disable the BeanController and the CharacterController. */
  function DeathEvents(panelSet: bool, beanFound: bool, hasCharacterController: bool): (es: seq<Event>)
    ensures DeathPanelSet(true) in es <==> panelSet
    ensures BeanControllerSet(false) in es <==> beanFound
    ensures CharacterControllerSet(false) in es <==> hasCharacterController
    ensures |es| <= 3
  {
    PanelEvents(panelSet, true)
    + ((if beanFound then [BeanControllerSet(false)] else [])
       + (if hasCharacterController then [CharacterControllerSet(false)] else []))
  }

  /** Death only shows the panel and switches controllers off; it never enables anything or moves the entity. */
  lemma DeathOnlyDisables(panelSet: bool, beanFound: bool, hasCharacterController: bool)
    ensures forall e :: e in DeathEvents(panelSet, beanFound, hasCharacterController) ==>
      e == DeathPanelSet(true) || e == BeanControllerSet(false) || e == CharacterControllerSet(false)
  {
  }

  /** The calls `Respawn` makes, in order. */
  function RespawnEvents(panelSet: bool, target: Option<Vector3>, hasCharacterController: bool, beanFound: bool): (es: seq<Event>) {
    PanelEvents(panelSet, false) + (MoveEvents(target, hasCharacterController) + BeanResetEvents(beanFound))
  }

  /** The number of position writes in `es`. */
  function PositionWrites(es: seq<Event>): (n: nat)
    ensures n <= |es|
    ensures n == 0 <==> forall e :: e in es ==> !e.PositionWritten?
    decreases |es|
  {
    if es == [] then 0
    else (if es[0].PositionWritten? then 1 else 0) + PositionWrites(es[1..])
  }

  lemma {:induction false} PositionWritesAppend(a: seq<Event>, b: seq<Event>)
    ensures PositionWrites(a + b) == PositionWrites(a) + PositionWrites(b)
    decreases |a|
  {
    if a == [] {
      assert a + b == b;
    } else {
      assert (a + b)[1..] == a[1..] + b;
      PositionWritesAppend(a[1..], b);
    }
  }

  /**
   * The death panel is hidden first, before the position is resolved, whether
   * or not a position is found, and it is not touched again.
   */
  lemma RespawnHidesPanelFirst(panelSet: bool, target: Option<Vector3>, hasCharacterController: bool, beanFound: bool)
    ensures var es := RespawnEvents(panelSet, target, hasCharacterController, beanFound);
      && (panelSet ==> es[0] == DeathPanelSet(false) && forall e :: e in es[1..] ==> !e.DeathPanelSet?)
      && (!panelSet ==> forall e :: e in es ==> !e.DeathPanelSet?)
  {
    var rest := MoveEvents(target, hasCharacterController) + BeanResetEvents(beanFound);
    if panelSet {
      assert ([DeathPanelSet(false)] + rest)[1..] == rest;
    }
  }

  /** The move step writes the position once when there is a target and not at all otherwise. */
  lemma MoveEventsWriteOnce(target: Option<Vector3>, hasCharacterController: bool)
    ensures PositionWrites(MoveEvents(target, hasCharacterController)) == if target.Some? then 1 else 0
  {
    if target.Some? && hasCharacterController {
      var p := target.value;
      assert MoveEvents(target, hasCharacterController)[1..] == [PositionWritten(p), CharacterControllerSet(true)];
      assert [PositionWritten(p), CharacterControllerSet(true)][1..] == [CharacterControllerSet(true)];
    }
  }

  /** The position is written exactly when a spawn point resolved, once, and to that point. */
  lemma RespawnWritesResolvedPosition(panelSet: bool, target: Option<Vector3>, hasCharacterController: bool, beanFound: bool)
    ensures var es := RespawnEvents(panelSet, target, hasCharacterController, beanFound);
      && (forall e :: e in es && e.PositionWritten? ==> target == Some(e.at))
      && PositionWrites(es) == (if target.Some? then 1 else 0)
  {
    var move := MoveEvents(target, hasCharacterController);
    var post := BeanResetEvents(beanFound);
    PositionWritesAppend(PanelEvents(panelSet, false), move + post);
    PositionWritesAppend(move, post);
    MoveEventsWriteOnce(target, hasCharacterController);
  }

  /**
   * Where a spawn point resolved and a CharacterController exists, the controller
   * is disabled just before the position write and enabled just after; otherwise
   * the CharacterController is not touched at all (so it stays as `Die` left it).
   */
  lemma RespawnMovesWithControllerOff(panelSet: bool, target: Option<Vector3>, hasCharacterController: bool, beanFound: bool)
    ensures var es := RespawnEvents(panelSet, target, hasCharacterController, beanFound);
      && (target.Some? && hasCharacterController ==>
            exists k :: 0 < k < |es| - 1 && es[k - 1] == CharacterControllerSet(false)
              && es[k] == PositionWritten(target.value) && es[k + 1] == CharacterControllerSet(true))
      && ((exists e :: e in es && e.CharacterControllerSet?) <==> target.Some? && hasCharacterController)
  {
    var pre := PanelEvents(panelSet, false);
    var move := MoveEvents(target, hasCharacterController);
    var es := RespawnEvents(panelSet, target, hasCharacterController, beanFound);
    if target.Some? && hasCharacterController {
      var k := |pre| + 1;
      assert es[k - 1] == move[0] && es[k] == move[1] && es[k + 1] == move[2];
      assert es[k - 1] in es;
    }
  }

  /** The BeanController calls come last, in the order enable, reset, hand back control. */
  lemma RespawnResetsBeanLast(panelSet: bool, target: Option<Vector3>, hasCharacterController: bool, beanFound: bool)
    ensures var es := RespawnEvents(panelSet, target, hasCharacterController, beanFound);
      && (beanFound ==> |es| >= 3 && es[|es| - 3 ..] == [BeanControllerSet(true), BeanControllerReset, BeanControlEnabled(true)])
      && (!beanFound ==> forall e :: e in es ==> !e.BeanControllerSet? && !e.BeanControllerReset? && !e.BeanControlEnabled?)
  {
    var es := RespawnEvents(panelSet, target, hasCharacterController, beanFound);
    var front := PanelEvents(panelSet, false) + MoveEvents(target, hasCharacterController);
    assert es == front + BeanResetEvents(beanFound);
  }
}
