/**
 * The engine values the health component touches: positions, colours, game objects
 * with an active flag, and the calls it makes on its collaborators.
 */
module Scene {
  import opened Wrappers

  /** A world-space position (UnityEngine.Vector3). */
  datatype Vector3 = Vector3(x: real, y: real, z: real)

  /** An RGBA colour (UnityEngine.Color); its default value is all zeros. */
  datatype Color = Color(r: real, g: real, b: real, a: real)

  /**
   * One call the component makes on a collaborator. The ghost trace of the
   * component records these in the order they are made.
   */
  datatype Event =
    | DeathPanelSet(visible: bool)            // deathPanel.SetActive(visible)
    | CharacterControllerSet(enabled: bool)   // characterController.enabled = enabled
    | PositionWritten(at: Vector3)            // transform.position = at
    | BeanControllerSet(enabled: bool)        // beanController.enabled = enabled
    | BeanControllerReset                     // beanController.ResetController()
    | BeanControlEnabled(enabled: bool)       // beanController.SetControlEnabled(enabled)

  /**
   * A game-object reference that may be unset: `None` is a null reference,
   * `Some(active)` an object whose active flag is `active`.
   * `SetActive` on it changes the flag and does nothing on a null reference.
   */
  function ActiveSet(obj: Option<bool>, active: bool): (r: Option<bool>)
    ensures r.Some? <==> obj.Some?
    ensures r.Some? ==> r.value == active
  {
    match obj
    case None => None
    case Some(_) => Some(active)
  }

  // ---------------------------------------------------------------------------
  // Colour interpolation as the engine defines it: the fraction is clamped to
  // [0, 1] and every channel moves that fraction of the way to the target.

  function Clamp01(t: real): (c: real)
    ensures 0.0 <= c <= 1.0
    ensures 0.0 <= t <= 1.0 ==> c == t
  {
    if t < 0.0 then 0.0 else if t > 1.0 then 1.0 else t
  }

  function Abs(x: real): (r: real) {
    if x < 0.0 then -x else x
  }

  function LerpChannel(from: real, to: real, t: real): (r: real) {
    from + (to - from) * Clamp01(t)
  }

  /** `Color.Lerp(from, to, t)`. */
  function ColorLerp(from: Color, to: Color, t: real): (c: Color) {
    Color(LerpChannel(from.r, to.r, t), LerpChannel(from.g, to.g, t),
          LerpChannel(from.b, to.b, t), LerpChannel(from.a, to.a, t))
  }

  /** One blend step leaves a channel between where it was and its target. */
  lemma LerpChannelApproaches(from: real, to: real, t: real)
    ensures Abs(LerpChannel(from, to, t) - to) <= Abs(from - to)
    ensures t >= 1.0 ==> LerpChannel(from, to, t) == to
  {
    var c := Clamp01(t);
    var d := from - to;
    var s := 1.0 - c;
    assert (to - from) * c == -(d * c);
    assert d - d * c == d * s;
    assert LerpChannel(from, to, t) - to == d * s;
    if d >= 0.0 {
      ShrinkingProduct(d, s);
    } else {
      ShrinkingProduct(-d, s);
      assert d * s == -((-d) * s);
    }
  }

  /** Scaling a non-negative distance by a fraction in [0, 1] does not make it larger. */
  lemma ShrinkingProduct(d: real, s: real)
    requires 0.0 <= d && 0.0 <= s <= 1.0
    ensures 0.0 <= d * s <= d
  {
    assert d - d * s == d * (1.0 - s);
  }

  /**
   * A blend step never moves the colour away from its target: every channel is
   * at least as close as before, and a fraction of one or more lands on it.
   */
  lemma LerpNeverMovesAway(from: Color, to: Color, t: real)
    ensures var c := ColorLerp(from, to, t);
      && Abs(c.r - to.r) <= Abs(from.r - to.r) && Abs(c.g - to.g) <= Abs(from.g - to.g)
      && Abs(c.b - to.b) <= Abs(from.b - to.b) && Abs(c.a - to.a) <= Abs(from.a - to.a)
    ensures t >= 1.0 ==> ColorLerp(from, to, t) == to
  {
    LerpChannelApproaches(from.r, to.r, t);
    LerpChannelApproaches(from.g, to.g, t);
    LerpChannelApproaches(from.b, to.b, t);
    LerpChannelApproaches(from.a, to.a, t);
  }

  /** Once the colour has reached its target, further blend steps leave it there. */
  lemma LerpAtTargetStays(to: Color, t: real)
    ensures ColorLerp(to, to, t) == to
  {
  }
}
