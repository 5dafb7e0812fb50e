/**
 * Choosing the player's planar step for one frame from the held keys.
 * Positions are counted in steps of moveSpeed (0.1 world units), so a
 * step along an axis is -1, 0 or +1.
 */
module Movement {
  import opened Input

  const MOVE_STEP := 1

  /** A planar step: x is left/right, z is forward/back. */
  datatype Dir = Dir(dx: int, dz: int)

  /**
   * One axis when two opposing keys may be held: the positive key has
   * priority over the negative one, because its `if` comes second.
   */
  function Axis(negative: bool, positive: bool): int {
    if positive then MOVE_STEP else if negative then -MOVE_STEP else 0
  }

  /** The step the held keys select: w/s along z, a/d along x. */
  function Direction(keys: map<string, bool>): (d: Dir)
    ensures -MOVE_STEP <= d.dx <= MOVE_STEP && -MOVE_STEP <= d.dz <= MOVE_STEP
    ensures !Held(keys, "w") && !Held(keys, "s") ==> d.dz == 0
    ensures !Held(keys, "a") && !Held(keys, "d") ==> d.dx == 0
  {
    Dir(Axis(Held(keys, "a"), Held(keys, "d")), Axis(Held(keys, "w"), Held(keys, "s")))
  }

  /**
   * The velocity choice as the frame writes it: both components start at 0
   * and each held key overwrites its axis in the order w, s, a, d.
   */
  method SelectVelocity(keys: map<string, bool>) returns (velocityX: int, velocityZ: int)
    ensures Dir(velocityX, velocityZ) == Direction(keys)
  {
    velocityX, velocityZ := 0, 0;
    if Held(keys, "w") { velocityZ := -MOVE_STEP; }
    if Held(keys, "s") { velocityZ := MOVE_STEP; }
    if Held(keys, "a") { velocityX := -MOVE_STEP; }
    if Held(keys, "d") { velocityX := MOVE_STEP; }
  }

  /** Holding w and s together moves back (+z); holding a and d together moves right (+x). */
  lemma LaterKeyWins(keys: map<string, bool>)
    ensures Held(keys, "w") && Held(keys, "s") ==> Direction(keys).dz == MOVE_STEP
    ensures Held(keys, "a") && Held(keys, "d") ==> Direction(keys).dx == MOVE_STEP
  {
  }

  /** Each axis moves only when one of its keys is held, by one step, in the held key's direction. */
  lemma DirectionCases(keys: map<string, bool>)
    ensures Direction(keys).dz == MOVE_STEP <==> Held(keys, "s")
    ensures Direction(keys).dz == -MOVE_STEP <==> Held(keys, "w") && !Held(keys, "s")
    ensures Direction(keys).dz == 0 <==> !Held(keys, "w") && !Held(keys, "s")
    ensures Direction(keys).dx == MOVE_STEP <==> Held(keys, "d")
    ensures Direction(keys).dx == -MOVE_STEP <==> Held(keys, "a") && !Held(keys, "d")
    ensures Direction(keys).dx == 0 <==> !Held(keys, "a") && !Held(keys, "d")
  {
  }

  /** Only w, a, s and d matter: in particular the "space" entry never moves the player. */
  lemma DirectionIgnoresOtherKeys(keys: map<string, bool>, other: map<string, bool>)
    requires forall k :: k in {"w", "a", "s", "d"} ==> (Held(keys, k) <==> Held(other, k))
    ensures Direction(keys) == Direction(other)
  {
    assert Held(keys, "w") <==> Held(other, "w");
    assert Held(keys, "s") <==> Held(other, "s");
    assert Held(keys, "a") <==> Held(other, "a");
    assert Held(keys, "d") <==> Held(other, "d");
  }
}
