/**
 * The damage rule: a hit is applied at most once per cooldown interval,
 * lowers health by a fixed amount and ends the game when health reaches zero.
 * Time is the wall-clock reading in milliseconds, passed in by the caller.
 */
module DamageRule {

  const INITIAL_HEALTH := 100
  const HIT_DAMAGE := 10
  const DAMAGE_INTERVAL := 1000

  datatype DamageState = DamageState(health: int, lastDamageTime: int, gameOver: bool)

  /** The state at page load: full health, timer at 0, game running. */
  function Start(): DamageState {
    DamageState(INITIAL_HEALTH, 0, false)
  }

  predicate CooldownElapsed(s: DamageState, now: int) {
    now - s.lastDamageTime >= DAMAGE_INTERVAL
  }

  /** A call at `now` actually takes health away. */
  predicate HitLands(s: DamageState, now: int) {
    CooldownElapsed(s, now) && !s.gameOver
  }

  /**
   * One call of the damage rule. Once the cooldown has elapsed the timer is
   * reset first, and only then is a finished game left alone.
   */
  function Damage(s: DamageState, now: int): (r: DamageState)
    ensures r.health == s.health || r.health == s.health - HIT_DAMAGE
    ensures s.gameOver ==> r.gameOver && r.health == s.health
  {
    if !CooldownElapsed(s, now) then s
    else if s.gameOver then s.(lastDamageTime := now)
    else
      var health := s.health - HIT_DAMAGE;
      DamageState(health, now, if health <= 0 then true else s.gameOver)
  }

  /** Inside the cooldown a call changes nothing at all. */
  lemma CooldownBlocks(s: DamageState, now: int)
    requires now - s.lastDamageTime < DAMAGE_INTERVAL
    ensures Damage(s, now) == s
  {
  }

  /** After the cooldown the timer moves to `now`, even when the game is already over. */
  lemma TimerResetsEvenWhenOver(s: DamageState, now: int)
    requires CooldownElapsed(s, now)
    ensures Damage(s, now).lastDamageTime == now
    ensures s.gameOver ==> Damage(s, now) == s.(lastDamageTime := now)
  {
  }

  /** A hit on a running game costs exactly HIT_DAMAGE and touches only health, timer and flag. */
  lemma HitCostsTen(s: DamageState, now: int)
    requires HitLands(s, now)
    ensures Damage(s, now).health == s.health - HIT_DAMAGE
    ensures Damage(s, now).lastDamageTime == now
    ensures Damage(s, now).gameOver <==> s.health - HIT_DAMAGE <= 0
  {
  }

  /** The game ends on a call exactly when that call lands a hit that leaves health at or below zero. */
  lemma GameOverExactly(s: DamageState, now: int)
    requires !s.gameOver
    ensures Damage(s, now).gameOver <==> HitLands(s, now) && s.health - HIT_DAMAGE <= 0
  {
  }

  /** No call clears the flag, and a finished game keeps its health. */
  lemma GameOverMonotone(s: DamageState, now: int)
    requires s.gameOver
    ensures Damage(s, now).gameOver && Damage(s, now).health == s.health
  {
  }

  // Sequences of calls.

  /** The state after the calls at `times`, in order. */
  function Run(s: DamageState, times: seq<int>): (r: DamageState)
    ensures r.health <= s.health
    ensures s.gameOver ==> r.gameOver && r.health == s.health
    decreases |times|
  {
    if times == [] then s else Run(Damage(s, times[0]), times[1..])
  }

  /** The times of the calls in `times` that landed a hit. */
  function Hits(s: DamageState, times: seq<int>): (hits: seq<int>)
    ensures |hits| <= |times|
    ensures forall i :: 0 <= i < |hits| ==> hits[i] in times
    decreases |times|
  {
    if times == [] then []
    else (if HitLands(s, times[0]) then [times[0]] else []) + Hits(Damage(s, times[0]), times[1..])
  }

  /**
   * Every state reachable from Start satisfies this: health a multiple of
   * HIT_DAMAGE in [0, INITIAL_HEALTH], and the game over exactly at health 0.
   */
  ghost predicate Healthy(s: DamageState) {
    0 <= s.health <= INITIAL_HEALTH && s.health % HIT_DAMAGE == 0 && (s.gameOver <==> s.health == 0)
  }

  lemma StartHealthy()
    ensures Healthy(Start())
  {
  }

  lemma DamageKeepsHealthy(s: DamageState, now: int)
    requires Healthy(s)
    ensures Healthy(Damage(s, now))
  {
  }

  lemma {:induction false} RunKeepsHealthy(s: DamageState, times: seq<int>)
    requires Healthy(s)
    ensures Healthy(Run(s, times))
    decreases |times|
  {
    if times != [] {
      DamageKeepsHealthy(s, times[0]);
      RunKeepsHealthy(Damage(s, times[0]), times[1..]);
    }
  }

  /** Once the game is over no call lands a hit and health never changes again. */
  lemma {:induction false} RunAfterGameOver(s: DamageState, times: seq<int>)
    requires s.gameOver
    ensures Run(s, times).gameOver && Run(s, times).health == s.health
    ensures Hits(s, times) == []
    decreases |times|
  {
    if times != [] {
      RunAfterGameOver(Damage(s, times[0]), times[1..]);
    }
  }

  /** Health falls by exactly HIT_DAMAGE per landed hit and by nothing else. */
  lemma {:induction false} RunHealth(s: DamageState, times: seq<int>)
    ensures Run(s, times).health == s.health - HIT_DAMAGE * |Hits(s, times)|
    decreases |times|
  {
    if times != [] {
      RunHealth(Damage(s, times[0]), times[1..]);
    }
  }

  /** From a healthy state at most health / HIT_DAMAGE hits can land. */
  lemma HitsBounded(s: DamageState, times: seq<int>)
    requires Healthy(s)
    ensures |Hits(s, times)| <= s.health / HIT_DAMAGE
  {
    RunHealth(s, times);
    RunKeepsHealthy(s, times);
  }

  /** Each call in `times` comes at least DAMAGE_INTERVAL after the previous one (the first after `start`). */
  ghost predicate Spaced(start: int, times: seq<int>)
    decreases |times|
  {
    times == [] || (times[0] - start >= DAMAGE_INTERVAL && Spaced(times[0], times[1..]))
  }

  /** Landed hits are rate-limited: any two are at least DAMAGE_INTERVAL apart. */
  lemma {:induction false} HitsSpaced(s: DamageState, times: seq<int>)
    ensures Spaced(s.lastDamageTime, Hits(s, times))
    decreases |times|
  {
    if times != [] {
      var t, s' := times[0], Damage(s, times[0]);
      HitsSpaced(s', times[1..]);
      var rest := Hits(s', times[1..]);
      if HitLands(s, t) {
        assert Hits(s, times) == [t] + rest;
        assert ([t] + rest)[1..] == rest;
      } else if CooldownElapsed(s, t) {
        RunAfterGameOver(s', times[1..]);
        assert Hits(s, times) == [];
      } else {
        assert Hits(s, times) == rest;
      }
    }
  }

  /** Calls that all fall within the cooldown window of the last reset change nothing. */
  lemma {:induction false} QuietWindow(s: DamageState, times: seq<int>)
    requires forall i :: 0 <= i < |times| ==> times[i] - s.lastDamageTime < DAMAGE_INTERVAL
    ensures Run(s, times) == s && Hits(s, times) == []
    decreases |times|
  {
    if times != [] {
      assert times[0] - s.lastDamageTime < DAMAGE_INTERVAL;
      assert forall i :: 0 <= i < |times[1..]| ==> times[1..][i] == times[i + 1];
      QuietWindow(s, times[1..]);
    }
  }

  /** After a hit lands at `t`, further calls before `t + DAMAGE_INTERVAL` are no-ops. */
  lemma OnlyFirstInWindow(s: DamageState, t: int, later: seq<int>)
    requires HitLands(s, t)
    requires forall i :: 0 <= i < |later| ==> later[i] - t < DAMAGE_INTERVAL
    ensures Hits(s, [t] + later) == [t]
    ensures Run(s, [t] + later) == Damage(s, t)
  {
    QuietWindow(Damage(s, t), later);
    assert ([t] + later)[1..] == later;
  }

  /**
   * Calls spaced at least DAMAGE_INTERVAL apart all land until the game ends:
   * health falls by HIT_DAMAGE per call down to 0.
   */
  lemma {:induction false} SpacedCallsLand(s: DamageState, times: seq<int>)
    requires Healthy(s) && Spaced(s.lastDamageTime, times)
    ensures Run(s, times).health == if HIT_DAMAGE * |times| >= s.health then 0 else s.health - HIT_DAMAGE * |times|
    ensures Run(s, times).gameOver <==> HIT_DAMAGE * |times| >= s.health
    decreases |times|
  {
    if times != [] {
      if s.gameOver {
        RunAfterGameOver(s, times);
      } else {
        var s' := Damage(s, times[0]);
        DamageKeepsHealthy(s, times[0]);
        SpacedCallsLand(s', times[1..]);
      }
    }
  }

  /** Ten calls a second or more apart, starting from page load, end the game. */
  lemma TenSpacedHitsEndTheGame(times: seq<int>)
    requires |times| == 10 && Spaced(0, times)
    ensures Run(Start(), times).gameOver && Run(Start(), times).health == 0
  {
    SpacedCallsLand(Start(), times);
  }
}
