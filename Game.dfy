/**
 * One game session: the keyboard dictionary, the damage state, the health
 * bar, whether the player model has loaded, and the player's planar
 * position. `World` is the session as a value and the step functions say
 * what each callback does to it; `GameSession` is the same state as the
 * mutable globals the callbacks update, with methods proved against the
 * step functions.
 */
module Game {
  import opened Options
  import opened Input
  import opened HealthBar
  import opened DamageRule
  import opened Movement

  datatype World = World(
    damage: DamageState,
    bar: Option<Style>,         // None until the script first writes the bar
    playerPresent: bool,        // the player model has finished loading
    px: int, pz: int,           // player position, in steps of moveSpeed
    keys: map<string, bool>)

  /** The callbacks the host delivers, in the order it delivers them. */
  datatype Event =
    | KeyDown(key: string)
    | KeyUp(key: string)
    | PlayerLoaded
    | AnimationFrame(contact: bool, now: int)  // contact: enemy within 1.5 units after its move

  /** The session when the first frame runs: no player yet, the enemy placed, nothing pressed. */
  function InitialWorld(): (w: World)
    ensures Consistent(w)
    ensures w.damage.health == INITIAL_HEALTH && !w.damage.gameOver && !w.playerPresent
    ensures forall k :: k in w.keys ==> !Held(w.keys, k)
  {
    World(Start(), None, false, 0, 0, InitialKeys())
  }

  /** dealDamage, with updateHealthBar drawn for the new health whenever a hit lands. */
  function DealDamageStep(w: World, now: int): (r: World)
    ensures r.keys == w.keys && r.playerPresent == w.playerPresent && r.px == w.px && r.pz == w.pz
    ensures r.bar != w.bar ==> r.bar == Some(BarStyle(r.damage.health))
  {
    var d := Damage(w.damage, now);
    w.(damage := d, bar := if HitLands(w.damage, now) then Some(BarStyle(d.health)) else w.bar)
  }

  /** updateEnemy: idle without a player or after the game ends, otherwise a contact deals damage. */
  function EnemyStep(w: World, contact: bool, now: int): (r: World)
    ensures !w.playerPresent || w.damage.gameOver || !contact ==> r == w
    ensures r.keys == w.keys && r.playerPresent == w.playerPresent && r.px == w.px && r.pz == w.pz
  {
    if !w.playerPresent || w.damage.gameOver then w
    else if contact then DealDamageStep(w, now)
    else w
  }

  /** The planar part of a frame: the loaded player takes the step the held keys select. */
  function Walk(w: World): (r: World)
    ensures r.damage == w.damage && r.bar == w.bar && r.keys == w.keys && r.playerPresent == w.playerPresent
    ensures !w.playerPresent ==> r == w
    ensures -MOVE_STEP <= r.px - w.px <= MOVE_STEP && -MOVE_STEP <= r.pz - w.pz <= MOVE_STEP
  {
    if w.playerPresent then
      var dir := Direction(w.keys);
      w.(px := w.px + dir.dx, pz := w.pz + dir.dz)
    else w
  }

  /** animate: nothing at all once the game is over; otherwise walk, then update the enemy. */
  function FrameStep(w: World, contact: bool, now: int): (r: World)
    ensures w.damage.gameOver ==> r == w
    ensures r.keys == w.keys && r.playerPresent == w.playerPresent
  {
    if w.damage.gameOver then w else EnemyStep(Walk(w), contact, now)
  }

  function Step(w: World, e: Event): (r: World)
    ensures r.keys.Keys == w.keys.Keys
    ensures !e.AnimationFrame? ==> r.damage == w.damage && r.bar == w.bar
  {
    match e
    case KeyDown(key) => w.(keys := Pressed(w.keys, key))
    case KeyUp(key) => w.(keys := Released(w.keys, key))
    case PlayerLoaded => w.(playerPresent := true, px := 0, pz := 0)
    case AnimationFrame(contact, now) => FrameStep(w, contact, now)
  }

  function Replay(w: World, events: seq<Event>): (r: World)
    ensures r.keys.Keys == w.keys.Keys
    ensures w.damage.gameOver ==> r.damage.gameOver
    decreases |events|
  {
    if events == [] then w else Replay(Step(w, events[0]), events[1..])
  }

  /**
   * What holds of every session the callbacks can produce: the damage state
   * is healthy, the keyboard has exactly its five entries, and the bar,
   * once drawn, shows the current health.
   */
  ghost predicate Consistent(w: World) {
    && Healthy(w.damage)
    && w.keys.Keys == CONTROLS
    && (match w.bar
        case None => w.damage.health == INITIAL_HEALTH
        case Some(st) => st == BarStyle(w.damage.health))
  }

  lemma InitialConsistent()
    ensures Consistent(InitialWorld())
  {
  }

  lemma DealDamageKeepsConsistent(w: World, now: int)
    requires Consistent(w)
    ensures Consistent(DealDamageStep(w, now))
  {
    DamageKeepsHealthy(w.damage, now);
  }

  lemma StepKeepsConsistent(w: World, e: Event)
    requires Consistent(w)
    ensures Consistent(Step(w, e))
  {
    match e
    case KeyDown(key) => UpdateTouchesOnlyItsEntry(w.keys, key, true);
    case KeyUp(key) => UpdateTouchesOnlyItsEntry(w.keys, key, false);
    case PlayerLoaded =>
    case AnimationFrame(contact, now) => DamageKeepsHealthy(w.damage, now);
  }

  lemma {:induction false} ReplayKeepsConsistent(w: World, events: seq<Event>)
    requires Consistent(w)
    ensures Consistent(Replay(w, events))
    decreases |events|
  {
    if events != [] {
      StepKeepsConsistent(w, events[0]);
      ReplayKeepsConsistent(Step(w, events[0]), events[1..]);
    }
  }

  /** Every session the callbacks produce from page load has health a multiple of 10 in [0, 100]. */
  lemma ReachableHealth(events: seq<Event>)
    ensures var h := Replay(InitialWorld(), events).damage.health;
      0 <= h <= INITIAL_HEALTH && h % HIT_DAMAGE == 0
    ensures Replay(InitialWorld(), events).damage.gameOver <==> Replay(InitialWorld(), events).damage.health == 0
  {
    ReplayKeepsConsistent(InitialWorld(), events);
  }

  /** A frame after the game is over changes nothing; in particular the enemy does not act. */
  lemma FrameAfterGameOver(w: World, contact: bool, now: int)
    requires w.damage.gameOver
    ensures FrameStep(w, contact, now) == w
  {
  }

  /** Without a player a frame neither moves anyone nor deals damage. */
  lemma FrameWithoutPlayer(w: World, contact: bool, now: int)
    requires !w.playerPresent
    ensures FrameStep(w, contact, now) == w
  {
  }

  /** Apart from the movement, a frame acts only through a contact hit. */
  lemma FrameWithoutContact(w: World, now: int)
    requires !w.damage.gameOver
    ensures FrameStep(w, false, now) == Walk(w)
    ensures FrameStep(w, false, now).damage == w.damage
  {
  }

  /** The game ends only in a frame whose enemy touches a loaded player and lands the final hit. */
  lemma GameEndsOnlyByContact(w: World, e: Event)
    requires !w.damage.gameOver && Step(w, e).damage.gameOver
    ensures e.AnimationFrame? && e.contact && w.playerPresent
    ensures HitLands(w.damage, e.now) && w.damage.health - HIT_DAMAGE <= 0
  {
  }

  /**
   * Once the game is over the damage state and the bar are frozen for
   * every later sequence of callbacks: the timer does not move either,
   * because no frame reaches the damage rule any more.
   */
  lemma {:induction false} FrozenAfterGameOver(w: World, events: seq<Event>)
    requires w.damage.gameOver
    ensures Replay(w, events).damage == w.damage
    ensures Replay(w, events).bar == w.bar
    decreases |events|
  {
    if events != [] {
      var w' := Step(w, events[0]);
      assert w'.damage == w.damage && w'.bar == w.bar;
      FrozenAfterGameOver(w', events[1..]);
    }
  }

  /** The game's global state, updated in place by the callbacks. */
  class GameSession {
    var health: int
    var lastDamageTime: int
    var gameOver: bool
    var bar: Option<Style>
    var playerPresent: bool
    var px: int
    var pz: int
    var keys: map<string, bool>

    function Snapshot(): World
      reads this
    {
      World(DamageState(health, lastDamageTime, gameOver), bar, playerPresent, px, pz, keys)
    }

    ghost predicate Valid()
      reads this
    {
      Consistent(Snapshot())
    }

    /** The globals as the script declares them, before any callback runs. */
    constructor ()
      ensures Valid()
      ensures Snapshot() == InitialWorld()
    {
      health, lastDamageTime, gameOver := INITIAL_HEALTH, 0, false;
      bar := None;
      playerPresent, px, pz := false, 0, 0;
      keys := InitialKeys();
    }

    /** The keydown handler. */
    method KeyDown(key: string)
      requires Valid()
      modifies this`keys
      ensures Valid()
      ensures Snapshot() == Step(old(Snapshot()), Event.KeyDown(key))
    {
      var name := Lower(key);
      if name in keys {
        keys := keys[name := true];
      }
      StepKeepsConsistent(old(Snapshot()), Event.KeyDown(key));
    }

    /** The keyup handler. */
    method KeyUp(key: string)
      requires Valid()
      modifies this`keys
      ensures Valid()
      ensures Snapshot() == Step(old(Snapshot()), Event.KeyUp(key))
    {
      var name := Lower(key);
      if name in keys {
        keys := keys[name := false];
      }
      StepKeepsConsistent(old(Snapshot()), Event.KeyUp(key));
    }

    /** The model loader's completion callback: the player appears at the origin. */
    method LoadPlayer()
      requires Valid()
      modifies this`playerPresent, this`px, this`pz
      ensures Valid()
      ensures Snapshot() == Step(old(Snapshot()), Event.PlayerLoaded)
    {
      playerPresent := true;
      px, pz := 0, 0;
    }

    /** Draws the bar for the current health. */
    method UpdateHealthBar()
      modifies this`bar
      ensures bar == Some(BarStyle(health))
    {
      bar := Some(BarStyle(health));
    }

    /**
     * The damage rule at wall-clock time `now`. The timer is reset before
     * the game-over check, so a finished game still moves the timer.
     */
    method DealDamage(now: int)
      requires Valid()
      modifies this`health, this`lastDamageTime, this`gameOver, this`bar
      ensures Valid()
      ensures Snapshot() == DealDamageStep(old(Snapshot()), now)
    {
      ghost var before := Snapshot();
      DealDamageKeepsConsistent(before, now);
      ghost var after := DealDamageStep(before, now);
      if now - lastDamageTime >= DAMAGE_INTERVAL {
        lastDamageTime := now;
        if gameOver {
          assert Snapshot() == after;
          return;
        }
        health := health - HIT_DAMAGE;
        UpdateHealthBar();
        if health <= 0 {
          gameOver := true;
        }
        assert after.damage == DamageState(health, lastDamageTime, gameOver);
        assert Snapshot() == after;
      }
    }

    /** The enemy's part of a frame; `contact` is the outcome of its distance test. */
    method UpdateEnemy(contact: bool, now: int)
      requires Valid()
      modifies this`health, this`lastDamageTime, this`gameOver, this`bar
      ensures Valid()
      ensures Snapshot() == EnemyStep(old(Snapshot()), contact, now)
    {
      if !playerPresent || gameOver {
        return;
      }
      if contact {
        DealDamage(now);
      }
    }

    /**
     * One animation frame. It asks for the next frame before doing any
     * work, so the frame that ends the game still schedules one more,
     * which then returns at once.
     */
    method Animate(contact: bool, now: int) returns (rescheduled: bool)
      requires Valid()
      modifies this
      ensures Valid()
      ensures rescheduled == !old(gameOver)
      ensures Snapshot() == FrameStep(old(Snapshot()), contact, now)
    {
      if gameOver {
        return false;
      }
      rescheduled := true;
      if playerPresent {
        var velocityX, velocityZ := SelectVelocity(keys);
        px := px + velocityX;
        pz := pz + velocityZ;
      }
      UpdateEnemy(contact, now);
    }
  }
}
