# Gameplay rules of a browser 3D chase game, in Dafny

The game (one script, `game.js`) draws a ground plane with a player model and a red box for the enemy. The enemy chases the player and, on contact, hits once per second. The player loses when health reaches zero. Nearly all of the script calls the 3D library. This project models the integer and boolean state machine inside it:

- **Keyboard dictionary** (module `Input`). Five entries, `w a s d space`, all false at start. keydown and keyup lower-case the key value and set or clear that entry, but only when the entry already exists.
- **Health bar** (module `HealthBar`). `updateHealthBar` writes the health followed by `%` as the width. It paints the bar green above 50, orange above 20 and red otherwise. The width string has a parser, and both round trips are proved: parse after write gives the health back, and write after parse gives the string back.
- **Damage rule** (module `DamageRule`). This is `dealDamage` as a pure transition on `(health, lastDamageTime, gameOver)`. Wall-clock time is a parameter, and sequences of calls are studied with `Run` and `Hits`. One detail of the code is kept exactly: once the cooldown has elapsed, the timer is reset *before* the game-over check.
- **Movement choice** (module `Movement`). Each frame picks the velocity with four `if`s in the order w, s, a, d. So when opposing keys are held together, s beats w and d beats a.
- **Session** (module `Game`). `World` is the whole state as a value. `Step` and `Replay` describe the host's callbacks: key events, the model-load callback and animation frames. Class `GameSession` keeps the same state as mutable fields. Each of its methods follows one function of the script, statement by statement. The callback methods are proved equal to the matching step functions, and `UpdateHealthBar` is proved to draw the bar for the current health.

Positions are whole numbers of moveSpeed steps (0.1 world units). The enemy's distance test enters each frame as a boolean `contact`.

Three points where the code does not do what one might expect, and where the model follows the code:
- One might expect a finished game to ignore the damage rule. In the code, a call after the cooldown still moves the timer (`DamageRule.TimerResetsEvenWhenOver`). Frames stop at game over, though, so in a whole session health, timer, flag and bar never change again (`Game.FrozenAfterGameOver`). The key listeners stay attached to the document, so key events still update the keys map afterwards.
- One might expect health to go below zero for a moment before the game ends. From 100, in steps of 10, it lands exactly on 0 (`Game.ReachableHealth`).
- One might expect the space bar to make the player jump. The browser reports the space bar as the key value `" "`, which is not the entry name `"space"`, so keydown never sets that entry (`Input.SpaceBarKeyIgnored`).

## Model

| member | source | states |
|---|---|---|
| `Input.InitialKeys` | game.js:3 | the dictionary has exactly the entries w, a, s, d, space, all released |
| `Input.LowerChar` | game.js:70 | the result is never an upper-case ASCII letter; upper-case letters move by 32 code points and every other character is kept |
| `Input.Update` | game.js:69-74 | the shared handler body: the key set is kept, and the entry named by the lower-cased key, when it exists, takes the new value |
| `Input.Pressed` | game.js:69-71 | keydown keeps the key set and holds the entry named by the lower-cased key |
| `Input.Released` | game.js:72-74 | keyup keeps the key set and releases the entry named by the lower-cased key |
| `Input.Lower` | game.js:70 | the lower-cased key has the same length and each character is the ASCII lower case of the original's |
| `Input.LowerIdempotent` | game.js:70 | lower-casing an already lower-cased key changes nothing |
| `Input.UpdateTouchesOnlyItsEntry` | game.js:69-74 | a key event never adds an entry, sets only the entry named by the lower-cased key, leaves every other entry alone and is a no-op when that entry does not exist |
| `Input.PressRelease` | game.js:69-74 | for a recognised key, keydown makes the control held and keyup releases it, and keyup after keydown equals keyup alone |
| `Input.UnknownKeyIgnored` | game.js:70 | a key that does not lower-case to one of the five names leaves the dictionary unchanged |
| `Input.SpaceBarKeyIgnored` | game.js:3 | the space bar's key value " " changes no entry, so "space" is never set by keydown |
| `Input.CaseInsensitive` | game.js:70 | every key updates the dictionary exactly as its lower-cased form does |
| `Input.ShiftedLetterSameControl` | game.js:70 | "W" and "w" update the dictionary identically |
| `HealthBar.BarColour` | game.js:110-116 | green exactly when health > 50, orange exactly when 20 < health <= 50, red exactly when health <= 20 |
| `HealthBar.ColourMonotone` | game.js:110-116 | less health never gives a healthier-looking colour |
| `HealthBar.CssName` | game.js:111-115 | the bar is painted "green", "orange" or "red", each exactly for its own tier |
| `HealthBar.NatDigits` | game.js:108 | a number is written as a non-empty digit string with no leading zero, starting with '0' only for 0 |
| `HealthBar.Decimal` | game.js:108 | a number is written as a non-empty string that starts with '-' exactly when the number is negative |
| `HealthBar.ParseDecimal` | game.js:108 | a string accepted as a number starts with a digit or '-', and it reads as negative exactly when it starts with '-' |
| `HealthBar.Width` | game.js:108 | the width ends in '%' and starts with '-' exactly for negative health |
| `HealthBar.ParseWidth` | game.js:108 | only strings ending in '%' are accepted as widths |
| `HealthBar.WidthRoundTrip` | game.js:108 | the width written for a health reads back as that health |
| `HealthBar.ParseWidthExact` | game.js:108 | any string that reads as a width for a health is exactly the width written for it |
| `HealthBar.BarStyleReadsBack` | game.js:106-117 | the drawn bar's width reads back as the health and its colour is the tier of the health |
| `HealthBar.BarStyleInjective` | game.js:106-117 | different health values draw different bars |
| `DamageRule.Damage` | game.js:90-104 | one call of the damage rule either keeps health or lowers it by exactly 10, and a finished game keeps its flag and its health |
| `DamageRule.Run` | game.js:90-104 | a sequence of calls never raises health, and after game over keeps health and flag |
| `DamageRule.Hits` | game.js:92-95 | the landed hits are no more than the calls, and each is the time of one of the calls |
| `DamageRule.StartHealthy` | game.js:5-7 | the initial state (health 100, timer 0, running) is a healthy state: a multiple of 10 in [0, 100], with the game over exactly at 0 |
| `DamageRule.CooldownBlocks` | game.js:92 | a call within the cooldown leaves health, timer and flag unchanged |
| `DamageRule.TimerResetsEvenWhenOver` | game.js:92-94 | once the cooldown has elapsed the timer becomes now, and a finished game changes in nothing else |
| `DamageRule.HitCostsTen` | game.js:95-99 | a hit on a running game lowers health by exactly 10, sets the timer to now and sets the flag exactly when health is then <= 0 |
| `DamageRule.GameOverExactly` | game.js:94-99 | a running game ends on a call exactly when that call lands a hit leaving health <= 0 |
| `DamageRule.GameOverMonotone` | game.js:94 | a call on a finished game keeps the flag set and health unchanged |
| `DamageRule.DamageKeepsHealthy` | game.js:90-104 | a call keeps health a multiple of 10 in [0, 100] with the flag set exactly at 0 |
| `DamageRule.RunKeepsHealthy` | game.js:90-104 | every sequence of calls from a healthy state ends in a healthy state |
| `DamageRule.RunAfterGameOver` | game.js:94 | after game over no call in any sequence lands a hit, and health and flag never change |
| `DamageRule.RunHealth` | game.js:95 | after any sequence of calls, health has fallen by exactly 10 times the number of landed hits |
| `DamageRule.HitsBounded` | game.js:95-99 | from a healthy state, at most health / 10 hits ever land |
| `DamageRule.HitsSpaced` | game.js:88-93 | consecutive landed hits are at least 1000 ms apart, and the first is at least 1000 ms after the starting timer |
| `DamageRule.QuietWindow` | game.js:92 | calls that all fall within 1000 ms of the timer change nothing and land no hit |
| `DamageRule.OnlyFirstInWindow` | game.js:92-93 | after a hit lands at t, calls before t + 1000 land nothing and the state stays as that hit left it |
| `DamageRule.SpacedCallsLand` | game.js:92-99 | calls at least 1000 ms apart each take 10 until health is 0, and the game is over exactly when ten hits per 100 health have been made |
| `DamageRule.TenSpacedHitsEndTheGame` | game.js:5 | from page load, ten calls at least a second apart end the game at health 0 |
| `Movement.Direction` | game.js:123-128 | each axis moves by at most one step, and not at all when neither of its keys is held |
| `Movement.SelectVelocity` | game.js:123-128 | the four successive ifs choose exactly the step of the priority rule Direction |
| `Movement.LaterKeyWins` | game.js:125-128 | with w and s both held the z step is +moveSpeed, with a and d both held the x step is +moveSpeed |
| `Movement.DirectionCases` | game.js:124-128 | each axis is +1 exactly when its positive key is held, -1 exactly when only its negative key is held, 0 exactly when neither is held |
| `Movement.DirectionIgnoresOtherKeys` | game.js:125-128 | the step depends only on w, a, s and d |
| `Game.InitialWorld` | game.js:2-7 | the page-load session satisfies the session invariant, has 100 health, is running, has no player yet and no control held |
| `Game.DealDamageStep` | game.js:90-104 | the damage rule leaves keys, player presence and position alone, and whenever it changes the bar it draws the new health |
| `Game.DealDamageKeepsConsistent` | game.js:95-99 | the damage rule keeps the session invariant, so the bar keeps showing the current health |
| `Game.EnemyStep` | game.js:78-85 | the enemy update is the identity without a player, after game over or without contact, and never touches keys, player presence or position |
| `Game.Walk` | game.js:122-130 | movement leaves damage, bar, keys and presence alone, moves each axis by at most one step, and does nothing without a player |
| `Game.FrameStep` | game.js:119-147 | a frame on a finished game is the identity, and no frame changes keys or player presence |
| `Game.Step` | game.js:59-147 | no callback changes the key set, and only animation frames change the damage state or the bar |
| `Game.Replay` | game.js:119-121 | no callback sequence changes the key set, and none clears the game-over flag |
| `Game.InitialConsistent` | game.js:3-7 | the session at page load satisfies the session invariant |
| `Game.StepKeepsConsistent` | game.js:59-147 | every callback keeps a healthy damage state, the five-entry dictionary, and a bar that shows the current health |
| `Game.ReplayKeepsConsistent` | game.js:119-147 | every sequence of callbacks keeps the session invariant |
| `Game.ReachableHealth` | game.js:90-104 | in every session reached from page load health is a multiple of 10 in [0, 100], and the game is over exactly at 0 |
| `Game.FrameAfterGameOver` | game.js:120 | once the game is over a frame moves nothing and the enemy does not act |
| `Game.FrameWithoutPlayer` | game.js:79 | before the player has loaded a frame changes nothing |
| `Game.FrameWithoutContact` | game.js:82-84 | without contact a frame only moves the player and leaves the damage state alone |
| `Game.GameEndsOnlyByContact` | game.js:82-99 | the game ends only in a frame where the enemy touches a loaded player and a hit lands that leaves health <= 0 |
| `Game.FrozenAfterGameOver` | game.js:119-121 | once the game is over, no later callback sequence changes health, timer, flag or bar |
| `Game.GameSession.constructor` | game.js:2-7 | the globals start as the initial session |
| `Game.GameSession.KeyDown` | game.js:69-71 | the keydown handler updates the dictionary as Pressed does and keeps the invariant |
| `Game.GameSession.KeyUp` | game.js:72-74 | the keyup handler updates the dictionary as Released does and keeps the invariant |
| `Game.GameSession.LoadPlayer` | game.js:59-63 | the load callback marks the player present at the origin |
| `Game.GameSession.UpdateHealthBar` | game.js:106-117 | the bar now shows the current health |
| `Game.GameSession.DealDamage` | game.js:90-104 | the new state is the damage transition of the old one, with the bar redrawn exactly when a hit lands |
| `Game.GameSession.UpdateEnemy` | game.js:78-85 | the enemy step does nothing without a player or after game over, and otherwise deals damage on contact |
| `Game.GameSession.Animate` | game.js:119-149 | a frame reschedules itself exactly when the game was running at its start, and changes the state as FrameStep does |

## Left out

- Scene, camera, lights, sky shader, renderer, rendering call and resize handling (game.js:9-57, 148, 151-155): library calls and GPU shaders with no game logic.
- Ground texture and model loading (game.js:47-63): asynchronous asset I/O. The load callback is the `PlayerLoaded` event. A failed load is a session in which that event never comes.
- Enemy chase vector, normalisation, movement and distance (game.js:80-82): floating-point geometry. The result of `distanceTo(...) < 1.5` is the `contact` input of a frame.
- The `!enemy` guard (game.js:79): the enemy is created synchronously in `init` before the first frame, so it is always present and is not modelled as a flag.
- Jump, gravity and the `isJumping`/`velocity` state (game.js:131-143): floating-point physics. The `space` entry is therefore read by nothing in the model.
- Camera follow (game.js:144-145): floating-point transform.
- Player position: the model keeps `x` and `z` as whole numbers of 0.1-unit steps. Repeated floating-point addition of 0.1 in the script drifts slightly from these exact multiples. The height `y` is left out with the jump.
- `Date.now()` becomes the `now` parameter. `requestAnimationFrame` becomes the `rescheduled` result of `Animate`. Neither clock nor scheduler is modelled.
- `console.log` (game.js:97, 100): output only.
- The page is assumed to contain an element with id `healthBar`. Without one, `getElementById` at game.js:107 returns null and the write at game.js:108 throws out of `dealDamage`, after health has already dropped at game.js:95 and before the check at game.js:98. The game would then never end, and health would fall below 0.
- The game-over screen written into `document.body` (game.js:101) is represented by the `gameOver` flag. Replacing the document also removes the bar element, so after that the model's last drawn bar has no element on screen.
- Input.Lower, Input.LowerChar: lower-case ASCII letters only. The script calls JavaScript's Unicode `toLowerCase`, which also maps non-ASCII letters. In Unicode's case mapping only the Kelvin sign and the dotted capital I lower-case to something ASCII ("k" and "i" followed by a combining dot), and neither is one of the five entry names, so the keyboard state is the same either way.
- Health, the timer and `now` are JavaScript numbers (doubles). The model uses unbounded integers, which agree with them for every value below 2^53.
- The variant with an orbit camera driven by the mouse is not part of this model.
- Replay accepts any order of callbacks, including a second `PlayerLoaded`, which the loader never delivers. Every property proved over Replay therefore also holds for the orders the host can actually produce.
