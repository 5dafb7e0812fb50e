/**
 * The keyboard state of the game: a fixed dictionary from control names to
 * "currently held", updated by the keydown and keyup handlers.
 */
module Input {

  /** The five entries the dictionary is created with; nothing ever adds another. */
  const CONTROLS: set<string> := {"w", "a", "s", "d", "space"}

  /** The dictionary as the game creates it: every control released. */
  function InitialKeys(): (keys: map<string, bool>)
    ensures keys.Keys == CONTROLS
    ensures forall k :: k in keys ==> !keys[k]
  {
    map["w" := false, "a" := false, "s" := false, "d" := false, "space" := false]
  }

  predicate IsUpper(c: char) {
    'A' <= c <= 'Z'
  }

  /** ASCII lower-casing of one character. */
  function LowerChar(c: char): (r: char)
    ensures !IsUpper(r)
    ensures IsUpper(c) ==> r as int == c as int + 32
    ensures !IsUpper(c) ==> r == c
  {
    if IsUpper(c) then (c as int + 32) as char else c
  }

  /** ASCII lower-casing of a key name, character by character. */
  function Lower(s: string): (r: string)
    ensures |r| == |s|
    ensures forall i :: 0 <= i < |s| ==> r[i] == LowerChar(s[i])
  {
    if s == [] then [] else [LowerChar(s[0])] + Lower(s[1..])
  }

  /** Lower-casing twice is lower-casing once. */
  lemma LowerIdempotent(s: string)
    ensures Lower(Lower(s)) == Lower(s)
  {
    assert forall i :: 0 <= i < |s| ==> Lower(Lower(s))[i] == Lower(s)[i];
  }

  /**
   * The shared body of both handlers: when the lower-cased key is an entry
   * of the dictionary, that entry becomes `down`; otherwise nothing changes.
   */
  function Update(keys: map<string, bool>, key: string, down: bool): (r: map<string, bool>)
    ensures r.Keys == keys.Keys
    ensures Lower(key) in keys ==> r[Lower(key)] == down
  {
    var name := Lower(key);
    if name in keys then keys[name := down] else keys
  }

  /** The state a keydown event leaves. */
  function Pressed(keys: map<string, bool>, key: string): (r: map<string, bool>)
    ensures r.Keys == keys.Keys
    ensures Lower(key) in keys ==> r[Lower(key)]
  {
    Update(keys, key, true)
  }

  /** The state a keyup event leaves. */
  function Released(keys: map<string, bool>, key: string): (r: map<string, bool>)
    ensures r.Keys == keys.Keys
    ensures Lower(key) in keys ==> !r[Lower(key)]
  {
    Update(keys, key, false)
  }

  /** Whether a control is held; a missing entry reads as not held. */
  predicate Held(keys: map<string, bool>, name: string) {
    name in keys && keys[name]
  }

  /**
   * An update touches exactly the entry named by the lower-cased key, and
   * only when that entry exists: the key set never grows, and every other
   * entry keeps its value.
   */
  lemma UpdateTouchesOnlyItsEntry(keys: map<string, bool>, key: string, down: bool)
    ensures Update(keys, key, down).Keys == keys.Keys
    ensures forall k :: k in keys && k != Lower(key) ==> Update(keys, key, down)[k] == keys[k]
    ensures Lower(key) in keys ==> Update(keys, key, down)[Lower(key)] == down
    ensures Lower(key) !in keys ==> Update(keys, key, down) == keys
  {
  }

  /** After keydown the control is held, after keyup it is released, for every recognised key. */
  lemma PressRelease(keys: map<string, bool>, key: string)
    requires Lower(key) in CONTROLS && keys.Keys == CONTROLS
    ensures Held(Pressed(keys, key), Lower(key))
    ensures !Held(Released(keys, key), Lower(key))
    ensures Released(Pressed(keys, key), key) == Released(keys, key)
  {
  }

  /** A key outside the five controls, whatever its case, leaves the dictionary as it was. */
  lemma UnknownKeyIgnored(keys: map<string, bool>, key: string, down: bool)
    requires keys.Keys == CONTROLS && Lower(key) !in CONTROLS
    ensures Update(keys, key, down) == keys
  {
  }

  /**
   * The space bar reports the key value " " (a single space), which is not
   * the entry name "space", so it never changes the dictionary.
   */
  lemma SpaceBarKeyIgnored(keys: map<string, bool>, down: bool)
    requires keys.Keys == CONTROLS
    ensures Update(keys, " ", down) == keys
  {
    assert Lower(" ") == " ";
  }

  /** Key handling is case-insensitive: a key acts exactly as its lower-cased form does. */
  lemma CaseInsensitive(keys: map<string, bool>, key: string, down: bool)
    ensures Update(keys, key, down) == Update(keys, Lower(key), down)
  {
    LowerIdempotent(key);
  }

  /** "W" (shift held) and "w" drive the same control. */
  lemma ShiftedLetterSameControl(keys: map<string, bool>, down: bool)
    ensures Update(keys, "W", down) == Update(keys, "w", down)
  {
    assert Lower("W") == "w";
    assert Lower("w") == "w";
  }
}
