/** Keyboard state tracking of src/core/Input.ts.

    `keys` records, per lower-cased key name, whether the key is down;
    `keyEvents` holds the callbacks registered per key name. A callback is
    an opaque value `CB`; `onKeyChange` reports the calls it makes. */
module Input {

  /** `toLowerCase` on the ASCII letters. */
  function LowerChar(c: char): char {
    if 'A' <= c <= 'Z' then (c as int + 32) as char else c
  }

  predicate IsUpper(c: char) {
    'A' <= c <= 'Z'
  }

  function Lower(s: string): (r: string)
    ensures |r| == |s|
    ensures forall k :: 0 <= k < |s| ==> r[k] == LowerChar(s[k])
    decreases |s|
  {
    if s == [] then [] else Lower(s[..|s| - 1]) + [LowerChar(s[|s| - 1])]
  }

  /** A lower-cased name has no upper-case letter, and lower-casing it again
      changes nothing. */
  lemma LowerIsLower(s: string)
    ensures forall k :: 0 <= k < |s| ==> !IsUpper(Lower(s)[k])
    ensures Lower(Lower(s)) == Lower(s)
  {
  }

  /** `isKeyPressed` on a key table: an absent key is not pressed. */
  function Pressed(keys: map<string, bool>, key: string): bool {
    var k := Lower(key);
    k in keys && keys[k]
  }

  /** The key table after `onKeydown` for `eventKey`. */
  function AfterKeydown(keys: map<string, bool>, eventKey: string): map<string, bool> {
    var k := Lower(eventKey);
    if k in keys && keys[k] then keys else keys[k := true]
  }

  /** The key table after `onKeyup` for `eventKey`. */
  function AfterKeyup(keys: map<string, bool>, eventKey: string): map<string, bool> {
    var k := Lower(eventKey);
    if !(k in keys && keys[k]) then keys else keys[k := false]
  }

  /** A keydown presses exactly the keys with the same lower-cased name, and
      a keyup releases exactly those; every other key keeps its state. */
  lemma KeyTransitions(keys: map<string, bool>, eventKey: string, query: string)
    ensures Pressed(AfterKeydown(keys, eventKey), query) <==> Pressed(keys, query) || Lower(query) == Lower(eventKey)
    ensures Pressed(AfterKeyup(keys, eventKey), query) <==> Pressed(keys, query) && Lower(query) != Lower(eventKey)
  {
  }

  /** Callbacks registered under a name with an upper-case letter never fire:
      dispatch always looks up a lower-cased name. */
  lemma UppercaseNeverFires(registered: string, eventKey: string)
    requires exists k :: 0 <= k < |registered| && IsUpper(registered[k])
    ensures Lower(eventKey) != registered
  {
    LowerIsLower(eventKey);
  }

  /** One call `callback(value, event)`. */
  datatype KeyCall<CB> = KeyCall(callback: CB, value: bool)

  /** The calls `onKeyChange(key, value)` makes: the key's callbacks in
      registration order, or none when nothing is registered under `key`. */
  function KeyCalls<CB>(keyEvents: map<string, seq<CB>>, key: string, value: bool): (r: seq<KeyCall<CB>>)
    ensures key !in keyEvents ==> r == []
    ensures key in keyEvents ==>
      |r| == |keyEvents[key]| && forall k :: 0 <= k < |r| ==> r[k] == KeyCall(keyEvents[key][k], value)
  {
    if key !in keyEvents then [] else seq(|keyEvents[key]|, k requires 0 <= k < |keyEvents[key]| => KeyCall(keyEvents[key][k], value))
  }

  /** The callback table after `registerKeyEvent(key, callback)`. */
  function Registered<CB>(keyEvents: map<string, seq<CB>>, key: string, callback: CB): map<string, seq<CB>> {
    keyEvents[key := (if key in keyEvents then keyEvents[key] else []) + [callback]]
  }

  /** A newly registered callback fires after those registered before it
      under the same name, and changes no other name's calls. */
  lemma RegisteredFiresLast<CB>(keyEvents: map<string, seq<CB>>, key: string, callback: CB, name: string, value: bool)
    ensures KeyCalls(Registered(keyEvents, key, callback), key, value) == KeyCalls(keyEvents, key, value) + [KeyCall(callback, value)]
    ensures name != key ==> KeyCalls(Registered(keyEvents, key, callback), name, value) == KeyCalls(keyEvents, name, value)
  {
  }

  /** The input object; the DOM listener wiring of its constructor is not
      part of the model. */
  class Input<CB> {
    var keys: map<string, bool>
    var keyEvents: map<string, seq<CB>>

    /** Every name in the key table is lower-cased: the table is only ever
        written under `event.key.toLowerCase()`. */
    ghost predicate Valid()
      reads this
    {
      forall k :: k in keys ==> Lower(k) == k
    }

    constructor ()
      ensures Valid()
      ensures keys == map[] && keyEvents == map[]
    {
      keys := map[];
      keyEvents := map[];
    }

    /** `isKeyPressed`: a key is pressed when it was recorded down under a
        name that lower-cases to the same as `key`; the query is
        case-insensitive, and an unrecorded key is not pressed. */
    function IsKeyPressed(key: string): (r: bool)
      reads this
      ensures r ==> Lower(key) in keys
      ensures Valid() ==> (r <==> exists k :: k in keys && keys[k] && Lower(k) == Lower(key))
    {
      LowerIsLower(key);
      Pressed(keys, key)
    }

    /** `registerKeyEvent`: append under the key exactly as given. */
    method RegisterKeyEvent(key: string, callback: CB)
      requires Valid()
      modifies this
      ensures Valid()
      ensures keyEvents == Registered(old(keyEvents), key, callback)
      ensures keys == old(keys)
    {
      if key in keyEvents {
        keyEvents := keyEvents[key := keyEvents[key] + [callback]];
      } else {
        assert [] + [callback] == [callback];
        keyEvents := keyEvents[key := [callback]];
      }
    }

    /** `onKeyChange`: call each callback of `key` with `value`, in order. */
    method OnKeyChange(key: string, value: bool) returns (calls: seq<KeyCall<CB>>)
      ensures calls == KeyCalls(keyEvents, key, value)
    {
      if key !in keyEvents {
        return [];
      }
      var callbacks := keyEvents[key];
      calls := [];
      for k := 0 to |callbacks|
        invariant |calls| == k
        invariant forall j :: 0 <= j < k ==> calls[j] == KeyCall(callbacks[j], value)
      {
        calls := calls + [KeyCall(callbacks[k], value)];
      }
    }

    /** `onKeydown`: ignore a key already down; otherwise mark it down and
        fire its callbacks with `true`. */
    method OnKeydown(eventKey: string) returns (calls: seq<KeyCall<CB>>)
      requires Valid()
      modifies this
      ensures Valid()
      ensures keys == AfterKeydown(old(keys), eventKey) && keyEvents == old(keyEvents)
      ensures calls == if Pressed(old(keys), eventKey) then [] else KeyCalls(keyEvents, Lower(eventKey), true)
    {
      var key := Lower(eventKey);
      LowerIsLower(eventKey);
      if key in keys && keys[key] {
        return [];
      }
      keys := keys[key := true];
      calls := OnKeyChange(key, true);
    }

    /** `onKeyup`: ignore a key that is not down; otherwise mark it up and
        fire its callbacks with `false`. */
    method OnKeyup(eventKey: string) returns (calls: seq<KeyCall<CB>>)
      requires Valid()
      modifies this
      ensures Valid()
      ensures keys == AfterKeyup(old(keys), eventKey) && keyEvents == old(keyEvents)
      ensures calls == if Pressed(old(keys), eventKey) then KeyCalls(keyEvents, Lower(eventKey), false) else []
    {
      var key := Lower(eventKey);
      LowerIsLower(eventKey);
      if !(key in keys && keys[key]) {
        return [];
      }
      keys := keys[key := false];
      calls := OnKeyChange(key, false);
    }
  }
}
