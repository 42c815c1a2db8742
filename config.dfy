/** The settings store of src/core/util/Config.ts.

    The settings are a JSON tree. `get` splits its key on "." and walks the
    tree one segment at a time; `set` writes one top-level property of the
    live settings object; `reset` makes the live settings object be the
    `DEFAULTS` object itself. */
module Config {
  import opened Wrappers

  /** A JSON value as `JSON.parse` produces it, plus `undefined`. Arrays are
      not part of the model. */
  datatype Json =
    | Undefined
    | Null
    | Bool(b: bool)
    | Num(n: real)
    | Str(s: string)
    | Obj(fields: map<string, Json>)

  /** The `TypeError` of reading property `key` of `undefined` or `null`. */
  datatype ConfigError = TypeError(key: string)

  /** The `DEFAULTS` tree. */
  function Defaults(): map<string, Json> {
    map[
      "debug" := Bool(true),
      "bindings" := Obj(map[
        "move" := Obj(map["up" := Str("w"), "down" := Str("s"), "left" := Str("a"), "right" := Str("d")])])]
  }

  /** `key.split(".")`: always at least one part. */
  function Split(s: string): (r: seq<string>)
    ensures |r| >= 1
    decreases |s|
  {
    if s == [] then [""]
    else
      var rest := Split(s[1..]);
      if s[0] == '.' then [""] + rest else [[s[0]] + rest[0]] + rest[1..]
  }

  /** `parts.join(".")`. */
  function Join(parts: seq<string>): string
    requires |parts| >= 1
    decreases |parts|
  {
    if |parts| == 1 then parts[0] else parts[0] + "." + Join(parts[1..])
  }

  /** Joining the parts of a key gives the key back. */
  lemma {:induction false} SplitJoin(s: string)
    ensures Join(Split(s)) == s
    decreases |s|
  {
    if s != [] {
      var rest := Split(s[1..]);
      SplitJoin(s[1..]);
      assert s == [s[0]] + s[1..];
      var r := Split(s);
      if s[0] == '.' {
        assert r[1..] == rest;
      } else if |rest| > 1 {
        assert r[1..] == rest[1..];
      }
    }
  }

  /** No part of a split key holds a ".", and a key splits into more than
      one part exactly when it has a "." (a dot-free key is its only part). */
  lemma {:induction false} SplitParts(s: string)
    ensures forall k :: 0 <= k < |Split(s)| ==> '.' !in Split(s)[k]
    ensures |Split(s)| > 1 <==> '.' in s
    ensures '.' !in s ==> Split(s) == [s]
    decreases |s|
  {
    if s != [] {
      var rest := Split(s[1..]);
      SplitParts(s[1..]);
      assert s == [s[0]] + s[1..];
      assert forall c :: c in s <==> c == s[0] || c in s[1..];
      if s[0] != '.' {
        var r := Split(s);
        assert r[0] == [s[0]] + rest[0];
        assert forall k :: 1 <= k < |r| ==> r[k] == rest[k];
      }
    }
  }

  /** Splitting a join of dot-free parts gives the parts back. */
  lemma {:induction false} JoinSplit(parts: seq<string>)
    requires |parts| >= 1 && forall k :: 0 <= k < |parts| ==> '.' !in parts[k]
    ensures Split(Join(parts)) == parts
    decreases |parts|
  {
    if |parts| == 1 {
      SplitParts(parts[0]);
    } else {
      JoinSplit(parts[1..]);
      SplitAppend(parts[0], Join(parts[1..]));
    }
  }

  /** Splitting `p + "." + s` for a dot-free `p`. */
  lemma {:induction false} SplitAppend(p: string, s: string)
    requires '.' !in p
    ensures Split(p + "." + s) == [p] + Split(s)
    decreases |p|
  {
    if p == [] {
      assert p + "." + s == ['.'] + s;
      assert (['.'] + s)[1..] == s;
    } else {
      var t := p + "." + s;
      assert t[0] == p[0] && t[1..] == p[1..] + "." + s;
      assert p[0] != '.';
      assert forall c :: c in p[1..] ==> c in p;
      SplitAppend(p[1..], s);
      assert [p[0]] + p[1..] == p;
    }
  }

  /** A top-level property read: missing properties are `undefined`. */
  function Field(fields: map<string, Json>, key: string): Json {
    if key in fields then fields[key] else Undefined
  }

  /** `obj[key]`: a `TypeError` on `undefined` and `null`; a primitive has no
      such property. */
  function Member(v: Json, key: string): Result<Json, ConfigError> {
    match v
    case Undefined => Err(TypeError(key))
    case Null => Err(TypeError(key))
    case Obj(f) => Ok(Field(f, key))
    case _ => Ok(Undefined)
  }

  /** The `for` loop of `get`: `obj = obj[key]` for each remaining segment. */
  function Walk(v: Json, keys: seq<string>): (r: Result<Json, ConfigError>)
    ensures keys == [] ==> r == Ok(v)
    ensures r.Err? ==> r.error.key in keys
    decreases |keys|
  {
    if keys == [] then Ok(v)
    else
      match Member(v, keys[0])
      case Err(e) => Err(e)
      case Ok(w) => Walk(w, keys[1..])
  }

  /** `get(key)` on the live settings. A key without a dot is a top-level
      lookup where a missing, `undefined` or `null` property reads as `null`;
      a dotted key walks the whole path from the settings object, and only
      such a walk can throw, naming the segment it failed to read. */
  function Get(fields: map<string, Json>, key: string): (r: Result<Json, ConfigError>)
    ensures '.' !in key ==> r == Ok(if key in fields && fields[key] != Undefined then fields[key] else Null)
    ensures '.' in key ==> r == Walk(Obj(fields), Split(key))
    ensures r.Err? ==> '.' in key && r.error.key in Split(key)[1..]
  {
    SplitParts(key);
    var keys := Split(key);
    assert keys == [keys[0]] + keys[1..];
    if |keys| > 1 then Walk(Field(fields, keys[0]), keys[1..])
    else
      var v := Field(fields, key);
      Ok(if v == Undefined || v == Null then Null else v)
  }

  /** Walking a path is walking its first part, then the rest from there;
      a `TypeError` on the way ends the walk. */
  lemma {:induction false} WalkComposes(v: Json, a: seq<string>, b: seq<string>)
    ensures Walk(v, a + b) == match Walk(v, a) case Err(e) => Err(e) case Ok(w) => Walk(w, b)
    decreases |a|
  {
    if a == [] {
      assert a + b == b;
    } else {
      assert (a + b)[0] == a[0] && (a + b)[1..] == a[1..] + b;
      match Member(v, a[0]) {
        case Err(e) =>
        case Ok(w) => WalkComposes(w, a[1..], b);
      }
    }
  }

  /** A dotted key reaches a leaf through nested objects: the last segment
      reads a property, which is `undefined` (not `null`) when missing. */
  lemma {:induction false} WalkToLeaf(f: map<string, Json>, path: seq<string>, leaf: string)
    requires path != []
    ensures Walk(Obj(f), path + [leaf]) ==
      match Walk(Obj(f), path) case Err(e) => Err(e) case Ok(w) => Member(w, leaf)
  {
    WalkComposes(Obj(f), path, [leaf]);
    forall w ensures Walk(w, [leaf]) == Member(w, leaf) {
      assert [leaf][1..] == [];
    }
  }

  /** `set` then `get` of a dot-free key gives the value back (`undefined`
      and `null` read back as `null`). */
  lemma SetThenGet(fields: map<string, Json>, key: string, value: Json)
    requires '.' !in key
    ensures Get(fields[key := value], key) == Ok(if value == Undefined || value == Null then Null else value)
  {
    SplitParts(key);
  }

  /** `set` of a dotted key writes a property `get` never reads for that key:
      `get` starts from the part before the first ".". */
  lemma DottedSetInvisible(fields: map<string, Json>, key: string, value: Json)
    requires '.' in key
    ensures Get(fields[key := value], key) == Get(fields, key)
  {
    SplitParts(key);
    var keys := Split(key);
    assert keys[0] != key by {
      assert '.' !in keys[0];
    }
  }

  /** `get("debug")` on the defaults is `true`. */
  lemma DefaultDebug()
    ensures Get(Defaults(), "debug") == Ok(Bool(true))
  {
    SplitParts("debug");
    assert Split("debug") == ["debug"];
  }

  /** A missing dot-free key reads as `null`, not `undefined`. */
  lemma DefaultMissingKey()
    ensures Get(Defaults(), "missing") == Ok(Null)
  {
    SplitParts("missing");
    assert Split("missing") == ["missing"];
  }

  /** A three-part key splits into its three dot-free parts. */
  lemma SplitThree(a: string, b: string, c: string)
    requires '.' !in a && '.' !in b && '.' !in c
    ensures Split(a + "." + b + "." + c) == [a, b, c]
  {
    assert a + "." + b + "." + c == a + "." + (b + "." + c);
    SplitAppend(a, b + "." + c);
    SplitAppend(b, c);
    SplitParts(c);
  }

  /** Walking `bindings.move.<leaf>` from the defaults reads the leaf of the
      `move` object. */
  lemma MoveWalk(leaf: string)
    ensures Walk(Obj(Defaults()), ["bindings", "move", leaf]) == Ok(Field(Defaults()["bindings"].fields["move"].fields, leaf))
  {
    var bindings := Defaults()["bindings"];
    var move := bindings.fields["move"];
    assert Walk(move, [leaf]) == Ok(Field(move.fields, leaf));
    assert Walk(bindings, ["move", leaf]) == Walk(move, [leaf]);
    assert Walk(Obj(Defaults()), ["bindings", "move", leaf]) == Walk(bindings, ["move", leaf]);
  }

  /** `get("bindings.move.<leaf>")` on the defaults walks to the leaf. */
  lemma GetMoveBinding(leaf: string)
    requires '.' !in leaf
    ensures Get(Defaults(), "bindings.move." + leaf) == Walk(Obj(Defaults()), ["bindings", "move", leaf])
  {
    var key := "bindings.move." + leaf;
    SplitThree("bindings", "move", leaf);
    assert "bindings" + "." + "move" + "." + leaf == key;
    assert key[8] == '.';
  }

  /** The binding for "up" is "w". */
  lemma DefaultBindingUp()
    ensures Get(Defaults(), "bindings.move.up") == Ok(Str("w"))
  {
    GetMoveBinding("up");
    MoveWalk("up");
    assert "bindings.move." + "up" == "bindings.move.up";
  }

  /** A missing leaf under an existing object is `undefined`, not `null`. */
  lemma DefaultBindingMissing()
    ensures Get(Defaults(), "bindings.move.jump") == Ok(Undefined)
  {
    GetMoveBinding("jump");
    MoveWalk("jump");
    assert "bindings.move." + "jump" == "bindings.move.jump";
  }

  /** A dotted key whose first part is missing reads a property of
      `undefined`: a `TypeError`. */
  lemma DefaultMissingParent()
    ensures Get(Defaults(), "missing.key") == Err(TypeError("key"))
  {
    JoinSplit(["missing", "key"]);
    assert Join(["missing", "key"]) == "missing.key";
  }

  /** A settings object, shared by reference. */
  class JsObject {
    var fields: map<string, Json>

    constructor (fields: map<string, Json>)
      ensures this.fields == fields
    {
      this.fields := fields;
    }
  }

  /** The module state: the `DEFAULTS` object and the live `config`. */
  class ConfigStore {
    const defaults: JsObject
    var config: JsObject

    /** The live settings start as a separate copy of the defaults, as
        `JSON.parse` of their stored form would give. */
    constructor ()
      ensures defaults.fields == Defaults() && config.fields == Defaults()
      ensures config != defaults && fresh(config) && fresh(defaults)
    {
      defaults := new JsObject(Defaults());
      config := new JsObject(Defaults());
    }

    /** `Config.get`: a key without a dot never throws and never reads as
        `undefined`; a dotted key that throws names one of its segments. */
    function GetKey(key: string): (r: Result<Json, ConfigError>)
      reads this, config
      ensures '.' !in key ==> r.Ok? && r.value != Undefined
      ensures r.Err? ==> '.' in key && r.error.key in Split(key)
    {
      Get(config.fields, key)
    }

    /** `Config.set`: write one property of the live object. */
    method Set(key: string, value: Json)
      modifies config
      ensures config.fields == old(config.fields)[key := value]
    {
      config.fields := config.fields[key := value];
    }

    /** `Config.reset`: the live object becomes `DEFAULTS` itself. */
    method Reset()
      modifies this
      ensures config == defaults
    {
      config := defaults;
    }
  }

  /** After a `reset`, a `set` writes into `DEFAULTS`, so the next `reset`
      restores the changed value rather than the default. */
  method ResetDoesNotRestoreAfterSet(store: ConfigStore)
    modifies store, store.defaults
    ensures store.config == store.defaults
    ensures store.defaults.fields == old(store.defaults.fields)["debug" := Bool(false)]
    ensures store.GetKey("debug") == Ok(Bool(false))
  {
    store.Reset();
    store.Set("debug", Bool(false));
    store.Reset();
    SetThenGet(old(store.defaults.fields), "debug", Bool(false));
  }
}
