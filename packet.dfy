/** The server packet handlers of src/core/Packet.ts.

    A state packet lists entity descriptors; `handleState` makes each named
    entity live, reconciles its sprite and position components, and then
    destroys every live entity the packet did not name. The pure functions
    below are the registry state each step leaves (over `ECS.Store`); the
    methods run the same steps on a `Registry` object and are proved to
    leave exactly that state. */
module Packet {
  import opened Wrappers
  import opened ECS
  import opened Position

  /** The two component kinds the handlers store. A `PositionBuffer` is kept
      by value: its updater's result replaces the slot. */
  datatype Component =
    | Sprite                                   // a pixi.js `Sprite`; its texture is not modelled
    | Buffer(samples: seq<Sample>, size: int)  // a `PositionBuffer`

  /** `PositionComponent`: the coordinates the server sends. */
  datatype PositionComponent = PositionComponent(x: real, y: real)

  /** `ComponentStorage`: the optional `p` field. */
  datatype ComponentStorage = ComponentStorage(p: Option<PositionComponent>)

  /** One entry of a state packet: the id `i` and optional components `c`. */
  datatype EntityDescriptor = EntityDescriptor(i: Entity, c: Option<ComponentStorage>)

  datatype StatePacket = StatePacket(e: seq<EntityDescriptor>)

  datatype IdPacket = IdPacket(v: int)

  /** `Vec2.create([pos.x, pos.y])`. */
  function ToVec2(p: PositionComponent): Vec2 {
    Vec2(p.x, p.y)
  }

  /** `positionCreate`: a buffer of the default size holding one sample. */
  function PositionCreate(pos: Vec2, time: int): (r: Component)
    ensures r.Buffer? && WellFormed(r.samples, r.size) && r.samples == [Sample(pos, time)]
  {
    Buffer([Sample(pos, time)], 5)
  }

  /** `positionUpdate`: the buffer's `update`. A slot holding anything but a
      non-empty buffer is left as it is. */
  function PositionUpdate(c: Component, pos: Vec2, time: int): (r: Component)
    ensures c.Buffer? && WellFormed(c.samples, c.size) ==>
      r.Buffer? && r.size == c.size && WellFormed(r.samples, r.size) && r.samples[|r.samples| - 1].time >= time
    ensures c.Buffer? && c.samples != [] ==> (r == c <==> time <= c.samples[|c.samples| - 1].time)
  {
    if c.Buffer? && c.samples != [] then
      var pushed := Pushed(c.samples, c.size, Sample(pos, time));
      PushedStale(c.samples, c.size, Sample(pos, time));
      if WellFormed(c.samples, c.size) then
        PushedWellFormed(c.samples, c.size, Sample(pos, time));
        Buffer(pushed, c.size)
      else Buffer(pushed, c.size)
    else c
  }

  /** The updater `emplace_or_update` is given for "position". */
  function Updater(pos: Vec2, time: int): Component -> Component {
    c => PositionUpdate(c, pos, time)
  }

  /** `NOOP`, the updater for "sprite". */
  function Keep(c: Component): Component {
    c
  }

  /** `handleComponents` on a live entity: make sure it has a sprite, then
      create or update its position buffer, or remove it when `p` is absent. */
  function ComponentsApplied(st: Store<Component>, e: Entity, c: ComponentStorage, time: int): Store<Component> {
    var st1 := st.EmplacedOrUpdated("sprite", e, Sprite, Keep);
    match c.p
    case Some(p) => st1.EmplacedOrUpdated("position", e, PositionCreate(ToVec2(p), time), Updater(ToVec2(p), time))
    case None => if st1.Has("position", e) then st1.Removed("position", e) else st1
  }

  /** One iteration of the first loop of `handleState`. */
  function Step(st: Store<Component>, d: EntityDescriptor, time: int): Store<Component> {
    var st1 := if st.Alive(d.i) then st else st.Inserted(d.i);
    if d.c.Some? then ComponentsApplied(st1, d.i, d.c.value, time) else st1
  }

  /** The first loop of `handleState` over the descriptors, in order. */
  function Applied(st: Store<Component>, es: seq<EntityDescriptor>, time: int): Store<Component>
    decreases |es|
  {
    if es == [] then st else Step(Applied(st, es[..|es| - 1], time), es[|es| - 1], time)
  }

  /** The `seen` set: every id the packet names. */
  function Seen(es: seq<EntityDescriptor>): (r: set<Entity>)
    ensures forall k :: 0 <= k < |es| ==> es[k].i in r
    ensures forall x :: x in r ==> exists k :: 0 <= k < |es| && es[k].i == x
    decreases |es|
  {
    if es == [] then {}
    else
      var r := Seen(es[..|es| - 1]);
      assert forall k :: 0 <= k < |es| - 1 ==> es[..|es| - 1][k] == es[k];
      r + {es[|es| - 1].i}
  }

  /** The live entities that survive the second loop, in order. */
  function KeepIn(s: seq<Entity>, seen: set<Entity>): (r: seq<Entity>)
    ensures forall x :: x in r <==> x in s && x in seen
    ensures Distinct(s) ==> Distinct(r)
    decreases |s|
  {
    if s == [] then []
    else
      var init := s[..|s| - 1];
      var r := KeepIn(init, seen);
      assert forall x :: x in s <==> x in init || x == s[|s| - 1];
      assert Distinct(s) ==> Distinct(init) && s[|s| - 1] !in init;
      if s[|s| - 1] in seen then r + [s[|s| - 1]] else r
  }

  /** The second loop of `handleState`: destroy what the packet did not name.
      `destroy` leaves components in place. */
  function Pruned(st: Store<Component>, seen: set<Entity>): Store<Component> {
    st.(entities := KeepIn(st.entities, seen))
  }

  /** The registry state `handleState(data, time)` leaves. */
  function ApplyState(st: Store<Component>, data: StatePacket, time: int): Store<Component> {
    Pruned(Applied(st, data.e, time), Seen(data.e))
  }

  // ---------------------------------------------------------------------
  // How one packet acts on one slot

  predicate IsRemove(d: EntityDescriptor, x: Entity) {
    d.i == x && d.c.Some? && d.c.value.p.None?
  }

  predicate IsUpdate(d: EntityDescriptor, x: Entity) {
    d.i == x && d.c.Some? && d.c.value.p.Some?
  }

  /** Some descriptor for `x` carries components without a position. */
  predicate Removes(es: seq<EntityDescriptor>, x: Entity)
    decreases |es|
  {
    es != [] && (Removes(es[..|es| - 1], x) || IsRemove(es[|es| - 1], x))
  }

  /** Some descriptor for `x` carries a position. */
  predicate Updates(es: seq<EntityDescriptor>, x: Entity)
    decreases |es|
  {
    es != [] && (Updates(es[..|es| - 1], x) || IsUpdate(es[|es| - 1], x))
  }

  /** What one descriptor does to the "position" slot of `x`. */
  function PositionOp(s: Option<Component>, d: EntityDescriptor, x: Entity, time: int): Option<Component> {
    if d.i != x || d.c.None? then s
    else
      match d.c.value.p
      case None => None
      case Some(p) =>
        Some(match s
             case None => PositionCreate(ToVec2(p), time)
             case Some(c) => PositionUpdate(c, ToVec2(p), time))
  }

  /** What one descriptor does to the "sprite" slot of `x`. */
  function SpriteOp(s: Option<Component>, d: EntityDescriptor, x: Entity): Option<Component> {
    if d.i == x && d.c.Some? && s.None? then Some(Sprite) else s
  }

  function PositionSlotAfter(s: Option<Component>, es: seq<EntityDescriptor>, x: Entity, time: int): Option<Component>
    decreases |es|
  {
    if es == [] then s else PositionOp(PositionSlotAfter(s, es[..|es| - 1], x, time), es[|es| - 1], x, time)
  }

  function SpriteSlotAfter(s: Option<Component>, es: seq<EntityDescriptor>, x: Entity): Option<Component>
    decreases |es|
  {
    if es == [] then s else SpriteOp(SpriteSlotAfter(s, es[..|es| - 1], x), es[|es| - 1], x)
  }

  /** The component types a packet creates storage for. */
  function Types(es: seq<EntityDescriptor>): set<string>
    decreases |es|
  {
    if es == [] then {}
    else
      var d := es[|es| - 1];
      Types(es[..|es| - 1]) +
        (if d.c.Some? then {"sprite"} + (if d.c.value.p.Some? then {"position"} else {}) else {})
  }

  /** A "position" slot holds nothing or a well-formed buffer. */
  predicate BufferSlot(s: Option<Component>) {
    s.None? || (s.value.Buffer? && WellFormed(s.value.samples, s.value.size))
  }

  /** A "sprite" slot holds nothing or a sprite. */
  predicate SpriteSlot(s: Option<Component>) {
    s.None? || s.value.Sprite?
  }

  /** Every slot the handlers use holds the kind of component they put there. */
  ghost predicate WellTyped(st: Store<Component>) {
    forall x :: BufferSlot(st.Slot("position", x)) && SpriteSlot(st.Slot("sprite", x))
  }

  /** A buffer whose newest sample is not older than `time`: an update at
      `time` is dropped as stale. */
  predicate Settled(s: Option<Component>, time: int) {
    s.Some? && s.value.Buffer? && s.value.samples != [] && s.value.samples[|s.value.samples| - 1].time >= time
  }

  // ---------------------------------------------------------------------
  // Lemmas

  /** One descriptor changes only the "sprite" and "position" slots of the
      entity it names, as `SpriteOp` and `PositionOp` say, and adds storage
      only for those two types; it never changes the id sequence. */
  lemma StepEffect(st: Store<Component>, d: EntityDescriptor, time: int)
    ensures var st' := Step(st, d, time);
      st'.sequence == st.sequence &&
      st'.components.Keys == st.components.Keys + Types([d]) &&
      forall ty, x :: st'.Slot(ty, x) ==
        if ty == "position" then PositionOp(st.Slot(ty, x), d, x, time)
        else if ty == "sprite" then SpriteOp(st.Slot(ty, x), d, x)
        else st.Slot(ty, x)
  {
    assert [d][..0] == [];
    var st1 := if st.Alive(d.i) then st else st.Inserted(d.i);
    assert st1.components == st.components;
    assert forall ty, x :: st1.Slot(ty, x) == st.Slot(ty, x);
    if d.c.Some? {
      var e := d.i;
      var st2 := st1.EmplacedOrUpdated("sprite", e, Sprite, Keep);
      EmplaceOrUpdateSlot(st1, "sprite", e, Sprite, Keep);
      match d.c.value.p {
        case Some(p) =>
          EmplaceOrUpdateSlot(st2, "position", e, PositionCreate(ToVec2(p), time), Updater(ToVec2(p), time));
        case None =>
          if st2.Has("position", e) {
            RemoveOnlySlot(st2, "position", e);
          }
      }
    }
  }

  /** A whole packet's first loop acts on each slot independently: the slot
      of `x` afterwards is the slot before, put through the descriptors. */
  lemma {:induction false} AppliedEffect(st: Store<Component>, es: seq<EntityDescriptor>, time: int)
    ensures var st' := Applied(st, es, time);
      st'.sequence == st.sequence &&
      st'.components.Keys == st.components.Keys + Types(es) &&
      forall ty, x :: st'.Slot(ty, x) ==
        if ty == "position" then PositionSlotAfter(st.Slot(ty, x), es, x, time)
        else if ty == "sprite" then SpriteSlotAfter(st.Slot(ty, x), es, x)
        else st.Slot(ty, x)
    decreases |es|
  {
    if es != [] {
      var init := es[..|es| - 1];
      var d := es[|es| - 1];
      AppliedEffect(st, init, time);
      StepEffect(Applied(st, init, time), d, time);
      assert [d][..0] == [];
    }
  }

  /** The live set after the first loop is the one before plus every named id,
      with no duplicates; when every named id was live already it is unchanged. */
  lemma {:induction false} AppliedEntities(st: Store<Component>, es: seq<EntityDescriptor>, time: int)
    ensures forall x :: Applied(st, es, time).Alive(x) <==> st.Alive(x) || x in Seen(es)
    ensures Distinct(st.entities) ==> Distinct(Applied(st, es, time).entities)
    ensures (forall k :: 0 <= k < |es| ==> st.Alive(es[k].i)) ==> Applied(st, es, time).entities == st.entities
    decreases |es|
  {
    if es != [] {
      var init := es[..|es| - 1];
      var d := es[|es| - 1];
      AppliedEntities(st, init, time);
      assert forall k :: 0 <= k < |init| ==> init[k] == es[k];
      var mid := Applied(st, init, time);
      assert Step(mid, d, time).entities == if mid.Alive(d.i) then mid.entities else mid.entities + [d.i];
      assert Distinct(mid.entities) && !mid.Alive(d.i) ==> Distinct(mid.entities + [d.i]);
    }
  }

  /** A sprite is created once for an entity given components and never
      replaced (its updater is `NOOP`). */
  lemma {:induction false} SpriteSlotAfterIs(s: Option<Component>, es: seq<EntityDescriptor>, x: Entity)
    ensures SpriteSlotAfter(s, es, x) == if s.None? && (Removes(es, x) || Updates(es, x)) then Some(Sprite) else s
    decreases |es|
  {
    if es != [] {
      SpriteSlotAfterIs(s, es[..|es| - 1], x);
    }
  }

  /** The position slot stays a well-formed buffer or empty. */
  lemma {:induction false} PositionSlotAfterWellFormed(s: Option<Component>, es: seq<EntityDescriptor>, x: Entity, time: int)
    requires BufferSlot(s)
    ensures BufferSlot(PositionSlotAfter(s, es, x, time))
    decreases |es|
  {
    if es != [] {
      var prev := PositionSlotAfter(s, es[..|es| - 1], x, time);
      PositionSlotAfterWellFormed(s, es[..|es| - 1], x, time);
      if prev.Some? {
        PushedWellFormed(prev.value.samples, prev.value.size, Sample(Vec2(0.0, 0.0), time));
        forall v: Vec2 ensures BufferSlot(Some(PositionUpdate(prev.value, v, time))) {
          PushedWellFormed(prev.value.samples, prev.value.size, Sample(v, time));
        }
      }
    }
  }

  /** A packet that names `x` with no position-less components leaves a
      settled buffer as it is (every update at `time` is stale), and leaves
      the slot alone altogether when it never carries a position for `x`. */
  lemma {:induction false} PositionSlotStays(s: Option<Component>, es: seq<EntityDescriptor>, x: Entity, time: int)
    requires !Removes(es, x) && (Settled(s, time) || !Updates(es, x))
    ensures PositionSlotAfter(s, es, x, time) == s
    decreases |es|
  {
    if es != [] {
      PositionSlotStays(s, es[..|es| - 1], x, time);
    }
  }

  /** Once a packet carries a position for `x` and never drops it, the slot
      ends up settled at `time`. */
  lemma {:induction false} PositionSlotSettles(s: Option<Component>, es: seq<EntityDescriptor>, x: Entity, time: int)
    requires BufferSlot(s) && !Removes(es, x) && Updates(es, x)
    ensures Settled(PositionSlotAfter(s, es, x, time), time)
    decreases |es|
  {
    var init := es[..|es| - 1];
    var d := es[|es| - 1];
    var prev := PositionSlotAfter(s, init, x, time);
    if IsUpdate(d, x) {
      PositionSlotAfterWellFormed(s, init, x, time);
      if prev.Some? {
        var v := ToVec2(d.c.value.p.value);
        PushedWellFormed(prev.value.samples, prev.value.size, Sample(v, time));
      }
    } else {
      PositionSlotSettles(s, init, x, time);
    }
  }

  /** Once a packet drops the position of `x`, what the slot held before the
      packet no longer matters. */
  lemma {:induction false} PositionSlotForgets(s1: Option<Component>, s2: Option<Component>, es: seq<EntityDescriptor>, x: Entity, time: int)
    requires Removes(es, x)
    ensures PositionSlotAfter(s1, es, x, time) == PositionSlotAfter(s2, es, x, time)
    decreases |es|
  {
    var init := es[..|es| - 1];
    if !IsRemove(es[|es| - 1], x) {
      PositionSlotForgets(s1, s2, init, x, time);
    }
  }

  /** Putting a position slot through the same packet twice is the same as once. */
  lemma PositionSlotIdempotent(s: Option<Component>, es: seq<EntityDescriptor>, x: Entity, time: int)
    requires BufferSlot(s)
    ensures PositionSlotAfter(PositionSlotAfter(s, es, x, time), es, x, time) == PositionSlotAfter(s, es, x, time)
  {
    var s1 := PositionSlotAfter(s, es, x, time);
    if Removes(es, x) {
      PositionSlotForgets(s1, s, es, x, time);
    } else if Updates(es, x) {
      PositionSlotSettles(s, es, x, time);
      PositionSlotStays(s1, es, x, time);
    } else {
      PositionSlotStays(s, es, x, time);
    }
  }

  /** Two registry states with the same type names and the same slots store
      the same components. */
  lemma SameSlotsSameComponents(a: Store<Component>, b: Store<Component>)
    requires a.components.Keys == b.components.Keys
    requires forall ty, x :: a.Slot(ty, x) == b.Slot(ty, x)
    ensures a.components == b.components
  {
    forall ty | ty in a.components ensures a.components[ty] == b.components[ty] {
      forall x ensures x in a.components[ty] <==> x in b.components[ty] {
        assert a.Slot(ty, x) == b.Slot(ty, x);
      }
      forall x | x in a.components[ty] ensures a.components[ty][x] == b.components[ty][x] {
        assert a.Slot(ty, x) == b.Slot(ty, x);
      }
    }
  }

  lemma {:induction false} KeepInAll(s: seq<Entity>, seen: set<Entity>)
    requires forall x :: x in s ==> x in seen
    ensures KeepIn(s, seen) == s
    decreases |s|
  {
    if s != [] {
      var init := s[..|s| - 1];
      KeepInAll(init, seen);
      var last := s[|s| - 1];
      assert last in s;
      assert KeepIn(s, seen) == KeepIn(init, seen) + [last];
      assert init + [last] == s;
    }
  }

  /** The ids a packet makes live, in the order it first names them. */
  function Fresh(live: seq<Entity>, es: seq<EntityDescriptor>): (r: seq<Entity>)
    ensures forall x :: x in r ==> x !in live && x in Seen(es)
    decreases |es|
  {
    if es == [] then []
    else
      var f := Fresh(live, es[..|es| - 1]);
      var x := es[|es| - 1].i;
      if x in live || x in f then f else f + [x]
  }

  /** The first loop of `handleState` appends the newly named ids to the
      live set, in packet order. */
  lemma {:induction false} AppliedOrder(st: Store<Component>, es: seq<EntityDescriptor>, time: int)
    ensures Applied(st, es, time).entities == st.entities + Fresh(st.entities, es)
    decreases |es|
  {
    if es != [] {
      var init := es[..|es| - 1];
      var d := es[|es| - 1];
      AppliedOrder(st, init, time);
      var mid := Applied(st, init, time);
      var f := Fresh(st.entities, init);
      assert Step(mid, d, time).entities == if mid.Alive(d.i) then mid.entities else mid.entities + [d.i];
      assert mid.Alive(d.i) <==> d.i in st.entities || d.i in f;
      assert (st.entities + f) + [d.i] == st.entities + (f + [d.i]);
    }
  }

  lemma {:induction false} KeepInConcat(a: seq<Entity>, b: seq<Entity>, seen: set<Entity>)
    ensures KeepIn(a + b, seen) == KeepIn(a, seen) + KeepIn(b, seen)
    decreases |b|
  {
    if b == [] {
      assert a + b == a;
    } else {
      var init := b[..|b| - 1];
      assert (a + b)[..|a + b| - 1] == a + init;
      assert (a + b)[|a + b| - 1] == b[|b| - 1];
      KeepInConcat(a, init, seen);
    }
  }

  /** After `handleState` the live set lists the entities that were live and
      are named, in their old order, then the newly named ones in the order
      the packet first names them. */
  lemma ApplyStateOrder(st: Store<Component>, data: StatePacket, time: int)
    ensures ApplyState(st, data, time).entities == KeepIn(st.entities, Seen(data.e)) + Fresh(st.entities, data.e)
  {
    var f := Fresh(st.entities, data.e);
    AppliedOrder(st, data.e, time);
    KeepInConcat(st.entities, f, Seen(data.e));
    KeepInAll(f, Seen(data.e));
  }

  /** After `handleState` the live entities are exactly the ids the packet
      names, without duplicates, and the id sequence is untouched. */
  lemma ApplyStateLiveSet(st: Store<Component>, data: StatePacket, time: int)
    requires Distinct(st.entities)
    ensures var st' := ApplyState(st, data, time);
      Distinct(st'.entities) && st'.sequence == st.sequence &&
      forall x :: st'.Alive(x) <==> exists k :: 0 <= k < |data.e| && data.e[k].i == x
  {
    AppliedEntities(st, data.e, time);
    AppliedEffect(st, data.e, time);
  }

  /** An entity the packet does not name is destroyed, but, since `destroy`
      keeps components, every one of its slots is what it was before. */
  lemma UnnamedDestroyedKeepsSlots(st: Store<Component>, data: StatePacket, time: int, x: Entity)
    requires forall k :: 0 <= k < |data.e| ==> data.e[k].i != x
    ensures !ApplyState(st, data, time).Alive(x)
    ensures forall ty :: ApplyState(st, data, time).Slot(ty, x) == st.Slot(ty, x)
  {
    AppliedEntities(st, data.e, time);
    AppliedEffect(st, data.e, time);
    NotNamedUntouched(st.Slot("position", x), st.Slot("sprite", x), data.e, x, time);
  }

  lemma {:induction false} NotNamedUntouched(p: Option<Component>, s: Option<Component>, es: seq<EntityDescriptor>, x: Entity, time: int)
    requires forall k :: 0 <= k < |es| ==> es[k].i != x
    ensures PositionSlotAfter(p, es, x, time) == p && SpriteSlotAfter(s, es, x) == s
    decreases |es|
  {
    if es != [] {
      NotNamedUntouched(p, s, es[..|es| - 1], x, time);
    }
  }

  /** The last descriptor naming `e` decides its components: with components
      it has a sprite, and it has a position buffer exactly when that
      descriptor carries `p`, whose newest sample is then not older than
      the packet's time. */
  lemma {:induction false} LastDescriptorDecides(st: Store<Component>, data: StatePacket, time: int, j: nat)
    requires WellTyped(st)
    requires j < |data.e| && data.e[j].c.Some?
    requires forall k :: j < k < |data.e| ==> data.e[k].i != data.e[j].i
    ensures var st' := ApplyState(st, data, time); var e := data.e[j].i;
      st'.Alive(e) && st'.Slot("sprite", e) == Some(Sprite) &&
      (st'.Has("position", e) <==> data.e[j].c.value.p.Some?) &&
      (st'.Has("position", e) ==> Settled(st'.Slot("position", e), time))
  {
    var e := data.e[j].i;
    AppliedEntities(st, data.e, time);
    AppliedEffect(st, data.e, time);
    SpriteSlotAfterIs(st.Slot("sprite", e), data.e, e);
    NamedSprite(data.e, j);
    assert SpriteSlot(st.Slot("sprite", e));
    LastPositionOp(st.Slot("position", e), data.e, j, time);
  }

  lemma {:induction false} NamedSprite(es: seq<EntityDescriptor>, j: nat)
    requires j < |es| && es[j].c.Some?
    ensures Removes(es, es[j].i) || Updates(es, es[j].i)
    decreases |es|
  {
    if j < |es| - 1 {
      assert es[..|es| - 1][j] == es[j];
      NamedSprite(es[..|es| - 1], j);
    }
  }

  lemma {:induction false} LastPositionOp(s: Option<Component>, es: seq<EntityDescriptor>, j: nat, time: int)
    requires BufferSlot(s)
    requires j < |es| && es[j].c.Some?
    requires forall k :: j < k < |es| ==> es[k].i != es[j].i
    ensures var r := PositionSlotAfter(s, es, es[j].i, time);
      (r.Some? <==> es[j].c.value.p.Some?) && (r.Some? ==> Settled(r, time))
    decreases |es|
  {
    var init := es[..|es| - 1];
    var x := es[j].i;
    if j == |es| - 1 {
      var prev := PositionSlotAfter(s, init, x, time);
      PositionSlotAfterWellFormed(s, init, x, time);
      if prev.Some? && es[j].c.value.p.Some? {
        PushedWellFormed(prev.value.samples, prev.value.size, Sample(ToVec2(es[j].c.value.p.value), time));
      }
    } else {
      assert init[j] == es[j];
      LastPositionOp(s, init, j, time);
    }
  }

  /** The handlers keep every sprite slot a sprite and every position slot a
      well-formed buffer. */
  lemma ApplyStateWellTyped(st: Store<Component>, data: StatePacket, time: int)
    requires WellTyped(st)
    ensures WellTyped(ApplyState(st, data, time))
  {
    AppliedEffect(st, data.e, time);
    forall x ensures BufferSlot(ApplyState(st, data, time).Slot("position", x)) &&
                     SpriteSlot(ApplyState(st, data, time).Slot("sprite", x)) {
      PositionSlotAfterWellFormed(st.Slot("position", x), data.e, x, time);
      SpriteSlotAfterIs(st.Slot("sprite", x), data.e, x);
    }
  }

  /** Handling the same state packet twice at the same time leaves the
      registry as handling it once: the second pass inserts nobody, finds
      every sprite in place, drops every position update as stale and
      destroys nobody. */
  lemma ApplyStateIdempotent(st: Store<Component>, data: StatePacket, time: int)
    requires Distinct(st.entities) && WellTyped(st)
    ensures ApplyState(ApplyState(st, data, time), data, time) == ApplyState(st, data, time)
  {
    var es := data.e;
    var seen := Seen(es);
    var a1 := Applied(st, es, time);
    var s1 := ApplyState(st, data, time);
    var a2 := Applied(s1, es, time);
    var s2 := ApplyState(s1, data, time);
    AppliedEntities(st, es, time);
    AppliedEffect(st, es, time);
    AppliedEntities(s1, es, time);
    AppliedEffect(s1, es, time);
    assert a2.entities == s1.entities;
    KeepInAll(s1.entities, seen);
    forall ty, x ensures a2.Slot(ty, x) == a1.Slot(ty, x) {
      assert s1.Slot(ty, x) == a1.Slot(ty, x);
      if ty == "position" {
        PositionSlotIdempotent(st.Slot(ty, x), es, x, time);
      } else if ty == "sprite" {
        SpriteSlotAfterIs(st.Slot(ty, x), es, x);
        SpriteSlotAfterIs(a1.Slot(ty, x), es, x);
      }
    }
    SameSlotsSameComponents(a2, a1);
  }

  /** A descriptor with a position for an entity whose old buffer is still
      stored updates that buffer rather than building a new one, even when
      the entity had been destroyed and is inserted again. */
  lemma ReinsertReusesBuffer(st: Store<Component>, e: Entity, p: PositionComponent, time: int, samples: seq<Sample>, size: int)
    requires st.Slot("position", e) == Some(Buffer(samples, size)) && samples != []
    ensures var st' := Step(st, EntityDescriptor(e, Some(ComponentStorage(Some(p)))), time);
      st'.Alive(e) && st'.Slot("position", e) == Some(Buffer(Pushed(samples, size, Sample(ToVec2(p), time)), size))
  {
    StepEffect(st, EntityDescriptor(e, Some(ComponentStorage(Some(p)))), time);
  }

  // ---------------------------------------------------------------------
  // The handlers on a registry object

  /** `handleComponents`: the first `emplace_or_update` throws for a dead
      entity, and nothing has changed by then. */
  method HandleComponents(registry: Registry<Component>, entity: Entity, components: ComponentStorage, time: int)
    returns (r: Outcome<Error>)
    requires registry.Valid()
    modifies registry
    ensures registry.Valid()
    ensures r == if old(registry.State()).Alive(entity) then Pass else Fail(DeadEntity("sprite", entity))
    ensures registry.State() == if r.Pass? then ComponentsApplied(old(registry.State()), entity, components, time) else old(registry.State())
  {
    r := registry.EmplaceOrUpdate("sprite", entity, Sprite, Keep);
    if r.Fail? {
      return;
    }
    var pos := components.p;
    if pos.Some? {
      var v := ToVec2(pos.value);
      r := registry.EmplaceOrUpdate("position", entity, PositionCreate(v, time), Updater(v, time));
    } else if registry.Has("position", entity) {
      r := registry.Remove("position", entity);
    }
  }

  lemma KeepInStep(live: seq<Entity>, j: nat, seen: set<Entity>)
    requires Distinct(live) && j < |live|
    ensures live[j] in seen ==> KeepIn(live[..j + 1], seen) + live[j + 1..] == KeepIn(live[..j], seen) + live[j..]
    ensures live[j] !in seen ==>
      KeepIn(live[..j + 1], seen) + live[j + 1..] == Without(KeepIn(live[..j], seen) + live[j..], live[j])
  {
    var x := live[j];
    assert live[..j + 1][..j] == live[..j];
    assert live[j..] == [x] + live[j + 1..];
    assert Distinct(live[..j]) && Distinct(live[j + 1..]);
    assert x !in live[..j] && x !in live[j + 1..];
    if x !in seen {
      WithoutConcat(KeepIn(live[..j], seen), live[j..], x);
      assert Without(live[j..], x) == Without(live[j + 1..], x);
    }
  }

  /** The first loop of `handleState`: insert each id that is not live,
      handle its components, and remember it in `seen`. */
  method ApplyDescriptors(registry: Registry<Component>, es: seq<EntityDescriptor>, time: int)
    returns (seen: set<Entity>)
    requires registry.Valid()
    modifies registry
    ensures registry.Valid()
    ensures registry.State() == Applied(old(registry.State()), es, time)
    ensures seen == Seen(es)
  {
    ghost var st0 := registry.State();
    seen := {};
    for n := 0 to |es|
      invariant registry.Valid()
      invariant registry.State() == Applied(st0, es[..n], time)
      invariant seen == Seen(es[..n])
    {
      var d := es[n];
      assert es[..n + 1][..n] == es[..n];
      if !registry.Alive(d.i) {
        var r := registry.Insert(d.i);
        if d.c.Some? {
          r := HandleComponents(registry, d.i, d.c.value, time);
        }
      } else {
        if d.c.Some? {
          var r := HandleComponents(registry, d.i, d.c.value, time);
        }
      }
      seen := seen + {d.i};
    }
    assert es[..|es|] == es;
  }

  /** The second loop of `handleState`: walk `view([])` and destroy every
      live entity not in `seen`. The view is taken before the walk: deleting
      the entry a JavaScript `Set` iterator is on does not disturb the
      entries after it. */
  method DestroyUnseen(registry: Registry<Component>, seen: set<Entity>)
    requires registry.Valid()
    modifies registry
    ensures registry.Valid()
    ensures registry.State() == Pruned(old(registry.State()), seen)
  {
    var view := registry.View([]);
    ViewAll(registry.components, registry.entities);
    ghost var live := registry.entities;
    ghost var st0 := registry.State();
    for j := 0 to |view|
      invariant registry.Valid()
      invariant registry.components == st0.components && registry.entitySequence == st0.sequence
      invariant registry.entities == KeepIn(live[..j], seen) + live[j..]
    {
      var entity := view[j].entity;
      KeepInStep(live, j, seen);
      if entity !in seen {
        registry.Destroy(entity);
      }
    }
    assert live[..|live|] == live;
  }

  /** `handleState`: the two loops in turn. */
  method HandleState(registry: Registry<Component>, data: StatePacket, time: int)
    requires registry.Valid()
    modifies registry
    ensures registry.Valid()
    ensures registry.State() == ApplyState(old(registry.State()), data, time)
  {
    var seen := ApplyDescriptors(registry, data.e, time);
    DestroyUnseen(registry, seen);
  }

  /** `handleId`: it only logs the id. */
  method HandleId(registry: Registry<Component>, data: IdPacket, time: int)
    ensures registry.State() == old(registry.State())
  {
  }

  // ---------------------------------------------------------------------
  // Opcodes and the handler table

  /** `Server.Opcode`. */
  datatype ServerOpcode = ID | STATE

  function ServerValue(o: ServerOpcode): int {
    match o
    case ID => 0
    case STATE => 1
  }

  function ServerName(o: ServerOpcode): string {
    match o
    case ID => "ID"
    case STATE => "STATE"
  }

  /** `Client.Opcode`. */
  datatype ClientOpcode = INPUT

  function ClientValue(o: ClientOpcode): int {
    match o
    case INPUT => 0
  }

  function ClientName(o: ClientOpcode): string {
    match o
    case INPUT => "INPUT"
  }

  /** The handler functions in the table. */
  datatype HandlerFn = IdHandler | StateHandler

  /** `Server.Handler`: an opcode and a function, or none. */
  datatype Handler = Handler(opcode: int, fn: Option<HandlerFn>)

  /** `HANDLER_TABLE`, indexed by opcode. */
  const HandlerTable: seq<Handler> := [Handler(0, Some(IdHandler)), Handler(1, Some(StateHandler))]

  /** `DEFAULT_HANDLER`: opcode -1 and no function. */
  const DefaultHandler: Handler := Handler(-1, None)

  /** `getHandler`: the table entry, or the default handler for an opcode
      with no entry; it never returns `null`. */
  function GetHandler(opcode: int): (h: Handler)
    ensures h.fn.Some? <==> opcode == ServerValue(ID) || opcode == ServerValue(STATE)
    ensures h.fn.Some? ==> h.opcode == opcode
    ensures h.fn == Some(IdHandler) <==> opcode == ServerValue(ID)
    ensures h.fn == Some(StateHandler) <==> opcode == ServerValue(STATE)
    ensures h.fn.None? ==> h == DefaultHandler
  {
    if 0 <= opcode < |HandlerTable| then HandlerTable[opcode] else DefaultHandler
  }

  /** `Server.toString`: the enum's reverse mapping names each opcode by
      its member, and gives "NULL" for a number that is no opcode. */
  function ServerToString(opcode: int): (r: string)
    ensures r != "NULL" <==> exists o :: ServerValue(o) == opcode
    ensures forall o :: ServerValue(o) == opcode ==> r == ServerName(o)
  {
    if opcode == 0 then
      assert ServerValue(ID) == opcode;
      "ID"
    else if opcode == 1 then
      assert ServerValue(STATE) == opcode;
      "STATE"
    else "NULL"
  }

  /** `Client.toString`, the same reverse mapping for the client's opcodes. */
  function ClientToString(opcode: int): (r: string)
    ensures r != "NULL" <==> exists o :: ClientValue(o) == opcode
    ensures forall o :: ClientValue(o) == opcode ==> r == ClientName(o)
  {
    if opcode == 0 then
      assert ClientValue(INPUT) == opcode;
      "INPUT"
    else "NULL"
  }

  /** What a packet's `d` field can decode to. */
  datatype Payload = IdData(id: IdPacket) | StateData(state: StatePacket)

  /** `Handler.call`: nothing without a function; the state handler runs on a
      state payload. A payload of the other shape makes the handler read a
      field that is not there, which is reported as `Fail(())`. */
  method Call(h: Handler, registry: Registry<Component>, data: Payload, time: int) returns (r: Outcome<()>)
    requires registry.Valid()
    modifies registry
    ensures registry.Valid()
    ensures r.Fail? <==> h.fn == Some(StateHandler) && !data.StateData?
    ensures registry.State() ==
      if h.fn == Some(StateHandler) && data.StateData? then ApplyState(old(registry.State()), data.state, time)
      else old(registry.State())
  {
    if h.fn.None? {
      return Pass;
    }
    match h.fn.value {
      case IdHandler =>
        r := Pass;
      case StateHandler =>
        if !data.StateData? {
          return Fail(());
        }
        HandleState(registry, data.state, time);
        r := Pass;
    }
  }
}
