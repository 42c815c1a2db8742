/** The entity/component registry of src/core/ECS.ts.

    The registry keeps the live entities in a JavaScript `Set` (insertion
    order) and one `Map` per component type name from entity to component.
    The model keeps the live set as a duplicate-free sequence and the storage
    as a map of maps. `Store` is the registry's abstract value; its member
    functions are the state transitions the `Registry` methods perform, and
    the lemmas below state what the source promises about them. */
module ECS {
  import opened Wrappers

  /** An entity is a plain JavaScript number; the model uses the integers. */
  type Entity = int

  /** The two kinds of `Error` the registry throws. */
  datatype Error =
    | DuplicateEntity(entity: Entity)               // insert of a live id
    | DeadEntity(typeName: string, entity: Entity)  // a component operation on a dead id

  predicate Distinct(s: seq<Entity>) {
    forall i, j :: 0 <= i < j < |s| ==> s[i] != s[j]
  }

  /** `Set.add`: append unless already present. */
  function Added(s: seq<Entity>, x: Entity): (r: seq<Entity>)
    ensures forall y :: y in r <==> y in s || y == x
    ensures Distinct(s) ==> Distinct(r)
  {
    if x in s then s else s + [x]
  }

  /** `Set.delete`: the sequence without `x`, order otherwise kept. */
  function Without(s: seq<Entity>, x: Entity): (r: seq<Entity>)
    ensures forall y :: y in r <==> y in s && y != x
    ensures x !in s ==> r == s
    ensures Distinct(s) ==> Distinct(r)
    ensures Distinct(s) && x in s ==> |r| == |s| - 1
    decreases |s|
  {
    if s == [] then []
    else if s[0] == x then Without(s[1..], x)
    else
      assert Distinct(s) ==> Distinct(s[1..]) && s[0] !in s[1..];
      [s[0]] + Without(s[1..], x)
  }

  lemma {:induction false} WithoutConcat(a: seq<Entity>, b: seq<Entity>, x: Entity)
    ensures Without(a + b, x) == Without(a, x) + Without(b, x)
    decreases |a|
  {
    if a != [] {
      assert (a + b)[0] == a[0];
      assert (a + b)[1..] == a[1..] + b;
      WithoutConcat(a[1..], b, x);
      if a[0] == x {
        assert Without(a, x) == Without(a[1..], x);
        assert Without(a + b, x) == Without(a[1..] + b, x);
      } else {
        assert Without(a, x) == [a[0]] + Without(a[1..], x);
        assert Without(a + b, x) == [a[0]] + Without(a[1..] + b, x);
      }
    } else {
      assert a + b == b;
    }
  }

  /** A duplicate-free sequence has as many elements as its set. */
  lemma {:induction false} DistinctCard(s: seq<Entity>)
    requires Distinct(s)
    ensures |set x | x in s| == |s|
    decreases |s|
  {
    if s != [] {
      var rest := s[1..];
      DistinctCard(rest);
      assert (set x | x in s) == {s[0]} + (set x | x in rest);
      assert s[0] !in rest;
    }
  }

  /** The registry's abstract value: the fields of `ECS.Registry`. */
  datatype Store<C> = Store(sequence: Entity, entities: seq<Entity>, components: map<string, map<Entity, C>>)
  {
    predicate Alive(e: Entity) {
      e in entities
    }

    predicate Has(typeName: string, e: Entity) {
      typeName in components && e in components[typeName]
    }

    /** The component stored for (typeName, e), if any. */
    function Slot(typeName: string, e: Entity): Option<C> {
      if Has(typeName, e) then Some(components[typeName][e]) else None
    }

    /** `insert` once its liveness check has passed. */
    function Inserted(e: Entity): Store<C> {
      this.(entities := entities + [e])
    }

    /** `create`: hand out `sequence`, bump it and add the id to the live set. */
    function Created(): Store<C> {
      this.(sequence := sequence + 1, entities := Added(entities, sequence))
    }

    /** `destroy`: the cleanup loop walks `Object.keys` of a `Map`, which is
        empty, so only the live set changes. */
    function Destroyed(e: Entity): Store<C> {
      this.(entities := Without(entities, e))
    }

    /** `emplace` once its liveness check has passed: the type's map is
        created on first use. */
    function Emplaced(typeName: string, e: Entity, c: C): Store<C> {
      var storage := if typeName in components then components[typeName] else map[];
      this.(components := components[typeName := storage[e := c]])
    }

    /** `emplace_or_update` once its liveness check has passed. */
    function EmplacedOrUpdated(typeName: string, e: Entity, construct: C, update: C -> C): Store<C> {
      match Slot(typeName, e)
      case None => Emplaced(typeName, e, construct)
      case Some(c) => Emplaced(typeName, e, update(c))
    }

    /** `remove` once its liveness check has passed. */
    function Removed(typeName: string, e: Entity): Store<C> {
      if typeName in components then this.(components := components[typeName := components[typeName] - {e}])
      else this
    }
  }

  /** The entries `view(types).each` passes to its callback: the entity and
      the components it was given, in the order of `types`. */
  datatype ViewEntry<C> = ViewEntry(entity: Entity, components: seq<C>)

  /** What the inner loop of `viewGenerator` collects for one entity: `None`
      when some type that has storage lacks the entity; types without storage
      are skipped. */
  function Gather<C>(components: map<string, map<Entity, C>>, e: Entity, types: seq<string>): Option<seq<C>>
    decreases |types|
  {
    if types == [] then Some([])
    else
      match Gather(components, e, types[..|types| - 1])
      case None => None
      case Some(cs) =>
        var t := types[|types| - 1];
        if t !in components then Some(cs)
        else if e !in components[t] then None
        else Some(cs + [components[t][e]])
  }

  /** What `viewGenerator` yields over the live entities in order. */
  function ViewOf<C>(components: map<string, map<Entity, C>>, entities: seq<Entity>, types: seq<string>): seq<ViewEntry<C>>
    decreases |entities|
  {
    if entities == [] then []
    else
      var e := entities[|entities| - 1];
      ViewOf(components, entities[..|entities| - 1], types) +
        match Gather(components, e, types)
        case None => []
        case Some(cs) => [ViewEntry(e, cs)]
  }

  /** The reference for `Gather`: the entity is in every map that exists. */
  predicate Matches<C>(components: map<string, map<Entity, C>>, e: Entity, types: seq<string>) {
    forall t :: t in types && t in components ==> e in components[t]
  }

  /** The requested types that have storage, in request order. */
  function Present<C>(components: map<string, map<Entity, C>>, types: seq<string>): (p: seq<string>)
    ensures forall t :: t in p <==> t in components && t in types
    decreases |types|
  {
    if types == [] then []
    else
      var t := types[|types| - 1];
      Present(components, types[..|types| - 1]) + if t in components then [t] else []
  }

  function Entities<C>(view: seq<ViewEntry<C>>): (r: seq<Entity>)
    ensures |r| == |view| && forall i :: 0 <= i < |view| ==> r[i] == view[i].entity
  {
    seq(|view|, i requires 0 <= i < |view| => view[i].entity)
  }

  /** The inner loop skips an entity exactly when it misses a type that has
      storage, and otherwise yields its components in the order of `types`,
      one per type that has storage. */
  lemma {:induction false} GatherSpec<C>(components: map<string, map<Entity, C>>, e: Entity, types: seq<string>)
    ensures Gather(components, e, types).Some? <==> Matches(components, e, types)
    ensures Gather(components, e, types).Some? ==>
      var cs := Gather(components, e, types).value;
      var p := Present(components, types);
      |cs| == |p| && forall j :: 0 <= j < |cs| ==> e in components[p[j]] && cs[j] == components[p[j]][e]
    decreases |types|
  {
    if types != [] {
      var init := types[..|types| - 1];
      var t := types[|types| - 1];
      GatherSpec(components, e, init);
      assert forall u :: u in types <==> u in init || u == t;
    }
  }

  /** Views of consecutive runs of entities concatenate: the view keeps the
      live set's insertion order. */
  lemma {:induction false} ViewOfConcat<C>(components: map<string, map<Entity, C>>, a: seq<Entity>, b: seq<Entity>, types: seq<string>)
    ensures ViewOf(components, a + b, types) == ViewOf(components, a, types) + ViewOf(components, b, types)
    decreases |b|
  {
    if b == [] {
      assert a + b == a;
    } else {
      var init := b[..|b| - 1];
      assert (a + b)[..|a + b| - 1] == a + init;
      ViewOfConcat(components, a, init, types);
    }
  }

  /** `view(types)` yields exactly the entities that are live and match, each
      with the components `Gather` collects for it. */
  lemma {:induction false} ViewMembership<C>(components: map<string, map<Entity, C>>, entities: seq<Entity>, types: seq<string>)
    ensures forall x :: x in Entities(ViewOf(components, entities, types)) <==> x in entities && Matches(components, x, types)
    ensures forall v :: v in ViewOf(components, entities, types) ==> Gather(components, v.entity, types) == Some(v.components)
    decreases |entities|
  {
    if entities != [] {
      var init := entities[..|entities| - 1];
      var e := entities[|entities| - 1];
      ViewMembership(components, init, types);
      GatherSpec(components, e, types);
      assert forall x :: x in entities <==> x in init || x == e;
      forall x ensures x in Entities(ViewOf(components, entities, types)) <==> x in entities && Matches(components, x, types) {
        GatherSpec(components, x, types);
        var V := ViewOf(components, entities, types);
        var W := ViewOf(components, init, types);
        if x in Entities(V) {
          var i :| 0 <= i < |V| && V[i].entity == x;
          if i >= |W| {
            assert x == e;
          } else {
            assert V[i] == W[i];
            assert x in Entities(W);
          }
        }
        if x in entities && Matches(components, x, types) {
          if x in init {
            var i :| 0 <= i < |W| && W[i].entity == x;
            assert V[i] == W[i];
          } else {
            assert V[|V| - 1].entity == x;
          }
        }
      }
    }
  }

  /** `view([])` yields every live entity, in order, with no components. */
  lemma {:induction false} ViewAll<C>(components: map<string, map<Entity, C>>, entities: seq<Entity>)
    ensures |ViewOf(components, entities, [])| == |entities|
    ensures forall i :: 0 <= i < |entities| ==> ViewOf(components, entities, [])[i] == ViewEntry(entities[i], [])
    decreases |entities|
  {
    if entities != [] {
      ViewAll(components, entities[..|entities| - 1]);
    }
  }

  /** Types that have no storage map are ignored rather than filtering, so
      `view(["test"])` before any "test" component exists yields everything. */
  lemma {:induction false} ViewIgnoresUnknownTypes<C>(components: map<string, map<Entity, C>>, entities: seq<Entity>, types: seq<string>)
    requires forall t :: t in types ==> t !in components
    ensures ViewOf(components, entities, types) == ViewOf(components, entities, [])
    decreases |entities|
  {
    if entities != [] {
      ViewIgnoresUnknownTypes(components, entities[..|entities| - 1], types);
      GatherAllAbsent(components, entities[|entities| - 1], types);
    }
  }

  lemma {:induction false} GatherAllAbsent<C>(components: map<string, map<Entity, C>>, e: Entity, types: seq<string>)
    requires forall t :: t in types ==> t !in components
    ensures Gather(components, e, types) == Some([])
    decreases |types|
  {
    if types != [] {
      GatherAllAbsent(components, e, types[..|types| - 1]);
    }
  }

  /** `viewGenerator`: for each live entity, walk the types in order, skip
      types without storage and move on to the next entity at the first type
      whose map lacks it (the labelled `continue`). */
  method ViewGenerator<C>(components: map<string, map<Entity, C>>, entities: seq<Entity>, types: seq<string>)
    returns (view: seq<ViewEntry<C>>)
    ensures view == ViewOf(components, entities, types)
  {
    view := [];
    label nextEntity:
    for n := 0 to |entities|
      invariant view == ViewOf(components, entities[..n], types)
    {
      var entity := entities[n];
      assert entities[..n + 1][..n] == entities[..n];
      var found: seq<C> := [];
      for k := 0 to |types|
        invariant Gather(components, entity, types[..k]) == Some(found)
      {
        var t := types[k];
        assert types[..k + 1][..k] == types[..k];
        if t !in components {
          continue;
        }
        if entity !in components[t] {
          NoneAbsorbs(components, entity, types, k + 1);
          assert types[..|types|] == types;
          continue nextEntity;
        }
        found := found + [components[t][entity]];
      }
      assert types[..|types|] == types;
      view := view + [ViewEntry(entity, found)];
    }
    assert entities[..|entities|] == entities;
  }

  /** Once a prefix of the types rules an entity out, so do all the types. */
  lemma {:induction false} NoneAbsorbs<C>(components: map<string, map<Entity, C>>, e: Entity, types: seq<string>, k: nat)
    requires k <= |types|
    requires Gather(components, e, types[..k]).None?
    ensures Gather(components, e, types).None?
    decreases |types| - k
  {
    if k < |types| {
      assert types[..k + 1][..k] == types[..k];
      NoneAbsorbs(components, e, types, k + 1);
    } else {
      assert types[..k] == types;
    }
  }

  /** `EntityView.each`: one callback call per yielded entry, in order; the
      callback's results stand for its effects. */
  method Each<C, R>(view: seq<ViewEntry<C>>, callback: (Entity, seq<C>) -> R) returns (calls: seq<R>)
    ensures |calls| == |view|
    ensures forall i :: 0 <= i < |view| ==> calls[i] == callback(view[i].entity, view[i].components)
  {
    calls := [];
    for i := 0 to |view|
      invariant |calls| == i
      invariant forall j :: 0 <= j < i ==> calls[j] == callback(view[j].entity, view[j].components)
    {
      calls := calls + [callback(view[i].entity, view[i].components)];
    }
  }

  /** `Registry.id`: the low 16 bits. JavaScript's `&` works on the 32-bit
      pattern of the number (ToInt32); `Bits` is that pattern. */
  function Bits(e: Entity): bv32 {
    (e % 0x1_0000_0000) as bv32
  }

  /** The id is the 32-bit pattern modulo 65536. */
  function Id(e: Entity): (r: bv32)
    ensures r < 0x1_0000 && r == Bits(e) % 0x1_0000
  {
    Bits(e) & 0x0000_FFFF
  }

  /** `Registry.version`: the high 16 bits, not shifted down. The id and the
      version split the 32-bit pattern into two disjoint halves. */
  function Version(e: Entity): (r: bv32)
    ensures r & 0x0000_FFFF == 0
    ensures r | Id(e) == Bits(e) && r & Id(e) == 0
  {
    Bits(e) & 0xFFFF_0000
  }

  /** Every id the sequence hands out before 65536 has version 0. */
  lemma SmallEntityHasVersionZero(e: Entity)
    requires 0 <= e < 0x1_0000
    ensures Version(e) == 0 && Id(e) == Bits(e)
  {
    assert Bits(e) < 0x1_0000;
  }

  /** Successive `create` calls return the current sequence value and the
      next one: distinct, increasing and both live afterwards. */
  lemma CreateTwice<C>(st: Store<C>)
    ensures var st1 := st.Created(); var st2 := st1.Created();
      st1.sequence == st.sequence + 1 && st2.sequence == st.sequence + 2 &&
      st2.Alive(st.sequence) && st2.Alive(st1.sequence) &&
      st2.components == st.components
  {
  }

  /** `create` does not skip ids made live by `insert`: after `insert(0)` the
      first `create` returns 0 again and the live set does not grow. */
  lemma CreateCanReturnLiveId()
    ensures var st: Store<int> := Store(0, [0], map[]);
      st.Alive(st.sequence) && st.Created().entities == st.entities
  {
  }

  /** `emplace` then `get`: the value is stored under (typeName, e), the
      type's map exists, and no other slot or the live set changes. */
  lemma EmplaceThenSlot<C>(st: Store<C>, typeName: string, e: Entity, c: C)
    ensures var st' := st.Emplaced(typeName, e, c);
      st'.Slot(typeName, e) == Some(c) && typeName in st'.components &&
      st'.entities == st.entities && st'.sequence == st.sequence &&
      st'.components.Keys == st.components.Keys + {typeName} &&
      forall t, x :: (t, x) != (typeName, e) ==> st'.Slot(t, x) == st.Slot(t, x)
  {
  }

  /** `emplace_or_update` constructs when the slot is empty and otherwise
      applies the updater to what is there; nothing else changes. */
  lemma EmplaceOrUpdateSlot<C>(st: Store<C>, typeName: string, e: Entity, construct: C, update: C -> C)
    ensures var st' := st.EmplacedOrUpdated(typeName, e, construct, update);
      st'.Slot(typeName, e) == Some(match st.Slot(typeName, e) case None => construct case Some(c) => update(c)) &&
      st'.entities == st.entities && st'.sequence == st.sequence &&
      st'.components.Keys == st.components.Keys + {typeName} &&
      forall t, x :: (t, x) != (typeName, e) ==> st'.Slot(t, x) == st.Slot(t, x)
  {
  }

  /** `remove` clears only (typeName, e), and is a no-op when the type's map
      was never created. */
  lemma RemoveOnlySlot<C>(st: Store<C>, typeName: string, e: Entity)
    ensures var st' := st.Removed(typeName, e);
      st'.Slot(typeName, e) == None &&
      st'.entities == st.entities && st'.sequence == st.sequence &&
      st'.components.Keys == st.components.Keys &&
      (typeName !in st.components ==> st' == st) &&
      forall t, x :: (t, x) != (typeName, e) ==> st'.Slot(t, x) == st.Slot(t, x)
  {
  }

  /** `destroy` removes a live entity from the live set (one fewer) and keeps
      the rest of the live set in order, but every component survives. */
  lemma DestroyKeepsComponents<C>(st: Store<C>, e: Entity)
    requires Distinct(st.entities)
    ensures var st' := st.Destroyed(e);
      !st'.Alive(e) &&
      (forall x :: x != e ==> (st'.Alive(x) <==> st.Alive(x))) &&
      |st'.entities| == (if st.Alive(e) then |st.entities| - 1 else |st.entities|) &&
      st'.components == st.components &&
      forall t :: st'.Has(t, e) == st.Has(t, e)
  {
  }

  /** The registry object. The fields are those of `ECS.Registry`. */
  class Registry<C> {
    var entitySequence: Entity
    var entities: seq<Entity>
    var components: map<string, map<Entity, C>>

    /** The live set has no duplicates (it is a `Set` in the source). */
    ghost predicate Valid()
      reads this
    {
      Distinct(entities)
    }

    function State(): Store<C>
      reads this
    {
      Store(entitySequence, entities, components)
    }

    constructor ()
      ensures Valid() && State() == Store(0, [], map[])
    {
      entitySequence := 0;
      entities := [];
      components := map[];
    }

    /** `insert`: throw for a live id, otherwise add it to the live set. */
    method Insert(entity: Entity) returns (r: Outcome<Error>)
      requires Valid()
      modifies this
      ensures Valid()
      ensures r == if old(State()).Alive(entity) then Fail(DuplicateEntity(entity)) else Pass
      ensures State() == if r.Pass? then old(State()).Inserted(entity) else old(State())
    {
      if entity in entities {
        return Fail(DuplicateEntity(entity));
      }
      entities := entities + [entity];
      r := Pass;
    }

    /** `create`: the post-increment of `entitySequence`. */
    method Create() returns (entity: Entity)
      requires Valid()
      modifies this
      ensures Valid()
      ensures entity == old(entitySequence) && State() == old(State()).Created()
    {
      entity := entitySequence;
      entitySequence := entitySequence + 1;
      entities := Added(entities, entity);
    }

    /** `alive`: exactly the entities `get` does not throw for. */
    function Alive(entity: Entity): (r: bool)
      reads this
      ensures r <==> forall typeName :: Get(typeName, entity).Ok?
      ensures !r ==> forall typeName :: Get(typeName, entity) == Err(DeadEntity(typeName, entity))
    {
      assert Get("", entity).Ok? <==> entity in entities;
      entity in entities
    }

    /** `destroy`: see `Store.Destroyed`. */
    method Destroy(entity: Entity)
      requires Valid()
      modifies this
      ensures Valid()
      ensures State() == old(State()).Destroyed(entity)
    {
      entities := Without(entities, entity);
    }

    /** `get`: throws for a dead entity, `null` when the slot is empty. */
    function Get(typeName: string, entity: Entity): (r: Result<Option<C>, Error>)
      reads this
      ensures r.Err? <==> !State().Alive(entity)
      ensures r.Err? ==> r.error == DeadEntity(typeName, entity)
      ensures r == Ok(None) <==> State().Alive(entity) && !State().Has(typeName, entity)
      ensures r.Ok? && r.value.Some? ==> State().Slot(typeName, entity) == r.value
    {
      if entity !in entities then Err(DeadEntity(typeName, entity))
      else if typeName in components && entity in components[typeName] then Ok(Some(components[typeName][entity]))
      else Ok(None)
    }

    /** `has`: a pure existence check that never throws, live or not. */
    function Has(typeName: string, entity: Entity): (r: bool)
      reads this
      ensures r <==> State().Slot(typeName, entity).Some?
      ensures State().Alive(entity) ==> (r <==> Get(typeName, entity).Ok? && Get(typeName, entity).value.Some?)
    {
      typeName in components && entity in components[typeName]
    }

    /** `emplace`: throw for a dead entity, otherwise set the slot. */
    method Emplace(typeName: string, entity: Entity, component: C) returns (r: Outcome<Error>)
      requires Valid()
      modifies this
      ensures Valid()
      ensures r == if old(State()).Alive(entity) then Pass else Fail(DeadEntity(typeName, entity))
      ensures State() == if r.Pass? then old(State()).Emplaced(typeName, entity, component) else old(State())
    {
      if entity !in entities {
        return Fail(DeadEntity(typeName, entity));
      }
      if typeName !in components {
        components := components[typeName := map[]];
      }
      components := components[typeName := components[typeName][entity := component]];
      r := Pass;
    }

    /** `emplace_or_update`: `construct` is `constructor(...args)`, and
        `update` gives the component `updater(component, ...args)` leaves. */
    method EmplaceOrUpdate(typeName: string, entity: Entity, construct: C, update: C -> C) returns (r: Outcome<Error>)
      requires Valid()
      modifies this
      ensures Valid()
      ensures r == if old(State()).Alive(entity) then Pass else Fail(DeadEntity(typeName, entity))
      ensures State() == if r.Pass? then old(State()).EmplacedOrUpdated(typeName, entity, construct, update) else old(State())
    {
      if entity !in entities {
        return Fail(DeadEntity(typeName, entity));
      }
      if typeName !in components {
        components := components[typeName := map[]];
      }
      var list := components[typeName];
      if entity !in list {
        components := components[typeName := list[entity := construct]];
      } else {
        components := components[typeName := list[entity := update(list[entity])]];
      }
      r := Pass;
    }

    /** `remove`: throw for a dead entity, return early without storage. */
    method Remove(typeName: string, entity: Entity) returns (r: Outcome<Error>)
      requires Valid()
      modifies this
      ensures Valid()
      ensures r == if old(State()).Alive(entity) then Pass else Fail(DeadEntity(typeName, entity))
      ensures State() == if r.Pass? then old(State()).Removed(typeName, entity) else old(State())
    {
      if entity !in entities {
        return Fail(DeadEntity(typeName, entity));
      }
      if typeName !in components {
        return Pass;
      }
      components := components[typeName := components[typeName] - {entity}];
      r := Pass;
    }

    /** `view`: the entries `viewGenerator` yields over the current state. */
    method View(types: seq<string>) returns (view: seq<ViewEntry<C>>)
      ensures view == ViewOf(components, entities, types)
    {
      view := ViewGenerator(components, entities, types);
    }

    /** `size`: the number of live entities. */
    function Size(): (n: nat)
      reads this
      requires Valid()
      ensures n == |set x | x in entities|
    {
      DistinctCard(entities);
      |entities|
    }
  }
}
