/** RuntimeMaterialSystem: a get-or-create cache of generated materials keyed
    by MaterialLookup, filled while two entity passes assign the materials
    and switch the entities' lookup flags off. Unity objects are opaque
    tokens: a source material, texture or sprite is a `nat` with 0 for the
    null reference, a generated Material is a fresh token, and a
    BatchMaterialID is a `nat` with 0 for the default (unregistered) ID. */
module RuntimeMaterials {
  import opened Wrappers

  /** UnityObjectRef: 0 is the null reference. */
  type ObjectRef = nat

  /** The cache key; Equals compares the three references field by field,
      which is datatype equality here. */
  datatype MaterialLookup = MaterialLookup(srcMaterial: ObjectRef, texture: ObjectRef, sprite: ObjectRef)

  /** A material generated by `new Material(src) { mainTexture = texture }`;
      the token tells generated materials apart. */
  datatype Material = Material(token: nat, source: ObjectRef, mainTexture: ObjectRef)

  /** The cached pair. */
  datatype BatchMaterial = BatchMaterial(material: Material, materialID: nat)

  /** The MaterialMeshInfo component (only its MaterialID is used). */
  datatype MaterialMeshInfo = MaterialMeshInfo(materialID: nat)

  /** The RuntimeMaterial component: its Value is None until assigned. */
  datatype RuntimeMaterial = RuntimeMaterial(value: Option<Material>)

  /** The components of one entity the system looks at: its
      RuntimeMaterialLookup and that component's enabled bit, and the two
      optional components the passes write. Prefabs are included in both
      queries, so `isPrefab` never affects what happens. */
  datatype EntityData = EntityData(
    lookup: MaterialLookup,
    enabled: bool,
    isPrefab: bool,
    meshInfo: Option<MaterialMeshInfo>,
    runtimeMaterial: Option<RuntimeMaterial>)

  /** The cache together with the token source for new materials and the
      number of materials the graphics system has registered. */
  datatype CacheState = CacheState(materials: map<MaterialLookup, BatchMaterial>, nextToken: nat, registered: nat)

  /** What the cache keeps: every cached material is a token already
      handed out, no two lookups share a material, every registered ID
      was handed out by the graphics system and no two lookups share one. */
  ghost predicate Valid(c: CacheState)
  {
    (forall l :: l in c.materials ==> c.materials[l].material.token < c.nextToken) &&
    (forall l :: l in c.materials ==> c.materials[l].materialID <= c.registered) &&
    (forall l, l' :: l in c.materials && l' in c.materials && l != l' ==>
       c.materials[l].material != c.materials[l'].material) &&
    (forall l, l' :: l in c.materials && l' in c.materials && l != l' && c.materials[l].materialID != 0 ==>
       c.materials[l].materialID != c.materials[l'].materialID)
  }

  /** Every entry of `before` is still in `after`, unchanged. */
  ghost predicate Extends(before: map<MaterialLookup, BatchMaterial>, after: map<MaterialLookup, BatchMaterial>)
  {
    forall l :: l in before ==> l in after && after[l] == before[l]
  }

  /** GetBatchMaterial: the cached entry when the lookup is present;
      otherwise a new material from the lookup's source and texture, with
      an ID registered only when registerIfMissing, added to the cache. */
  function GetBatchMaterial(c: CacheState, lookup: MaterialLookup, registerIfMissing: bool): (r: (CacheState, BatchMaterial))
    ensures lookup in r.0.materials && r.0.materials[lookup] == r.1
    ensures r.0.materials.Keys == c.materials.Keys + {lookup}
    ensures Extends(c.materials, r.0.materials)
    ensures lookup in c.materials ==> r.0 == c
    ensures lookup !in c.materials ==>
              r.1.material == Material(c.nextToken, lookup.srcMaterial, lookup.texture) &&
              (registerIfMissing <==> r.1.materialID != 0) &&
              (registerIfMissing ==> r.1.materialID == c.registered + 1)
    ensures Valid(c) ==> Valid(r.0)
  {
    if lookup in c.materials then (c, c.materials[lookup])
    else
      var mat := Material(c.nextToken, lookup.srcMaterial, lookup.texture);
      var registered := if registerIfMissing then c.registered + 1 else c.registered;
      var matId := if registerIfMissing then registered else 0;
      var batchMaterial := BatchMaterial(mat, matId);
      (CacheState(c.materials[lookup := batchMaterial], c.nextToken + 1, registered), batchMaterial)
  }

  /** The first query (MaterialMeshInfo with an enabled lookup) and the
      second (RuntimeMaterial with an enabled lookup). */
  predicate Matches(e: EntityData, meshPass: bool)
  {
    e.enabled && (if meshPass then e.meshInfo.Some? else e.runtimeMaterial.Some?)
  }

  /** An entity after a pass has handled it with the cached pair `b`: the
      ID or the material is written and the lookup is switched off. */
  function Assigned(e: EntityData, b: BatchMaterial, meshPass: bool): EntityData
  {
    if meshPass then e.(meshInfo := Some(MaterialMeshInfo(b.materialID)), enabled := false)
    else e.(runtimeMaterial := Some(RuntimeMaterial(Some(b.material))), enabled := false)
  }

  /** The lookups of the entities a pass matches. */
  function MatchedLookups(es: seq<EntityData>, meshPass: bool): set<MaterialLookup>
  {
    set k | 0 <= k < |es| && Matches(es[k], meshPass) :: es[k].lookup
  }

  /** One entity of a pass: a matched entity is handed the cache's entry
      for its lookup, created if missing; any other is left alone. */
  function Visit(c: CacheState, e: EntityData, meshPass: bool): (r: (CacheState, EntityData))
    ensures Extends(c.materials, r.0.materials)
    ensures r.0.materials.Keys == c.materials.Keys + (if Matches(e, meshPass) then {e.lookup} else {})
    ensures Matches(e, meshPass) ==> r.1 == Assigned(e, r.0.materials[e.lookup], meshPass)
    ensures !Matches(e, meshPass) ==> r == (c, e)
  {
    if Matches(e, meshPass) then
      var step := GetBatchMaterial(c, e.lookup, meshPass);
      (step.0, Assigned(e, step.1, meshPass))
    else (c, e)
  }

  /** One pass over the entities in order: the cache afterwards and the
      entities as the pass leaves them. */
  function PassOver(c: CacheState, es: seq<EntityData>, meshPass: bool): (r: (CacheState, seq<EntityData>))
    ensures |r.1| == |es|
    decreases |es|
  {
    if es == [] then (c, [])
    else
      var front := PassOver(c, es[..|es| - 1], meshPass);
      var step := Visit(front.0, es[|es| - 1], meshPass);
      (step.0, front.1 + [step.1])
  }

  /** A pass keeps every cached entry and adds exactly the matched
      lookups the cache lacked. */
  lemma {:induction false} PassOverCache(c: CacheState, es: seq<EntityData>, meshPass: bool)
    ensures Extends(c.materials, PassOver(c, es, meshPass).0.materials)
    ensures PassOver(c, es, meshPass).0.materials.Keys == c.materials.Keys + MatchedLookups(es, meshPass)
    decreases |es|
  {
    if es != [] {
      var init := es[..|es| - 1];
      var last := es[|es| - 1];
      PassOverCache(c, init, meshPass);
      assert forall k :: 0 <= k < |es| - 1 ==> init[k] == es[k];
      assert MatchedLookups(es, meshPass) ==
             MatchedLookups(init, meshPass) + (if Matches(last, meshPass) then {last.lookup} else {});
    }
  }

  /** A pass hands each matched entity the entry its lookup has in the
      final cache and leaves the other entities alone. */
  lemma {:induction false} PassOverEntities(c: CacheState, es: seq<EntityData>, meshPass: bool)
    ensures var r := PassOver(c, es, meshPass);
      (forall k :: 0 <= k < |es| && Matches(es[k], meshPass) ==>
         es[k].lookup in r.0.materials && r.1[k] == Assigned(es[k], r.0.materials[es[k].lookup], meshPass)) &&
      (forall k :: 0 <= k < |es| && !Matches(es[k], meshPass) ==> r.1[k] == es[k])
    decreases |es|
  {
    if es != [] {
      var init := es[..|es| - 1];
      PassOverEntities(c, init, meshPass);
      var front := PassOver(c, init, meshPass);
      var step := Visit(front.0, es[|es| - 1], meshPass);
      var r := PassOver(c, es, meshPass);
      assert r == (step.0, front.1 + [step.1]);
      forall k | 0 <= k < |es| - 1
        ensures r.1[k] == front.1[k] && init[k] == es[k]
      {
      }
    }
  }

  /** Both halves together. */
  lemma PassOverFacts(c: CacheState, es: seq<EntityData>, meshPass: bool)
    ensures var r := PassOver(c, es, meshPass);
      Extends(c.materials, r.0.materials) &&
      r.0.materials.Keys == c.materials.Keys + MatchedLookups(es, meshPass) &&
      (forall k :: 0 <= k < |es| && Matches(es[k], meshPass) ==>
         es[k].lookup in r.0.materials && r.1[k] == Assigned(es[k], r.0.materials[es[k].lookup], meshPass)) &&
      (forall k :: 0 <= k < |es| && !Matches(es[k], meshPass) ==> r.1[k] == es[k])
  {
    PassOverCache(c, es, meshPass);
    PassOverEntities(c, es, meshPass);
  }

  /** A pass keeps the cache valid. */
  lemma {:induction false} PassOverValid(c: CacheState, es: seq<EntityData>, meshPass: bool)
    requires Valid(c)
    ensures Valid(PassOver(c, es, meshPass).0)
    decreases |es|
  {
    if es != [] {
      PassOverValid(c, es[..|es| - 1], meshPass);
      var front := PassOver(c, es[..|es| - 1], meshPass);
      if Matches(es[|es| - 1], meshPass) {
        var step := GetBatchMaterial(front.0, es[|es| - 1].lookup, meshPass);
      }
    }
  }

  /** OnUpdate: the MaterialMeshInfo pass with registration, then the
      RuntimeMaterial pass without. */
  function Update(c: CacheState, es: seq<EntityData>): (CacheState, seq<EntityData>)
  {
    var first := PassOver(c, es, true);
    PassOver(first.0, first.1, false)
  }

  /** An update keeps every cached entry and the cache's validity, and
      afterwards exactly the enabled entities that have neither component
      still have their lookup switched on. */
  lemma UpdateFacts(c: CacheState, es: seq<EntityData>)
    ensures |Update(c, es).1| == |es|
    ensures Extends(c.materials, Update(c, es).0.materials)
    ensures Valid(c) ==> Valid(Update(c, es).0)
    ensures forall k :: 0 <= k < |es| ==>
              (Update(c, es).1[k].enabled <==> es[k].enabled && es[k].meshInfo.None? && es[k].runtimeMaterial.None?)
  {
    var first := PassOver(c, es, true);
    PassOverFacts(c, es, true);
    PassOverFacts(first.0, first.1, false);
    if Valid(c) {
      PassOverValid(c, es, true);
      PassOverValid(first.0, first.1, false);
    }
  }

  /** Entities with equal lookups that a pass matches receive the same
      entry, whatever their positions. */
  lemma SameLookupSameMaterial(c: CacheState, es: seq<EntityData>, meshPass: bool, i: nat, j: nat)
    requires i < |es| && j < |es| && Matches(es[i], meshPass) && Matches(es[j], meshPass)
    requires es[i].lookup == es[j].lookup
    ensures var after := PassOver(c, es, meshPass).1;
      if meshPass then after[i].meshInfo == after[j].meshInfo
      else after[i].runtimeMaterial == after[j].runtimeMaterial
  {
    PassOverFacts(c, es, meshPass);
  }

  /** In a valid cache, different lookups are given different materials:
      an entity re-enabled with a new lookup gets a new material. */
  lemma DistinctLookupsDistinctMaterials(c: CacheState, l: MaterialLookup, l': MaterialLookup, register: bool, register': bool)
    requires Valid(c) && l != l'
    ensures var first := GetBatchMaterial(c, l, register);
      first.1.material != GetBatchMaterial(first.0, l', register').1.material
  {
    var first := GetBatchMaterial(c, l, register);
    var second := GetBatchMaterial(first.0, l', register');
    assert l in second.0.materials && l' in second.0.materials;
  }

  /** A lookup first cached without registration keeps the default ID:
      a later request that asks for registration gets ID 0 all the same. */
  lemma UnregisteredStaysDefault(c: CacheState, lookup: MaterialLookup)
    requires lookup !in c.materials
    ensures GetBatchMaterial(GetBatchMaterial(c, lookup, false).0, lookup, true).1.materialID == 0
  {
  }

  /** An entity with both components is handled by the first pass only:
      the first pass switches its lookup off, so the second skips it and
      its RuntimeMaterial keeps its old value. */
  lemma BothComponentsOnlyMeshPass(c: CacheState, es: seq<EntityData>, k: nat)
    requires k < |es| && es[k].enabled && es[k].meshInfo.Some? && es[k].runtimeMaterial.Some?
    ensures Update(c, es).1[k].runtimeMaterial == es[k].runtimeMaterial
    ensures Update(c, es).1[k].meshInfo.Some? && !Update(c, es).1[k].enabled
  {
    var first := PassOver(c, es, true);
    PassOverFacts(c, es, true);
    PassOverFacts(first.0, first.1, false);
    assert Matches(es[k], true);
    assert !Matches(first.1[k], false);
  }

  /** A disabled entity is left exactly as it was by an update. */
  lemma DisabledSkipped(c: CacheState, es: seq<EntityData>, k: nat)
    requires k < |es| && !es[k].enabled
    ensures Update(c, es).1[k] == es[k]
  {
    var first := PassOver(c, es, true);
    PassOverFacts(c, es, true);
    PassOverFacts(first.0, first.1, false);
    assert first.1[k] == es[k];
  }

  /** The graphics system's material registry, reduced to how many
      materials it has registered. */
  class EntitiesGraphicsSystem {
    var registered: nat

    constructor ()
      ensures registered == 0
    {
      registered := 0;
    }

    /** RegisterMaterial: a new ID, never the default 0. */
    method RegisterMaterial(mat: Material) returns (id: nat)
      modifies this
      ensures registered == old(registered) + 1 && id == registered
    {
      registered := registered + 1;
      id := registered;
    }
  }

  /** The system, holding the `_materials` dictionary and the token source
      for the materials it creates. */
  class RuntimeMaterialSystem {
    var materials: map<MaterialLookup, BatchMaterial>
    var nextToken: nat

    constructor ()
      ensures materials == map[] && nextToken == 0
    {
      materials := map[];
      nextToken := 0;
    }

    function Cache(graphics: EntitiesGraphicsSystem): CacheState
      reads this, graphics
    {
      CacheState(materials, nextToken, graphics.registered)
    }

    method GetBatchMaterialFor(lookup: MaterialLookup, graphics: EntitiesGraphicsSystem, registerIfMissing: bool)
      returns (batchMaterial: BatchMaterial)
      modifies this, graphics
      ensures (Cache(graphics), batchMaterial) == GetBatchMaterial(old(Cache(graphics)), lookup, registerIfMissing)
    {
      if lookup in materials {
        batchMaterial := materials[lookup];
        return;
      }
      var mat := Material(nextToken, lookup.srcMaterial, lookup.texture);
      nextToken := nextToken + 1;
      var matId := 0;
      if registerIfMissing {
        matId := graphics.RegisterMaterial(mat);
      }
      batchMaterial := BatchMaterial(mat, matId);
      materials := materials[lookup := batchMaterial];
    }

    /** One foreach over the entity array. */
    method RunPass(graphics: EntitiesGraphicsSystem, entities: array<EntityData>, meshPass: bool)
      modifies this, graphics, entities
      ensures (Cache(graphics), entities[..]) == PassOver(old(Cache(graphics)), old(entities[..]), meshPass)
    {
      ghost var start := Cache(graphics);
      ghost var es := entities[..];
      for i := 0 to entities.Length
        invariant forall k :: i <= k < entities.Length ==> entities[k] == es[k]
        invariant (Cache(graphics), entities[..i]) == PassOver(start, es[..i], meshPass)
      {
        assert es[..i + 1][..i] == es[..i] && es[..i + 1][i] == es[i];
        var e := entities[i];
        ghost var before := Cache(graphics);
        if Matches(e, meshPass) {
          var batchMaterial := GetBatchMaterialFor(e.lookup, graphics, meshPass);
          entities[i] := Assigned(e, batchMaterial, meshPass);
        }
        assert (Cache(graphics), entities[i]) == Visit(before, e, meshPass);
        assert entities[..i + 1] == entities[..i] + [entities[i]];
      }
      assert es[..entities.Length] == es;
      assert entities[..entities.Length] == entities[..];
    }

    /** OnUpdate over the world's entities. */
    method OnUpdate(graphics: EntitiesGraphicsSystem, entities: array<EntityData>)
      modifies this, graphics, entities
      ensures (Cache(graphics), entities[..]) == Update(old(Cache(graphics)), old(entities[..]))
    {
      RunPass(graphics, entities, true);
      RunPass(graphics, entities, false);
    }

    /** OnDestroy: every cached material is destroyed, each once; the
        result lists them in the dictionary's enumeration order. */
    method OnDestroy() returns (destroyed: seq<Material>)
      ensures |destroyed| == |materials|
      ensures forall m :: m in destroyed <==> exists l :: l in materials && materials[l].material == m
    {
      destroyed := [];
      var pending := materials.Keys;
      while pending != {}
        invariant pending <= materials.Keys
        invariant |destroyed| == |materials.Keys - pending|
        invariant forall m :: m in destroyed ==> exists l :: l in materials.Keys - pending && materials[l].material == m
        invariant forall l :: l in materials.Keys - pending ==> materials[l].material in destroyed
        decreases |pending|
      {
        var l :| l in pending;
        assert (materials.Keys - (pending - {l})) == (materials.Keys - pending) + {l};
        destroyed := destroyed + [materials[l].material];
        pending := pending - {l};
      }
      assert materials.Keys - {} == materials.Keys;
    }
  }
}
