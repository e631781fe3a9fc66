/** How the mesh compiler finds the material asset of each sub-mesh: the
    optional "MaterialNameToAssetId" mapping of the compiler's JSON section,
    then the material's own name or, failing that, its first diffuse
    texture. */
module MeshMaterials {
  import opened Wrappers
  import opened Json
  import opened AssimpScene
  import opened MeshAsset

  /** Helpers from elsewhere in the toolkit, given as functions. */
  datatype MaterialHelpers = MaterialHelpers(
    assetIdByString: string -> u32,           // StringHelper::getAssetIdByString
    isSourceAssetIdAsString: string -> bool)  // StringHelper::isSourceAssetIdAsString

  /** `AI_DEFAULT_MATERIAL_NAME`: the name Assimp gives the material it makes
      up for meshes without one. */
  const DEFAULT_MATERIAL_NAME := "DefaultMaterial"

  // ---------------------------------------------------------------------
  // The material-name map
  // ---------------------------------------------------------------------

  /** The material name of a mapping entry, as the map's `std::string` key
      holds it: up to its first NUL. */
  function MaterialName(e: Member): string {
    CString(e.name)
  }

  /** The asset-ID string of a mapping entry, as `std::string` holds it. */
  function AssetIdString(e: Member): string {
    CString(GetString(e.value))
  }

  /** The mapping entries in declaration order, each to the asset ID of its
      value; a name seen before throws, and so does an empty asset-ID string
      for a new name. */
  function MaterialNameMap(h: MaterialHelpers, entries: seq<Member>, m: map<string, u32>): Result<map<string, u32>, MeshError>
    decreases |entries|
  {
    if |entries| == 0 then Success(m)
    else
      var e := entries[0];
      if MaterialName(e) in m then Failure(DuplicateMaterialName(MaterialName(e)))
      else if |AssetIdString(e)| == 0 then Failure(MissingMaterialAssetId(MaterialName(e)))
      else MaterialNameMap(h, entries[1..], m[MaterialName(e) := h.assetIdByString(AssetIdString(e))])
  }

  /** Two entry names that differ only after a NUL are one key: the second
      is rejected as a duplicate of the part before the NUL. */
  lemma NamesCollideAfterNul(h: MaterialHelpers)
    ensures MaterialNameMap(h, [Member("a\0x", String("m")), Member("a\0y", String("n"))], map[]) == Failure(DuplicateMaterialName("a"))
  {
    assert CString("\0x") == "" && CString("\0y") == "";
    assert CString("a\0x") == "a" && CString("a\0y") == "a";
    assert CString("m") == "m" by { assert CString("") == ""; }
  }

  /** The mapping entries of the compiler's section: none without the
      member. */
  function MappingEntries(compilerSection: Value): seq<Member> {
    if HasMember(compilerSection, "MaterialNameToAssetId") then Members(Get(compilerSection, "MaterialNameToAssetId")) else []
  }

  /** The name of entry `k` is already taken when its turn comes: by the
      initial map or by an earlier entry. */
  predicate Seen(entries: seq<Member>, m: map<string, u32>, k: nat)
    requires k < |entries|
  {
    MaterialName(entries[k]) in m || exists j :: 0 <= j < k && MaterialName(entries[j]) == MaterialName(entries[k])
  }

  /** An entry the map accepts after the ones before it: its name is new and
      its asset-ID string is not empty. */
  predicate Accepted(entries: seq<Member>, m: map<string, u32>, k: nat)
    requires k < |entries|
  {
    !Seen(entries, m, k) && |AssetIdString(entries[k])| > 0
  }

  /** The error for the rejected entry `k`. */
  function Rejection(entries: seq<Member>, m: map<string, u32>, k: nat): MeshError
    requires k < |entries|
  {
    if Seen(entries, m, k) then DuplicateMaterialName(MaterialName(entries[k])) else MissingMaterialAssetId(MaterialName(entries[k]))
  }

  /** After an accepted first entry, entry `i + 1` fares as entry `i` of the
      rest does over the map that has the first name. */
  lemma SeenShift(entries: seq<Member>, m: map<string, u32>, m': map<string, u32>, i: nat)
    requires i + 1 < |entries|
    requires m'.Keys == m.Keys + {MaterialName(entries[0])}
    ensures Seen(entries, m, i + 1) <==> Seen(entries[1..], m', i)
    ensures Accepted(entries, m, i + 1) <==> Accepted(entries[1..], m', i)
    ensures Rejection(entries, m, i + 1) == Rejection(entries[1..], m', i)
  {
    var rest := entries[1..];
    assert entries[i + 1] == rest[i];
    if exists j :: 0 <= j < i + 1 && MaterialName(entries[j]) == MaterialName(entries[i + 1]) {
      var j :| 0 <= j < i + 1 && MaterialName(entries[j]) == MaterialName(entries[i + 1]);
      if j > 0 { assert rest[j - 1] == entries[j]; }
    }
    if exists j :: 0 <= j < i && MaterialName(rest[j]) == MaterialName(rest[i]) {
      var j :| 0 <= j < i && MaterialName(rest[j]) == MaterialName(rest[i]);
      assert entries[j + 1] == rest[j];
    }
  }

  /** The map is built exactly when every entry is accepted. */
  lemma {:induction false} MaterialNameMapSucceeds(h: MaterialHelpers, entries: seq<Member>, m: map<string, u32>)
    ensures MaterialNameMap(h, entries, m).Success? <==> forall k :: 0 <= k < |entries| ==> Accepted(entries, m, k)
    decreases |entries|
  {
    if |entries| > 0 && Accepted(entries, m, 0) {
      var e := entries[0];
      var rest := entries[1..];
      var m' := m[MaterialName(e) := h.assetIdByString(AssetIdString(e))];
      MaterialNameMapSucceeds(h, rest, m');
      forall i | 0 <= i < |rest| ensures Accepted(entries, m, i + 1) <==> Accepted(rest, m', i) {
        SeenShift(entries, m, m', i);
      }
      if forall i :: 0 <= i < |rest| ==> Accepted(rest, m', i) {
        forall k | 0 <= k < |entries| ensures Accepted(entries, m, k) {
          if k > 0 { assert Accepted(rest, m', k - 1); }
        }
      }
    }
  }

  /** The names of the entries. */
  function EntryNames(entries: seq<Member>): (names: set<string>)
    ensures forall k :: 0 <= k < |entries| ==> MaterialName(entries[k]) in names
    ensures forall n :: n in names ==> exists k :: 0 <= k < |entries| && MaterialName(entries[k]) == n
  {
    set k | 0 <= k < |entries| :: MaterialName(entries[k])
  }

  /** The names of the entries are the first entry's and those of the
      rest. */
  lemma EntryNamesFirst(entries: seq<Member>)
    requires |entries| > 0
    ensures EntryNames(entries) == {MaterialName(entries[0])} + EntryNames(entries[1..])
  {
    var rest := entries[1..];
    forall k | 0 <= k < |entries| ensures MaterialName(entries[k]) in {MaterialName(entries[0])} + EntryNames(rest) {
      if k > 0 { assert entries[k] == rest[k - 1]; }
    }
    forall k | 0 <= k < |rest| ensures MaterialName(rest[k]) in EntryNames(entries) {
      assert rest[k] == entries[k + 1];
    }
  }

  /** The map `r` built from `entries` over `m` keeps every entry of `m`. */
  lemma {:induction false} BuiltMapKeeps(h: MaterialHelpers, entries: seq<Member>, m: map<string, u32>, r: map<string, u32>)
    requires MaterialNameMap(h, entries, m) == Success(r)
    ensures forall n :: n in m ==> n in r && r[n] == m[n]
    decreases |entries|
  {
    if |entries| > 0 {
      var e := entries[0];
      var m' := m[MaterialName(e) := h.assetIdByString(AssetIdString(e))];
      BuiltMapKeeps(h, entries[1..], m', r);
    }
  }

  /** The keys of the map `r` built from `entries` over `m` are those of `m`
      and the entry names. */
  lemma {:induction false} BuiltMapKeys(h: MaterialHelpers, entries: seq<Member>, m: map<string, u32>, r: map<string, u32>)
    requires MaterialNameMap(h, entries, m) == Success(r)
    ensures r.Keys == m.Keys + EntryNames(entries)
    decreases |entries|
  {
    if |entries| > 0 {
      var e := entries[0];
      var m' := m[MaterialName(e) := h.assetIdByString(AssetIdString(e))];
      BuiltMapKeys(h, entries[1..], m', r);
      EntryNamesFirst(entries);
    }
  }

  /** The map `r` built from `entries` maps every entry name to the asset ID
      of its entry's string. */
  lemma {:induction false} BuiltMapValues(h: MaterialHelpers, entries: seq<Member>, m: map<string, u32>, r: map<string, u32>)
    requires MaterialNameMap(h, entries, m) == Success(r)
    ensures forall k :: 0 <= k < |entries| ==> MaterialName(entries[k]) in r && r[MaterialName(entries[k])] == h.assetIdByString(AssetIdString(entries[k]))
    decreases |entries|
  {
    if |entries| > 0 {
      var e := entries[0];
      var rest := entries[1..];
      var m' := m[MaterialName(e) := h.assetIdByString(AssetIdString(e))];
      BuiltMapValues(h, rest, m', r);
      BuiltMapKeeps(h, rest, m', r);
      forall k | 0 < k < |entries| ensures MaterialName(entries[k]) in r && r[MaterialName(entries[k])] == h.assetIdByString(AssetIdString(entries[k])) {
        assert entries[k] == rest[k - 1];
      }
    }
  }

  /** A built map keeps the initial map and adds every name of an entry, and
      only those, each to the asset ID of its entry's string. */
  lemma MaterialNameMapContents(h: MaterialHelpers, entries: seq<Member>, m: map<string, u32>)
    requires MaterialNameMap(h, entries, m).Success?
    ensures var r := MaterialNameMap(h, entries, m).value;
            && r.Keys == m.Keys + EntryNames(entries)
            && (forall k :: 0 <= k < |entries| ==> r[MaterialName(entries[k])] == h.assetIdByString(AssetIdString(entries[k])))
            && (forall n :: n in m ==> r[n] == m[n])
  {
    var r := MaterialNameMap(h, entries, m).value;
    BuiltMapKeeps(h, entries, m, r);
    BuiltMapKeys(h, entries, m, r);
    BuiltMapValues(h, entries, m, r);
  }

  /** A rejected mapping fails with the error of the first entry it rejects:
      a name seen before, or a new name without an asset-ID string. */
  lemma {:induction false} MaterialNameMapFailure(h: MaterialHelpers, entries: seq<Member>, m: map<string, u32>)
    requires MaterialNameMap(h, entries, m).Failure?
    ensures exists k :: 0 <= k < |entries| &&
              (forall j :: 0 <= j < k ==> Accepted(entries, m, j)) &&
              !Accepted(entries, m, k) &&
              MaterialNameMap(h, entries, m).error == Rejection(entries, m, k)
    decreases |entries|
  {
    if Accepted(entries, m, 0) {
      var e := entries[0];
      var rest := entries[1..];
      var m' := m[MaterialName(e) := h.assetIdByString(AssetIdString(e))];
      MaterialNameMapFailure(h, rest, m');
      var k :| 0 <= k < |rest| &&
               (forall j :: 0 <= j < k ==> Accepted(rest, m', j)) &&
               !Accepted(rest, m', k) &&
               MaterialNameMap(h, rest, m').error == Rejection(rest, m', k);
      SeenShift(entries, m, m', k);
      forall j | 0 <= j < k + 1 ensures Accepted(entries, m, j) {
        if j > 0 { SeenShift(entries, m, m', j - 1); }
      }
    }
  }

  /** The loop of `compile` that builds the map. */
  method BuildMaterialNameMap(h: MaterialHelpers, compilerSection: Value) returns (r: Result<map<string, u32>, MeshError>)
    ensures r == MaterialNameMap(h, MappingEntries(compilerSection), map[])
  {
    var entries := MappingEntries(compilerSection);
    var m: map<string, u32> := map[];
    var i := 0;
    while i < |entries|
      invariant 0 <= i <= |entries|
      invariant MaterialNameMap(h, entries, map[]) == MaterialNameMap(h, entries[i..], m)
    {
      var e := entries[i];
      assert entries[i..][0] == e && entries[i..][1..] == entries[i + 1..];
      if MaterialName(e) !in m {
        var assetIdAsString := AssetIdString(e);
        if |assetIdAsString| == 0 {
          return Failure(MissingMaterialAssetId(MaterialName(e)));
        }
        m := m[MaterialName(e) := h.assetIdByString(assetIdAsString)];
      } else {
        return Failure(DuplicateMaterialName(MaterialName(e)));
      }
      i := i + 1;
    }
    return Success(m);
  }

  // ---------------------------------------------------------------------
  // Material resolution
  // ---------------------------------------------------------------------

  /** `t` occurs in `s` from index `i` on. */
  predicate OccursAt(s: string, t: string, i: nat) {
    i + |t| <= |s| && s[i..i + |t|] == t
  }

  /** `strstr(s, t) != nullptr`. */
  predicate Contains(s: string, t: string) {
    exists i :: 0 <= i <= |s| && OccursAt(s, t, i)
  }

  /** The name the lookup falls back on when the material's own name is not
      mapped: the first diffuse texture, when the name is not itself an
      asset ID and the material has such a texture. */
  function FallbackName(h: MaterialHelpers, material: Material): string {
    if !h.isSourceAssetIdAsString(material.name) && material.diffuseTexture0.Some? then material.diffuseTexture0.value
    else material.name
  }

  /** The material asset ID of a sub-mesh, or the invalid ID. */
  function MaterialAssetId(h: MaterialHelpers, materialNameToAssetId: map<string, u32>, material: Material): u32 {
    if material.name in materialNameToAssetId then materialNameToAssetId[material.name]
    else
      var name := FallbackName(h, material);
      if |name| > 0 && !Contains(name, DEFAULT_MATERIAL_NAME) then
        if name in materialNameToAssetId then materialNameToAssetId[name] else h.assetIdByString(name)
      else INVALID
  }

  /** A material name the map holds decides at once; otherwise a fallback
      that is empty or mentions the default material gives no asset; any
      other fallback is looked up in the map and then resolved as an asset
      ID string. */
  lemma MaterialAssetIdMeaning(h: MaterialHelpers, materialNameToAssetId: map<string, u32>, material: Material)
    ensures var r := MaterialAssetId(h, materialNameToAssetId, material);
            var name := FallbackName(h, material);
            && (material.name in materialNameToAssetId ==> r == materialNameToAssetId[material.name])
            && (material.name !in materialNameToAssetId && (|name| == 0 || Contains(name, DEFAULT_MATERIAL_NAME)) ==> r == INVALID)
            && (IsValid(r) && material.name !in materialNameToAssetId ==>
                  |name| > 0 && !Contains(name, DEFAULT_MATERIAL_NAME) &&
                  (r == h.assetIdByString(name) || (name in materialNameToAssetId && r == materialNameToAssetId[name])))
  {
  }

  /** A mapped material name decides alone: neither the material's texture
      nor the asset-ID helpers play a part. */
  lemma MappedNameDecides(h: MaterialHelpers, h': MaterialHelpers, materialNameToAssetId: map<string, u32>, material: Material, texture: Option<string>)
    requires material.name in materialNameToAssetId
    ensures MaterialAssetId(h, materialNameToAssetId, material) == materialNameToAssetId[material.name]
    ensures MaterialAssetId(h', materialNameToAssetId, Material(material.name, texture)) == MaterialAssetId(h, materialNameToAssetId, material)
  {
  }

  /** A material name that is itself an asset ID is never traded for the
      diffuse texture: the texture does not change the result. */
  lemma AssetIdNameIgnoresTexture(h: MaterialHelpers, materialNameToAssetId: map<string, u32>, material: Material, texture: Option<string>)
    requires h.isSourceAssetIdAsString(material.name)
    ensures MaterialAssetId(h, materialNameToAssetId, Material(material.name, texture)) == MaterialAssetId(h, materialNameToAssetId, material)
  {
  }

  /** Without the material name in the map, a material whose texture names
      a mapped asset gets that asset, unless its own name is an asset ID. */
  lemma TextureMappedResolves(h: MaterialHelpers, materialNameToAssetId: map<string, u32>, material: Material)
    requires material.name !in materialNameToAssetId && !h.isSourceAssetIdAsString(material.name)
    requires material.diffuseTexture0.Some? && material.diffuseTexture0.value in materialNameToAssetId
    requires |material.diffuseTexture0.value| > 0 && !Contains(material.diffuseTexture0.value, DEFAULT_MATERIAL_NAME)
    ensures MaterialAssetId(h, materialNameToAssetId, material) == materialNameToAssetId[material.diffuseTexture0.value]
  {
  }

  /** Assimp's made-up material, unmapped and without texture, never gets an
      asset: a mesh using it fails to compile. */
  lemma DefaultMaterialUnresolved(h: MaterialHelpers, materialNameToAssetId: map<string, u32>)
    requires DEFAULT_MATERIAL_NAME !in materialNameToAssetId
    ensures MaterialAssetId(h, materialNameToAssetId, Material(DEFAULT_MATERIAL_NAME, None)) == INVALID
  {
    assert OccursAt(DEFAULT_MATERIAL_NAME, DEFAULT_MATERIAL_NAME, 0);
  }
}
