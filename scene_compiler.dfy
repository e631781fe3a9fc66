/** `SceneAssetCompiler::compile`: the scene document becomes a stream of
    records; each item is written as a header announcing its payload size
    (computed in a first pass over the item) followed by the payload (written
    in a second pass). The specification is a function from the document to
    the decoded scene; the method that writes the memory file is proved to
    produce exactly that scene's stream, which the loader reads back. */
module SceneCompiler {
  import opened Wrappers
  import opened Json
  import opened SceneFormat
  import opened SceneItems
  import opened Paths

  /** `sceneHeader.unused`. */
  const SCENE_HEADER_UNUSED := 42

  datatype ItemKind =
    | CameraKind | LightKind | SunlightKind | MeshKind | SkeletonMeshKind
    | SkyKind | VolumeKind | GrassKind | TerrainKind | ParticlesKind
    | UnknownKind

  /** The `TYPE_ID` of each item kind. */
  function TypeId(ids: SceneItemTypeIds, kind: ItemKind): u32 {
    match kind
    case CameraKind => ids.camera
    case LightKind => ids.light
    case SunlightKind => ids.sunlight
    case MeshKind => ids.mesh
    case SkeletonMeshKind => ids.skeletonMesh
    case SkyKind => ids.sky
    case VolumeKind => ids.volume
    case GrassKind => ids.grass
    case TerrainKind => ids.terrain
    case ParticlesKind => ids.particles
    case UnknownKind => INVALID
  }

  /** The switch on the item's type ID. */
  function KindOf(ctx: Context, typeId: u32): ItemKind {
    var ids := ctx.typeIds;
    if typeId == ids.camera then CameraKind
    else if typeId == ids.light then LightKind
    else if typeId == ids.sunlight then SunlightKind
    else if typeId == ids.mesh then MeshKind
    else if typeId == ids.skeletonMesh then SkeletonMeshKind
    else if typeId == ids.sky then SkyKind
    else if typeId == ids.volume then VolumeKind
    else if typeId == ids.grass then GrassKind
    else if typeId == ids.terrain then TerrainKind
    else if typeId == ids.particles then ParticlesKind
    else UnknownKind
  }

  /** The class names the type IDs are the string IDs of. */
  predicate TypeIdsOfClassNames(ctx: Context) {
    var ids := ctx.typeIds;
    && ids.camera == ctx.stringId("CameraSceneItem")
    && ids.light == ctx.stringId("LightSceneItem")
    && ids.sunlight == ctx.stringId("SunlightSceneItem")
    && ids.mesh == ctx.stringId("MeshSceneItem")
    && ids.skeletonMesh == ctx.stringId("SkeletonMeshSceneItem")
    && ids.sky == ctx.stringId("SkySceneItem")
    && ids.volume == ctx.stringId("VolumeSceneItem")
    && ids.grass == ctx.stringId("GrassSceneItem")
    && ids.terrain == ctx.stringId("TerrainSceneItem")
    && ids.particles == ctx.stringId("ParticlesSceneItem")
  }

  function TypeIdList(ids: SceneItemTypeIds): seq<u32> {
    [ids.camera, ids.light, ids.sunlight, ids.mesh, ids.skeletonMesh, ids.sky, ids.volume, ids.grass, ids.terrain, ids.particles]
  }

  /** The case labels of a C++ `switch` are distinct. */
  predicate DistinctTypeIds(ids: SceneItemTypeIds) {
    var l := TypeIdList(ids);
    forall i, j :: 0 <= i < j < |l| ==> l[i] != l[j]
  }

  /** With distinct case labels the dispatch finds every kind by its type ID,
      and a type ID outside the table is unknown. */
  lemma KindOfTypeId(ctx: Context, kind: ItemKind, typeId: u32)
    requires DistinctTypeIds(ctx.typeIds)
    ensures kind != UnknownKind ==> KindOf(ctx, TypeId(ctx.typeIds, kind)) == kind
    ensures KindOf(ctx, typeId) == UnknownKind <==> typeId !in TypeIdList(ctx.typeIds)
  {
    var l := TypeIdList(ctx.typeIds);
    assert l[0] != l[1] && l[0] != l[2] && l[0] != l[3] && l[0] != l[4] && l[0] != l[5] && l[0] != l[6] && l[0] != l[7] && l[0] != l[8] && l[0] != l[9];
    assert l[1] != l[2] && l[1] != l[3] && l[1] != l[4] && l[1] != l[5] && l[1] != l[6] && l[1] != l[7] && l[1] != l[8] && l[1] != l[9];
    assert l[2] != l[3] && l[2] != l[4] && l[2] != l[5] && l[2] != l[6] && l[2] != l[7] && l[2] != l[8] && l[2] != l[9];
    assert l[3] != l[4] && l[3] != l[5] && l[3] != l[6] && l[3] != l[7] && l[3] != l[8] && l[3] != l[9];
    assert l[4] != l[5] && l[4] != l[6] && l[4] != l[7] && l[4] != l[8] && l[4] != l[9];
    assert l[5] != l[6] && l[5] != l[7] && l[5] != l[8] && l[5] != l[9];
    assert l[6] != l[7] && l[6] != l[8] && l[6] != l[9];
    assert l[7] != l[8] && l[7] != l[9];
    assert l[8] != l[9];
  }

  /** The scene item class each kind stands for. */
  function ClassName(kind: ItemKind): string {
    match kind
    case CameraKind => "CameraSceneItem"
    case LightKind => "LightSceneItem"
    case SunlightKind => "SunlightSceneItem"
    case MeshKind => "MeshSceneItem"
    case SkeletonMeshKind => "SkeletonMeshSceneItem"
    case SkyKind => "SkySceneItem"
    case VolumeKind => "VolumeSceneItem"
    case GrassKind => "GrassSceneItem"
    case TerrainKind => "TerrainSceneItem"
    case ParticlesKind => "ParticlesSceneItem"
    case UnknownKind => ""
  }

  /** An item member named after any of the ten scene item classes compiles
      as that kind of item. The name is hashed as a C string, so only its
      part before a first NUL counts. */
  lemma ItemSelectedByClassName(ctx: Context, m: Member)
    requires TypeIdsOfClassNames(ctx) && DistinctTypeIds(ctx.typeIds)
    ensures forall kind :: kind != UnknownKind ==> KindOf(ctx, ctx.stringId(ClassName(kind))) == kind
    ensures forall kind :: kind != UnknownKind && CString(m.name) == ClassName(kind) ==> KindOf(ctx, ctx.stringId(CString(m.name))) == kind
  {
    forall kind | kind != UnknownKind
      ensures KindOf(ctx, ctx.stringId(ClassName(kind))) == kind
    {
      assert TypeId(ctx.typeIds, kind) == ctx.stringId(ClassName(kind));
      KindOfTypeId(ctx, kind, 0);
    }
  }

  /** The items whose payload is a material item with its overrides. */
  predicate IsMaterialKind(k: ItemKind) {
    k in {SkyKind, VolumeKind, GrassKind, TerrainKind, ParticlesKind}
  }

  /** First pass: the payload size the item header announces. */
  function DeclaredBytes(kind: ItemKind, v: Value, ps: seq<MaterialProperty>): nat {
    match kind
    case CameraKind => 0
    case LightKind => LIGHT_ITEM_BYTES
    case SunlightKind => SUNLIGHT_ITEM_BYTES
    case MeshKind => MESH_ITEM_BYTES + ASSET_ID_BYTES * |SubMeshMaterials(v)|
    case SkeletonMeshKind => MESH_ITEM_BYTES + ASSET_ID_BYTES * |SubMeshMaterials(v)| + SKELETON_MESH_ITEM_BYTES
    case UnknownKind => 0
    case _ => MATERIAL_ITEM_BYTES + MATERIAL_PROPERTY_BYTES * |ps|
  }

  /** The payload of a mesh or skeleton mesh item: the skeleton record first
      (for skeleton meshes), the mesh item, then the sub-mesh material IDs
      when there are any. The mesh asset is mandatory. */
  function MeshPayload(ctx: Context, skeleton: bool, v: Value): Result<seq<Record>, SceneError> {
    var skeletonRecords :=
      if skeleton then [SkeletonMesh(SkeletonMeshItem(OptionalCompiledAssetId(ctx, v, "SkeletonAnimation", INVALID)))] else [];
    if !HasMember(v, "Mesh") then Failure(MissingProperty("Mesh"))
    else
      var meshAssetId := ctx.compiledAssetId(GetString(Get(v, "Mesh")));
      var ids := SubMeshMaterialAssetIds(ctx, SubMeshMaterials(v));
      Success(skeletonRecords + [Mesh(MeshItem(meshAssetId, |ids|))] + (if |ids| == 0 then [] else [AssetIds(ids)]))
  }

  /** The payload of a material item: the item, then its overrides when
      there are any. */
  function MaterialPayload(ctx: Context, ps: seq<MaterialProperty>, v: Value): Result<seq<Record>, SceneError> {
    var item :- ReadMaterialSceneItem(ctx, ps, v);
    Success([Material(item)] + (if |ps| == 0 then [] else [MaterialProperties(ps)]))
  }

  /** Second pass: the payload records of a known item kind. */
  function Payload(ctx: Context, kind: ItemKind, v: Value, ps: seq<MaterialProperty>): Result<seq<Record>, SceneError> {
    match kind
    case CameraKind => Success([])
    case UnknownKind => Success([])
    case LightKind =>
      var l :- ReadLightItem(ctx, v);
      Success([Light(l)])
    case SunlightKind =>
      var s :- ReadSunlightItem(ctx, v);
      Success([Sunlight(s)])
    case MeshKind => MeshPayload(ctx, false, v)
    case SkeletonMeshKind => MeshPayload(ctx, true, v)
    case _ => MaterialPayload(ctx, ps, v)
  }

  /** The override vector of the first pass: filled for material items only. */
  function ItemProperties(ctx: Context, kind: ItemKind, v: Value): Result<seq<MaterialProperty>, SceneError> {
    if IsMaterialKind(kind) then SortedMaterialProperties(ctx, v) else Success([])
  }

  /** One scene item, as the loader sees it. Its type is the string ID of
      its member name, which `StringId` hashes as a C string, and an
      unknown type is reported by the name up to its first NUL. */
  function CompiledItem(ctx: Context, m: Member): Result<Item, SceneError> {
    var typeId := ctx.stringId(CString(m.name));
    var kind := KindOf(ctx, typeId);
    if kind == UnknownKind then Failure(UnknownItemType(CString(m.name)))
    else
      var ps :- ItemProperties(ctx, kind, m.value);
      var payload :- if DeclaredBytes(kind, m.value, ps) != 0 then Payload(ctx, kind, m.value, ps) else Success([]);
      Success(Item(typeId, payload))
  }

  function ItemCompiler(ctx: Context): Member -> Result<Item, SceneError> {
    m => CompiledItem(ctx, m)
  }

  /** The items of a node, in declaration order; the first error wins. */
  function CompiledItems(ctx: Context, ms: seq<Member>): Result<seq<Item>, SceneError> {
    Traverse(ItemCompiler(ctx), ms)
  }

  /** The members of a node's `Items` object, or none. */
  function NodeItems(node: Value): seq<Member> {
    if HasMember(node, "Items") then Members(Get(node, "Items")) else []
  }

  /** The node transform: unit scale unless `Properties` says otherwise. */
  function NodeTransform(ctx: Context, node: Value): Result<Transform, SceneError> {
    var t := ctx.defaultTransform.(scale := VEC3_ONE);
    if !HasMember(node, "Properties") then Success(t)
    else
      var p := Get(node, "Properties");
      var position :- Optional(ctx.readers.unit3, p, "Position", t.position);
      var rotation :- Optional(ctx.readers.rotation, p, "Rotation", t.rotation);
      var scale :- Optional(ctx.readers.factor3, p, "Scale", t.scale);
      Success(Transform(position, rotation, scale))
  }

  function CompiledNode(ctx: Context, node: Value): Result<SceneNode, SceneError> {
    var transform :- NodeTransform(ctx, node);
    var items :- CompiledItems(ctx, NodeItems(node));
    Success(SceneNode(NodeRecord(transform, |NodeItems(node)|), items))
  }

  function NodeCompiler(ctx: Context): Value -> Result<SceneNode, SceneError> {
    node => CompiledNode(ctx, node)
  }

  /** The nodes of the scene, in document order; the first error wins. */
  function CompiledNodes(ctx: Context, nodes: seq<Value>): Result<seq<SceneNode>, SceneError> {
    Traverse(NodeCompiler(ctx), nodes)
  }

  /** `rapidJsonDocument["SceneAsset"]["Nodes"]`. */
  function SceneNodes(doc: Value): seq<Value> {
    var sceneAsset := if HasMember(doc, "SceneAsset") then Get(doc, "SceneAsset") else Null;
    if HasMember(sceneAsset, "Nodes") then Elements(Get(sceneAsset, "Nodes")) else []
  }

  /** The scene a document compiles to; a scene without nodes is rejected. */
  function CompiledScene(ctx: Context, doc: Value): Result<seq<SceneNode>, SceneError> {
    var nodes := SceneNodes(doc);
    if |nodes| == 0 then Failure(NoNodes) else CompiledNodes(ctx, nodes)
  }

  // ---------------------------------------------------------------------
  // Properties of the specification
  // ---------------------------------------------------------------------

  /** The header of every item announces exactly the size of the payload
      written after it, and the payload can be delimited by the loader.
      Only a camera has no payload. */
  lemma PayloadMatchesDeclaredBytes(ctx: Context, kind: ItemKind, v: Value, ps: seq<MaterialProperty>)
    requires kind != UnknownKind && Payload(ctx, kind, v, ps).Success?
    ensures var payload := Payload(ctx, kind, v, ps).value;
            && Bytes(payload) == DeclaredBytes(kind, v, ps)
            && WellFormedPayload(payload)
            && (DeclaredBytes(kind, v, ps) == 0 <==> kind == CameraKind)
  {
    var payload := Payload(ctx, kind, v, ps).value;
    match kind
    case CameraKind =>
    case LightKind =>
      OneRecordPayload(payload[0]);
    case SunlightKind =>
      OneRecordPayload(payload[0]);
    case MeshKind =>
      MeshPayloadBytes(ctx, false, v);
    case SkeletonMeshKind =>
      MeshPayloadBytes(ctx, true, v);
    case _ =>
      MaterialPayloadBytes(ctx, ps, v);
  }

  lemma MaterialPayloadBytes(ctx: Context, ps: seq<MaterialProperty>, v: Value)
    requires MaterialPayload(ctx, ps, v).Success?
    ensures var payload := MaterialPayload(ctx, ps, v).value;
            && Bytes(payload) == MATERIAL_ITEM_BYTES + MATERIAL_PROPERTY_BYTES * |ps|
            && WellFormedPayload(payload)
  {
    var payload := MaterialPayload(ctx, ps, v).value;
    var item := Material(ReadMaterialSceneItem(ctx, ps, v).value);
    var tail: seq<Record> := if |ps| == 0 then [] else [MaterialProperties(ps)];
    assert payload == [item] + tail;
    OneRecordPayload(item);
    if |ps| > 0 {
      OneRecordPayload(tail[0]);
    }
    BytesAppend([item], tail);
    WellFormedAppend([item], tail);
  }

  /** The payload of one record: its size, and the loader can delimit it
      when that size is positive. */
  lemma OneRecordPayload(r: Record)
    requires !r.ItemHeader? && !r.Node? && !r.Nodes? && !r.SceneHeader? && RecordBytes(r) > 0
    ensures Bytes([r]) == RecordBytes(r) && WellFormedPayload([r])
  {
    assert [r][1..] == [];
  }

  /** The records of a mesh payload, whatever their field values. */
  lemma MeshRecordsBytes(skeletonRecords: seq<Record>, mesh: MeshItem, ids: seq<u32>)
    requires skeletonRecords == [] || (|skeletonRecords| == 1 && skeletonRecords[0].SkeletonMesh?)
    ensures var payload := skeletonRecords + [Mesh(mesh)] + (if |ids| == 0 then [] else [AssetIds(ids)]);
            && Bytes(payload) == Bytes(skeletonRecords) + MESH_ITEM_BYTES + ASSET_ID_BYTES * |ids|
            && WellFormedPayload(payload)
  {
    var idRecords: seq<Record> := if |ids| == 0 then [] else [AssetIds(ids)];
    OneRecordPayload(Mesh(mesh));
    if |skeletonRecords| == 1 {
      OneRecordPayload(skeletonRecords[0]);
      assert WellFormedPayload(skeletonRecords);
    }
    if |ids| > 0 {
      OneRecordPayload(idRecords[0]);
    }
    BytesAppend(skeletonRecords, [Mesh(mesh)]);
    BytesAppend(skeletonRecords + [Mesh(mesh)], idRecords);
    WellFormedAppend(skeletonRecords, [Mesh(mesh)]);
    WellFormedAppend(skeletonRecords + [Mesh(mesh)], idRecords);
  }

  lemma MeshPayloadBytes(ctx: Context, skeleton: bool, v: Value)
    requires MeshPayload(ctx, skeleton, v).Success?
    ensures var payload := MeshPayload(ctx, skeleton, v).value;
            && Bytes(payload) == MESH_ITEM_BYTES + ASSET_ID_BYTES * |SubMeshMaterials(v)| + (if skeleton then SKELETON_MESH_ITEM_BYTES else 0)
            && WellFormedPayload(payload)
  {
    var anim := OptionalCompiledAssetId(ctx, v, "SkeletonAnimation", INVALID);
    var skeletonRecords: seq<Record> := if skeleton then [SkeletonMesh(SkeletonMeshItem(anim))] else [];
    var ids := SubMeshMaterialAssetIds(ctx, SubMeshMaterials(v));
    var mesh := MeshItem(ctx.compiledAssetId(GetString(Get(v, "Mesh"))), |ids|);
    MeshRecordsBytes(skeletonRecords, mesh, ids);
    SubMeshMaterialSlots(ctx, SubMeshMaterials(v));
    if skeleton {
      OneRecordPayload(skeletonRecords[0]);
    }
  }

  /** What a compiled item is: its type is the string ID of its member name
      as a C string, its kind is known, its payload can be delimited, and the payload kind
      follows the item kind (a checked light for a light, one material item
      naming exactly one of material and blueprint for the material items). */
  lemma CompiledItemShape(ctx: Context, m: Member)
    requires CompiledItem(ctx, m).Success?
    ensures var it := CompiledItem(ctx, m).value;
            var kind := KindOf(ctx, ctx.stringId(CString(m.name)));
            && it.typeId == ctx.stringId(CString(m.name))
            && kind != UnknownKind
            && WellFormedPayload(it.payload)
            && (it.payload == [] <==> kind == CameraKind)
            && (kind == LightKind ==>
                  |it.payload| == 1 && it.payload[0].Light? &&
                  CheckLightItem(it.payload[0].light, HasMember(m.value, "InnerAngle") || HasMember(m.value, "OuterAngle")).Pass?)
            && (IsMaterialKind(kind) ==>
                  it.payload[0].Material? &&
                  IsValid(it.payload[0].material.materialAssetId) != IsValid(it.payload[0].material.materialBlueprintAssetId))
  {
    var kind := KindOf(ctx, ctx.stringId(CString(m.name)));
    var ps := ItemProperties(ctx, kind, m.value).value;
    if DeclaredBytes(kind, m.value, ps) != 0 {
      PayloadMatchesDeclaredBytes(ctx, kind, m.value, ps);
    } else {
      assert kind == CameraKind;
    }
  }

  lemma CompiledItemsShape(ctx: Context, ms: seq<Member>)
    requires CompiledItems(ctx, ms).Success?
    ensures var items := CompiledItems(ctx, ms).value;
            && |items| == |ms|
            && forall j :: 0 <= j < |ms| ==>
                 && items[j].typeId == ctx.stringId(CString(ms[j].name))
                 && KindOf(ctx, ctx.stringId(CString(ms[j].name))) != UnknownKind
                 && WellFormedPayload(items[j].payload)
  {
    TraverseSuccess(ItemCompiler(ctx), ms);
    forall j | 0 <= j < |ms| {
      CompiledItemShape(ctx, ms[j]);
    }
  }

  /** A compiled node: its transform, its item count and its items. */
  lemma CompiledNodeShape(ctx: Context, node: Value)
    requires CompiledNode(ctx, node).Success?
    ensures var sn := CompiledNode(ctx, node).value;
            && NodeTransform(ctx, node).Success?
            && WellFormedNode(sn)
            && sn.node.numberOfItems == |NodeItems(node)|
            && sn.node.transform == NodeTransform(ctx, node).value
            && forall j :: 0 <= j < |sn.items| ==> sn.items[j].typeId == ctx.stringId(CString(NodeItems(node)[j].name))
  {
    CompiledItemsShape(ctx, NodeItems(node));
  }

  lemma CompiledNodesShape(ctx: Context, nodes: seq<Value>)
    requires CompiledNodes(ctx, nodes).Success?
    ensures var sn := CompiledNodes(ctx, nodes).value;
            && |sn| == |nodes|
            && forall i :: 0 <= i < |nodes| ==>
                 && CompiledNode(ctx, nodes[i]).Success?
                 && sn[i] == CompiledNode(ctx, nodes[i]).value
                 && WellFormedNode(sn[i])
  {
    TraverseSuccess(NodeCompiler(ctx), nodes);
    forall i | 0 <= i < |nodes| {
      CompiledNodeShape(ctx, nodes[i]);
    }
  }

  /** The compiled scene reads back: the loader, walking the stream by the
      announced sizes alone, finds every node of the document in order, each
      with its item count and transform, and every item with the type ID of
      its member name, in declaration order. */
  lemma CompiledSceneReadsBack(ctx: Context, doc: Value)
    requires CompiledScene(ctx, doc).Success?
    ensures var nodes := CompiledScene(ctx, doc).value;
            && ReadScene(SceneStream(SCENE_HEADER_UNUSED, nodes)) == Some(nodes)
            && |nodes| == |SceneNodes(doc)| > 0
            && forall i :: 0 <= i < |nodes| ==>
                 && NodeTransform(ctx, SceneNodes(doc)[i]).Success?
                 && nodes[i].node.numberOfItems == |NodeItems(SceneNodes(doc)[i])| == |nodes[i].items|
                 && nodes[i].node.transform == NodeTransform(ctx, SceneNodes(doc)[i]).value
                 && forall j :: 0 <= j < |nodes[i].items| ==>
                      nodes[i].items[j].typeId == ctx.stringId(CString(NodeItems(SceneNodes(doc)[i])[j].name))
  {
    var nodes := SceneNodes(doc);
    CompiledNodesShape(ctx, nodes);
    forall i | 0 <= i < |nodes| {
      CompiledNodeShape(ctx, nodes[i]);
    }
    SceneRoundTrip(SCENE_HEADER_UNUSED, CompiledScene(ctx, doc).value);
  }

  /** A scene without nodes, or with an item of unknown type anywhere, is
      rejected; otherwise the error is the one of the first node that fails. */
  lemma RejectedScenes(ctx: Context, doc: Value, i: nat, j: nat)
    ensures |SceneNodes(doc)| == 0 ==> CompiledScene(ctx, doc) == Failure(NoNodes)
    ensures i < |SceneNodes(doc)| && j < |NodeItems(SceneNodes(doc)[i])|
            && KindOf(ctx, ctx.stringId(CString(NodeItems(SceneNodes(doc)[i])[j].name))) == UnknownKind
            ==> CompiledScene(ctx, doc).Failure?
    ensures |SceneNodes(doc)| > 0 && CompiledScene(ctx, doc).Failure? ==>
              exists k :: 0 <= k < |SceneNodes(doc)| && CompiledNode(ctx, SceneNodes(doc)[k]) == Failure(CompiledScene(ctx, doc).error)
  {
    var nodes := SceneNodes(doc);
    if i < |nodes| && j < |NodeItems(nodes[i])| && CompiledScene(ctx, doc).Success? {
      CompiledNodesShape(ctx, nodes);
      CompiledNodeShape(ctx, nodes[i]);
      CompiledItemsShape(ctx, NodeItems(nodes[i]));
    }
    if |nodes| > 0 && CompiledScene(ctx, doc).Failure? {
      TraverseFirstFailure(NodeCompiler(ctx), nodes);
    }
  }

  /** A node without `Properties`, or without `Scale` in them, has unit scale. */
  lemma NodeScaleDefaultsToOne(ctx: Context, node: Value)
    requires NodeTransform(ctx, node).Success?
    requires !HasMember(node, "Properties") || !HasMember(Get(node, "Properties"), "Scale")
    ensures NodeTransform(ctx, node).value.scale == VEC3_ONE
  {
  }

  // ---------------------------------------------------------------------
  // The memory file and the compiler
  // ---------------------------------------------------------------------

  /** `Renderer::MemoryFile`: what has been written, record by record. */
  class MemoryFile {
    var records: seq<Record>

    constructor ()
      ensures records == []
    {
      records := [];
    }

    /** `write`: appends one record. */
    method Write(r: Record)
      modifies this
      ensures records == old(records) + [r]
    {
      records := records + [r];
    }
  }

  /** First pass over an item of known kind: the override vector (material
      items only) and the payload size for the header. */
  method SizeItem(ctx: Context, kind: ItemKind, v: Value) returns (ps: Result<seq<MaterialProperty>, SceneError>, numberOfBytes: nat)
    requires kind != UnknownKind
    ensures ps == ItemProperties(ctx, kind, v)
    ensures ps.Success? ==> numberOfBytes == DeclaredBytes(kind, v, ps.value)
  {
    numberOfBytes := 0;
    ps := Success([]);
    if kind == LightKind {
      numberOfBytes := LIGHT_ITEM_BYTES;
    } else if kind == SunlightKind {
      numberOfBytes := SUNLIGHT_ITEM_BYTES;
    } else if kind == MeshKind || kind == SkeletonMeshKind {
      numberOfBytes := MESH_ITEM_BYTES + ASSET_ID_BYTES * |SubMeshMaterials(v)|;
      if kind == SkeletonMeshKind {
        numberOfBytes := numberOfBytes + SKELETON_MESH_ITEM_BYTES;
      }
    } else if IsMaterialKind(kind) {
      ps := FillSortedMaterialPropertyVector(ctx, v);
      if ps.Success? {
        numberOfBytes := MATERIAL_ITEM_BYTES + MATERIAL_PROPERTY_BYTES * |ps.value|;
      }
    }
  }

  /** The mesh payload: skeleton record, mesh item, sub-mesh material IDs. */
  method WriteMeshPayload(ctx: Context, mf: MemoryFile, skeleton: bool, v: Value) returns (o: Outcome<SceneError>)
    modifies mf
    ensures o.Pass? <==> MeshPayload(ctx, skeleton, v).Success?
    ensures o.Fail? ==> o.error == MeshPayload(ctx, skeleton, v).error
    ensures o.Pass? ==> mf.records == old(mf.records) + MeshPayload(ctx, skeleton, v).value
  {
    if skeleton {
      var skeletonAnimationAssetId := OptionalCompiledAssetId(ctx, v, "SkeletonAnimation", INVALID);
      mf.Write(SkeletonMesh(SkeletonMeshItem(skeletonAnimationAssetId)));
    }
    if !HasMember(v, "Mesh") {
      return Fail(MissingProperty("Mesh"));
    }
    var meshAssetId := ctx.compiledAssetId(GetString(Get(v, "Mesh")));
    var ids := ReadSubMeshMaterialAssetIds(ctx, v);
    mf.Write(Mesh(MeshItem(meshAssetId, |ids|)));
    if |ids| != 0 {
      mf.Write(AssetIds(ids));
    }
    o := Pass;
  }

  /** The material payload: the material item, then its overrides. */
  method WriteMaterialPayload(ctx: Context, mf: MemoryFile, ps: seq<MaterialProperty>, v: Value) returns (o: Outcome<SceneError>)
    modifies mf
    ensures o.Pass? <==> MaterialPayload(ctx, ps, v).Success?
    ensures o.Fail? ==> o.error == MaterialPayload(ctx, ps, v).error
    ensures o.Pass? ==> mf.records == old(mf.records) + MaterialPayload(ctx, ps, v).value
  {
    var item := ReadMaterialSceneItem(ctx, ps, v);
    if item.Failure? {
      return Fail(item.error);
    }
    mf.Write(Material(item.value));
    if |ps| != 0 {
      mf.Write(MaterialProperties(ps));
    }
    o := Pass;
  }

  /** Second pass: the payload of an item of known kind. */
  method WritePayload(ctx: Context, mf: MemoryFile, kind: ItemKind, v: Value, ps: seq<MaterialProperty>) returns (o: Outcome<SceneError>)
    requires kind != UnknownKind
    modifies mf
    ensures o.Pass? <==> Payload(ctx, kind, v, ps).Success?
    ensures o.Fail? ==> o.error == Payload(ctx, kind, v, ps).error
    ensures o.Pass? ==> mf.records == old(mf.records) + Payload(ctx, kind, v, ps).value
  {
    o := Pass;
    if kind == LightKind {
      var light := ReadLightItem(ctx, v);
      if light.Failure? {
        return Fail(light.error);
      }
      mf.Write(Light(light.value));
    } else if kind == SunlightKind {
      var sunlight := ReadSunlightItem(ctx, v);
      if sunlight.Failure? {
        return Fail(sunlight.error);
      }
      mf.Write(Sunlight(sunlight.value));
    } else if kind == MeshKind || kind == SkeletonMeshKind {
      o := WriteMeshPayload(ctx, mf, kind == SkeletonMeshKind, v);
    } else if IsMaterialKind(kind) {
      o := WriteMaterialPayload(ctx, mf, ps, v);
    }
  }

  /** One item: the first pass sizes it, the header is written, then the
      payload if the size is not zero. An item of unknown type throws before
      its header is written. */
  method WriteItem(ctx: Context, mf: MemoryFile, m: Member) returns (o: Outcome<SceneError>)
    modifies mf
    ensures o.Pass? <==> CompiledItem(ctx, m).Success?
    ensures o.Fail? ==> o.error == CompiledItem(ctx, m).error
    ensures o.Pass? ==> mf.records == old(mf.records) + ItemStream(CompiledItem(ctx, m).value)
    ensures KindOf(ctx, ctx.stringId(CString(m.name))) == UnknownKind ==> mf.records == old(mf.records)
  {
    var typeId := ctx.stringId(CString(m.name));
    var kind := KindOf(ctx, typeId);
    if kind == UnknownKind {
      return Fail(UnknownItemType(CString(m.name)));
    }
    var ps, numberOfBytes := SizeItem(ctx, kind, m.value);
    if ps.Failure? {
      return Fail(ps.error);
    }
    ghost var before := mf.records;
    mf.Write(ItemHeader(typeId, numberOfBytes));
    o := Pass;
    if numberOfBytes != 0 {
      o := WritePayload(ctx, mf, kind, m.value, ps.value);
    }
    CompiledItemParts(ctx, m, kind, ps.value, numberOfBytes, o, before, mf.records);
  }

  /** How the two passes of `WriteItem` make up the compiled item. */
  lemma CompiledItemParts(ctx: Context, m: Member, kind: ItemKind, ps: seq<MaterialProperty>, numberOfBytes: nat,
                          o: Outcome<SceneError>, before: seq<Record>, after: seq<Record>)
    requires kind == KindOf(ctx, ctx.stringId(CString(m.name))) && kind != UnknownKind
    requires ItemProperties(ctx, kind, m.value) == Success(ps)
    requires numberOfBytes == DeclaredBytes(kind, m.value, ps)
    requires numberOfBytes == 0 ==> o.Pass? && after == before + [ItemHeader(ctx.stringId(CString(m.name)), 0)]
    requires numberOfBytes != 0 ==>
               && (o.Pass? <==> Payload(ctx, kind, m.value, ps).Success?)
               && (o.Fail? ==> o.error == Payload(ctx, kind, m.value, ps).error)
               && (o.Pass? ==> after == before + [ItemHeader(ctx.stringId(CString(m.name)), numberOfBytes)] + Payload(ctx, kind, m.value, ps).value)
    ensures o.Pass? <==> CompiledItem(ctx, m).Success?
    ensures o.Fail? ==> o.error == CompiledItem(ctx, m).error
    ensures o.Pass? ==> after == before + ItemStream(CompiledItem(ctx, m).value)
  {
    if o.Pass? {
      var payload := CompiledItem(ctx, m).value.payload;
      if numberOfBytes != 0 {
        PayloadMatchesDeclaredBytes(ctx, kind, m.value, ps);
      }
      assert Bytes(payload) == numberOfBytes;
    }
  }

  /** Appending one more compiled item to the stream of the previous ones. */
  lemma ItemsStreamStep<E>(f: Member -> Result<Item, E>, ms: seq<Member>, j: nat, before: seq<Record>)
    requires j < |ms| && Traverse(f, ms[..j]).Success? && f(ms[j]).Success?
    ensures Traverse(f, ms[..j + 1]).Success?
    ensures before + ItemsStream(Traverse(f, ms[..j]).value) + ItemStream(f(ms[j]).value) == before + ItemsStream(Traverse(f, ms[..j + 1]).value)
  {
    TraverseStep(f, ms, j);
    var after := Traverse(f, ms[..j]).value + [f(ms[j]).value];
    assert after[..|after| - 1] == Traverse(f, ms[..j]).value;
    AppendAssociative(before, ItemsStream(Traverse(f, ms[..j]).value), ItemStream(f(ms[j]).value));
  }

  lemma AppendAssociative(a: seq<Record>, b: seq<Record>, c: seq<Record>)
    ensures a + b + c == a + (b + c)
  {
  }

  /** Appending one more compiled node to the stream of the previous ones. */
  lemma NodesStreamStep<E>(f: Value -> Result<SceneNode, E>, nodes: seq<Value>, i: nat, before: seq<Record>)
    requires i < |nodes| && Traverse(f, nodes[..i]).Success? && f(nodes[i]).Success?
    ensures Traverse(f, nodes[..i + 1]).Success?
    ensures |Traverse(f, nodes[..i + 1]).value| == |Traverse(f, nodes[..i]).value| + 1
    ensures before + NodesStream(Traverse(f, nodes[..i]).value) + NodeStream(f(nodes[i]).value) == before + NodesStream(Traverse(f, nodes[..i + 1]).value)
  {
    TraverseStep(f, nodes, i);
    var after := Traverse(f, nodes[..i]).value + [f(nodes[i]).value];
    assert after[..|after| - 1] == Traverse(f, nodes[..i]).value;
    AppendAssociative(before, NodesStream(Traverse(f, nodes[..i]).value), NodeStream(f(nodes[i]).value));
  }

  /** The items of one node, in declaration order, up to the first error. */
  method WriteItems(ctx: Context, mf: MemoryFile, ms: seq<Member>) returns (o: Outcome<SceneError>)
    modifies mf
    ensures o.Pass? <==> CompiledItems(ctx, ms).Success?
    ensures o.Fail? ==> o.error == CompiledItems(ctx, ms).error
    ensures o.Pass? ==> mf.records == old(mf.records) + ItemsStream(CompiledItems(ctx, ms).value)
  {
    ghost var before := mf.records;
    var j := 0;
    while j < |ms|
      invariant 0 <= j <= |ms|
      invariant CompiledItems(ctx, ms[..j]).Success?
      invariant mf.records == before + ItemsStream(CompiledItems(ctx, ms[..j]).value)
    {
      o := WriteItem(ctx, mf, ms[j]);
      if o.Fail? {
        TraverseStep(ItemCompiler(ctx), ms, j);
        TraversePrefixFailure(ItemCompiler(ctx), ms, j + 1);
        return;
      }
      ItemsStreamStep(ItemCompiler(ctx), ms, j, before);
      j := j + 1;
    }
    assert ms[..|ms|] == ms;
    o := Pass;
  }

  /** One node: transform, node record, then its items. */
  method WriteNode(ctx: Context, mf: MemoryFile, node: Value) returns (o: Outcome<SceneError>)
    modifies mf
    ensures o.Pass? <==> CompiledNode(ctx, node).Success?
    ensures o.Fail? ==> o.error == CompiledNode(ctx, node).error
    ensures o.Pass? ==> mf.records == old(mf.records) + NodeStream(CompiledNode(ctx, node).value)
  {
    var transform := NodeTransform(ctx, node);
    if transform.Failure? {
      return Fail(transform.error);
    }
    var ms := NodeItems(node);
    ghost var before := mf.records;
    mf.Write(Node(NodeRecord(transform.value, |ms|)));
    o := WriteItems(ctx, mf, ms);
    if o.Pass? {
      AppendAssociative(before, [Node(NodeRecord(transform.value, |ms|))], ItemsStream(CompiledItems(ctx, ms).value));
    }
  }

  /** The whole scene, into a fresh memory file. */
  method Compile(ctx: Context, doc: Value) returns (mf: MemoryFile, o: Outcome<SceneError>)
    ensures fresh(mf)
    ensures o.Pass? <==> CompiledScene(ctx, doc).Success?
    ensures o.Fail? ==> o.error == CompiledScene(ctx, doc).error
    ensures o.Pass? ==> mf.records == SceneStream(SCENE_HEADER_UNUSED, CompiledScene(ctx, doc).value)
  {
    mf := new MemoryFile();
    mf.Write(SceneHeader(SCENE_HEADER_UNUSED));
    var nodes := SceneNodes(doc);
    if |nodes| == 0 {
      return mf, Fail(NoNodes);
    }
    mf.Write(Nodes(|nodes|));
    var i := 0;
    while i < |nodes|
      invariant 0 <= i <= |nodes|
      invariant CompiledNodes(ctx, nodes[..i]).Success?
      invariant |CompiledNodes(ctx, nodes[..i]).value| == i
      invariant mf.records == [SceneHeader(SCENE_HEADER_UNUSED), Nodes(|nodes|)] + NodesStream(CompiledNodes(ctx, nodes[..i]).value)
    {
      o := WriteNode(ctx, mf, nodes[i]);
      if o.Fail? {
        TraverseStep(NodeCompiler(ctx), nodes, i);
        TraversePrefixFailure(NodeCompiler(ctx), nodes, i + 1);
        return;
      }
      NodesStreamStep(NodeCompiler(ctx), nodes, i, [SceneHeader(SCENE_HEADER_UNUSED), Nodes(|nodes|)]);
      i := i + 1;
    }
    assert nodes[..|nodes|] == nodes;
    o := Pass;
  }

  // ---------------------------------------------------------------------
  // Output and cache
  // ---------------------------------------------------------------------

  /** The files the compiler writes through the file manager. */
  class FileStore {
    var files: map<string, seq<Record>>

    constructor ()
      ensures files == map[]
    {
      files := map[];
    }

    /** `writeLz4CompressedDataByVirtualFilename`; whether the write succeeds is
        decided outside this model and given as `succeeds`. */
    method WriteCompressed(name: string, records: seq<Record>, succeeds: bool) returns (ok: bool)
      modifies this
      ensures ok == succeeds
      ensures files == if succeeds then old(files)[name := records] else old(files)
    {
      if succeeds {
        files := files[name := records];
      }
      ok := succeeds;
    }
  }

  /** The cache manager's entries, by file name. */
  class CacheManager {
    var entries: map<string, nat>

    constructor ()
      ensures entries == map[]
    {
      entries := map[];
    }

    /** `storeOrUpdateCacheEntries`: new entries are added, existing ones
        replaced. */
    method StoreOrUpdateCacheEntries(es: map<string, nat>)
      modifies this
      ensures entries == old(entries) + es
    {
      entries := entries + es;
    }
  }

  /** The output file name: the asset's stem with the compiler's optional
      unique extension, in the output directory. */
  function OutputFilename(outputDirectory: string, virtualAssetFilename: string, uniqueExtension: string): string {
    OutputAssetFilename(outputDirectory, virtualAssetFilename, uniqueExtension)
  }

  /** `compile` as a whole: nothing happens unless the cache manager says the
      asset needs compiling; a compiled scene is written to the output file
      named after the asset,
      and the cache entries are stored only after that write succeeded. */
  method CompileAsset(ctx: Context, doc: Value, store: FileStore, cache: CacheManager,
                      outputDirectory: string, virtualAssetFilename: string, uniqueExtension: string,
                      needsToBeCompiled: bool, cacheEntries: map<string, nat>, writeSucceeds: bool)
    returns (o: Outcome<SceneError>)
    modifies store, cache
    ensures !needsToBeCompiled ==> o == Pass && store.files == old(store.files) && cache.entries == old(cache.entries)
    ensures needsToBeCompiled && CompiledScene(ctx, doc).Failure? ==>
              o == Fail(CompiledScene(ctx, doc).error) && store.files == old(store.files) && cache.entries == old(cache.entries)
    ensures needsToBeCompiled && CompiledScene(ctx, doc).Success? && !writeSucceeds ==>
              o == Fail(OutputWriteFailed) && store.files == old(store.files) && cache.entries == old(cache.entries)
    ensures needsToBeCompiled && CompiledScene(ctx, doc).Success? && writeSucceeds ==>
              && o == Pass
              && store.files == old(store.files)[OutputFilename(outputDirectory, virtualAssetFilename, uniqueExtension) := SceneStream(SCENE_HEADER_UNUSED, CompiledScene(ctx, doc).value)]
              && cache.entries == old(cache.entries) + cacheEntries
  {
    var outputName := OutputFilename(outputDirectory, virtualAssetFilename, uniqueExtension);
    if !needsToBeCompiled {
      return Pass;
    }
    var mf, compiled := Compile(ctx, doc);
    if compiled.Fail? {
      return compiled;
    }
    var ok := store.WriteCompressed(outputName, mf.records, writeSucceeds);
    if !ok {
      return Fail(OutputWriteFailed);
    }
    cache.StoreOrUpdateCacheEntries(cacheEntries);
    o := Pass;
  }
}
