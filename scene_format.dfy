/** The version-1 scene file format: the structs the scene compiler appends to
    its memory file, their byte sizes, and the loader-side reading of the
    resulting stream (scene header, node count, then per node a node record
    followed by one item header and its payload per item). */
module SceneFormat {
  import opened Wrappers

  type Pos = x: int | x >= 1 witness 1

  // `sizeof` of each struct of the format. Their values come from the format
  // header, which is not part of this model; every struct has at least one byte.
  const SCENE_HEADER_BYTES: Pos
  const NODES_BYTES: Pos
  const NODE_BYTES: Pos
  const ITEM_HEADER_BYTES: Pos
  const LIGHT_ITEM_BYTES: Pos
  const SUNLIGHT_ITEM_BYTES: Pos
  const MESH_ITEM_BYTES: Pos
  const SKELETON_MESH_ITEM_BYTES: Pos
  /** `sizeof(MaterialItem)`; the sky, volume, grass, terrain and particles
      items are material items and share it. */
  const MATERIAL_ITEM_BYTES: Pos
  const ASSET_ID_BYTES: Pos
  const MATERIAL_PROPERTY_BYTES: Pos

  datatype Vec3 = Vec3(x: real, y: real, z: real)
  datatype Quat = Quat(w: real, x: real, y: real, z: real)
  datatype Transform = Transform(position: Vec3, rotation: Quat, scale: Vec3)

  const VEC3_ONE := Vec3(1.0, 1.0, 1.0)

  datatype LightType = DIRECTIONAL | POINT | SPOT

  datatype LightItem = LightItem(
    lightType: LightType,
    color: Vec3,
    radius: real,
    innerAngle: real,
    outerAngle: real,
    nearClipDistance: real,
    iesLightProfileIndex: int)

  datatype SunlightItem = SunlightItem(
    sunriseTime: real,
    sunsetTime: real,
    eastDirection: real,
    angleOfIncidence: real,
    timeOfDay: real)

  datatype MeshItem = MeshItem(meshAssetId: u32, numberOfSubMeshMaterialAssetIds: nat)

  datatype SkeletonMeshItem = SkeletonMeshItem(skeletonAnimationAssetId: u32)

  datatype MaterialItem = MaterialItem(
    materialAssetId: u32,
    materialTechniqueId: u32,
    materialBlueprintAssetId: u32,
    numberOfMaterialProperties: nat)

  /** The typed value of a material property; its union of value kinds is
      kept opaque. */
  datatype PropertyValue = PropertyValue(raw: seq<real>)

  datatype MaterialProperty = MaterialProperty(id: u32, value: PropertyValue, overwritten: bool)

  datatype NodeRecord = NodeRecord(transform: Transform, numberOfItems: nat)

  /** One `memoryFile.write` of the scene compiler. */
  datatype Record =
    | SceneHeader(unused: int)
    | Nodes(numberOfNodes: nat)
    | Node(node: NodeRecord)
    | ItemHeader(typeId: u32, numberOfBytes: nat)
    | Light(light: LightItem)
    | Sunlight(sunlight: SunlightItem)
    | SkeletonMesh(skeletonMesh: SkeletonMeshItem)
    | Mesh(mesh: MeshItem)
    | AssetIds(ids: seq<u32>)
    | Material(material: MaterialItem)
    | MaterialProperties(properties: seq<MaterialProperty>)

  /** The number of bytes a record occupies in the stream. */
  function RecordBytes(r: Record): nat {
    match r
    case SceneHeader(_) => SCENE_HEADER_BYTES
    case Nodes(_) => NODES_BYTES
    case Node(_) => NODE_BYTES
    case ItemHeader(_, _) => ITEM_HEADER_BYTES
    case Light(_) => LIGHT_ITEM_BYTES
    case Sunlight(_) => SUNLIGHT_ITEM_BYTES
    case SkeletonMesh(_) => SKELETON_MESH_ITEM_BYTES
    case Mesh(_) => MESH_ITEM_BYTES
    case AssetIds(ids) => ASSET_ID_BYTES * |ids|
    case Material(_) => MATERIAL_ITEM_BYTES
    case MaterialProperties(ps) => MATERIAL_PROPERTY_BYTES * |ps|
  }

  /** The number of bytes of a run of records. */
  function Bytes(rs: seq<Record>): nat {
    if |rs| == 0 then 0 else RecordBytes(rs[0]) + Bytes(rs[1..])
  }

  lemma {:induction false} BytesAppend(a: seq<Record>, b: seq<Record>)
    ensures Bytes(a + b) == Bytes(a) + Bytes(b)
  {
    if |a| == 0 {
      assert a + b == b;
    } else {
      assert (a + b)[1..] == a[1..] + b;
      BytesAppend(a[1..], b);
    }
  }

  /** A payload the loader can delimit: item payloads never contain an item
      header or a record of zero bytes. */
  predicate PayloadRecord(r: Record) {
    && !r.ItemHeader? && !r.Node? && !r.Nodes? && !r.SceneHeader?
    && RecordBytes(r) > 0
  }

  predicate WellFormedPayload(payload: seq<Record>) {
    forall k :: 0 <= k < |payload| ==> PayloadRecord(payload[k])
  }

  lemma WellFormedAppend(a: seq<Record>, b: seq<Record>)
    requires WellFormedPayload(a) && WellFormedPayload(b)
    ensures WellFormedPayload(a + b)
  {
    forall k | 0 <= k < |a + b| ensures PayloadRecord((a + b)[k]) {
      if k < |a| {
        assert (a + b)[k] == a[k];
      } else {
        assert (a + b)[k] == b[k - |a|];
      }
    }
  }

  /** The decoded view of one item: its type and its payload. */
  datatype Item = Item(typeId: u32, payload: seq<Record>)

  /** The decoded view of one node: its record and its items. */
  datatype SceneNode = SceneNode(node: NodeRecord, items: seq<Item>)

  predicate WellFormedNode(n: SceneNode) {
    && n.node.numberOfItems == |n.items|
    && forall k :: 0 <= k < |n.items| ==> WellFormedPayload(n.items[k].payload)
  }

  /** The records of one item: header with the payload's size, then payload. */
  function ItemStream(it: Item): seq<Record> {
    [ItemHeader(it.typeId, Bytes(it.payload))] + it.payload
  }

  function ItemsStream(items: seq<Item>): seq<Record> {
    if |items| == 0 then [] else ItemsStream(items[..|items| - 1]) + ItemStream(items[|items| - 1])
  }

  function NodeStream(n: SceneNode): seq<Record> {
    [Node(n.node)] + ItemsStream(n.items)
  }

  function NodesStream(nodes: seq<SceneNode>): seq<Record> {
    if |nodes| == 0 then [] else NodesStream(nodes[..|nodes| - 1]) + NodeStream(nodes[|nodes| - 1])
  }

  /** The whole stream of a scene. */
  function SceneStream(unused: int, nodes: seq<SceneNode>): seq<Record> {
    [SceneHeader(unused), Nodes(|nodes|)] + NodesStream(nodes)
  }

  // ---------------------------------------------------------------------
  // Loader side: reading the stream back using only the header sizes.
  // ---------------------------------------------------------------------

  /** Splits off the records that make up exactly `n` payload bytes. */
  function TakePayload(rs: seq<Record>, n: nat): Option<(seq<Record>, seq<Record>)>
    decreases |rs|
  {
    if n == 0 then Some(([], rs))
    else if |rs| == 0 || !PayloadRecord(rs[0]) || RecordBytes(rs[0]) > n then None
    else
      var (p, rest) :- TakePayload(rs[1..], n - RecordBytes(rs[0]));
      Some(([rs[0]] + p, rest))
  }

  /** Reads `count` items, each delimited by its header's byte count. */
  function ReadItems(rs: seq<Record>, count: nat): Option<(seq<Item>, seq<Record>)>
    decreases count
  {
    if count == 0 then Some(([], rs))
    else if |rs| == 0 || !rs[0].ItemHeader? then None
    else
      var (payload, rest) :- TakePayload(rs[1..], rs[0].numberOfBytes);
      var (items, rest') :- ReadItems(rest, count - 1);
      Some(([Item(rs[0].typeId, payload)] + items, rest'))
  }

  function ReadNodes(rs: seq<Record>, count: nat): Option<(seq<SceneNode>, seq<Record>)>
    decreases count
  {
    if count == 0 then Some(([], rs))
    else if |rs| == 0 || !rs[0].Node? then None
    else
      var (items, rest) :- ReadItems(rs[1..], rs[0].node.numberOfItems);
      var (nodes, rest') :- ReadNodes(rest, count - 1);
      Some(([SceneNode(rs[0].node, items)] + nodes, rest'))
  }

  /** The loader: scene header, node count, then the nodes; nothing may follow. */
  function ReadScene(rs: seq<Record>): Option<seq<SceneNode>> {
    if |rs| < 2 || !rs[0].SceneHeader? || !rs[1].Nodes? then None
    else
      var (nodes, rest) :- ReadNodes(rs[2..], rs[1].numberOfNodes);
      if rest == [] then Some(nodes) else None
  }

  lemma {:induction false} TakePayloadOf(payload: seq<Record>, rest: seq<Record>)
    requires WellFormedPayload(payload)
    ensures TakePayload(payload + rest, Bytes(payload)) == Some((payload, rest))
  {
    if |payload| == 0 {
      assert payload + rest == rest;
    } else {
      assert (payload + rest)[0] == payload[0];
      assert (payload + rest)[1..] == payload[1..] + rest;
      assert WellFormedPayload(payload[1..]) by {
        forall k | 0 <= k < |payload[1..]| ensures PayloadRecord(payload[1..][k]) {
          assert payload[1..][k] == payload[k + 1];
        }
      }
      TakePayloadOf(payload[1..], rest);
      assert [payload[0]] + payload[1..] == payload;
    }
  }

  /** Items appended one by one read back as a whole: the stream of the
      items followed by anything else. The items' stream is built from the
      right (as the compiler appends) and read from the left (as the loader
      reads), so the induction shifts one item at a time. */
  lemma {:induction false} ReadItemsOf(items: seq<Item>, rest: seq<Record>)
    requires forall k :: 0 <= k < |items| ==> WellFormedPayload(items[k].payload)
    ensures ReadItems(ItemsStream(items) + rest, |items|) == Some((items, rest))
    decreases |items|
  {
    if |items| > 0 {
      var first := items[0];
      ItemsStreamCons(items);
      var tail := ItemsStream(items[1..]);
      assert ItemsStream(items) + rest == ItemStream(first) + (tail + rest);
      var s := ItemStream(first) + (tail + rest);
      assert s[0] == ItemHeader(first.typeId, Bytes(first.payload));
      assert s[1..] == first.payload + (tail + rest);
      TakePayloadOf(first.payload, tail + rest);
      assert TakePayload(s[1..], s[0].numberOfBytes) == Some((first.payload, tail + rest));
      assert forall k :: 0 <= k < |items[1..]| ==> items[1..][k] == items[k + 1];
      ReadItemsOf(items[1..], rest);
      assert ReadItems(tail + rest, |items| - 1) == Some((items[1..], rest));
      assert [first] + items[1..] == items;
      assert ReadItems(s, |items|) == Some(([Item(first.typeId, first.payload)] + items[1..], rest));
    } else {
      assert ItemsStream(items) + rest == rest;
    }
  }

  lemma {:induction false} ItemsStreamCons(items: seq<Item>)
    requires |items| > 0
    ensures ItemsStream(items) == ItemStream(items[0]) + ItemsStream(items[1..])
    decreases |items|
  {
    if |items| == 1 {
      assert items[1..] == [];
      assert items[..0] == [];
    } else {
      var init := items[..|items| - 1];
      ItemsStreamCons(init);
      assert init[0] == items[0];
      assert init[1..] == items[1..][..|items[1..]| - 1];
      assert items[1..][|items[1..]| - 1] == items[|items| - 1];
    }
  }

  lemma {:induction false} NodesStreamCons(nodes: seq<SceneNode>)
    requires |nodes| > 0
    ensures NodesStream(nodes) == NodeStream(nodes[0]) + NodesStream(nodes[1..])
    decreases |nodes|
  {
    if |nodes| == 1 {
      assert nodes[1..] == [];
      assert nodes[..0] == [];
    } else {
      var init := nodes[..|nodes| - 1];
      NodesStreamCons(init);
      assert init[0] == nodes[0];
      assert init[1..] == nodes[1..][..|nodes[1..]| - 1];
      assert nodes[1..][|nodes[1..]| - 1] == nodes[|nodes| - 1];
    }
  }

  lemma {:induction false} ReadNodesOf(nodes: seq<SceneNode>, rest: seq<Record>)
    requires forall k :: 0 <= k < |nodes| ==> WellFormedNode(nodes[k])
    ensures ReadNodes(NodesStream(nodes) + rest, |nodes|) == Some((nodes, rest))
    decreases |nodes|
  {
    if |nodes| > 0 {
      var first := nodes[0];
      NodesStreamCons(nodes);
      var tail := NodesStream(nodes[1..]);
      var s := NodesStream(nodes) + rest;
      assert s == [Node(first.node)] + (ItemsStream(first.items) + (tail + rest));
      assert s[0] == Node(first.node);
      assert s[1..] == ItemsStream(first.items) + (tail + rest);
      assert WellFormedNode(first);
      ReadItemsOf(first.items, tail + rest);
      assert ReadItems(s[1..], s[0].node.numberOfItems) == Some((first.items, tail + rest));
      assert forall k :: 0 <= k < |nodes[1..]| ==> nodes[1..][k] == nodes[k + 1];
      ReadNodesOf(nodes[1..], rest);
      assert ReadNodes(tail + rest, |nodes| - 1) == Some((nodes[1..], rest));
      assert [first] + nodes[1..] == nodes;
      assert ReadNodes(s, |nodes|) == Some(([SceneNode(first.node, first.items)] + nodes[1..], rest));
    } else {
      assert NodesStream(nodes) + rest == rest;
    }
  }

  /** Round trip: the loader recovers every node record and every item (type
      and payload) of a scene stream, skipping payloads by size alone. */
  lemma SceneRoundTrip(unused: int, nodes: seq<SceneNode>)
    requires forall k :: 0 <= k < |nodes| ==> WellFormedNode(nodes[k])
    ensures ReadScene(SceneStream(unused, nodes)) == Some(nodes)
  {
    var s := SceneStream(unused, nodes);
    assert s[2..] == NodesStream(nodes) + [];
    ReadNodesOf(nodes, []);
  }
}
