/** The mesh asset the mesh compiler writes: its header, sub-mesh records and
    index formats, the vertex layout the compiler fills, and the ways a
    compilation fails. */
module MeshAsset {
  import opened Wrappers
  import MeshSkeleton

  datatype MeshError =
    | DuplicateMaterialName(materialName: string)
    | MissingMaterialAssetId(materialName: string)
    | TooManyBones
    | SkeletonFailed(skeletonError: MeshSkeleton.SkeletonError)
    | FailedMaterial(materialName: string)
    | NoVertices
    | NoSubMeshes
    | TooManySubMeshes
    | InvalidBoneName(boneName: string)
    | TangentSpaceFailed

  /** `v1Mesh::SubMesh`: a material and a contiguous range of the index
      buffer. */
  datatype SubMesh = SubMesh(materialAssetId: u32, startIndexLocation: nat, numberOfIndices: nat)

  datatype IndexBufferFormat = UNSIGNED_SHORT | UNSIGNED_INT

  /** The largest value of a 16-bit unsigned integer. */
  const MAX_U16: nat := 0xFFFF

  /** The largest bone count the skeleton's 8-bit indices can number. */
  const MAX_BONES: nat := 255

  /** `NUMBER_OF_BYTES_PER_VERTEX`: 32-bit position (12 bytes), 32-bit texture
      coordinate (8 bytes) and 16-bit QTangent (8 bytes). */
  const NUMBER_OF_BYTES_PER_VERTEX: nat := 28

  /** `NUMBER_OF_BYTES_PER_SKINNED_VERTEX`: the 28 bytes above, then four
      8-bit bone indices and four 8-bit bone weights. */
  const NUMBER_OF_BYTES_PER_SKINNED_VERTEX: nat := 36

  /** Where the four bone indices and the four bone weights of a skinned
      vertex start, from the start of the vertex. */
  const BONE_INDICES_OFFSET: nat := 3 * 4 + 2 * 4 + 4 * 2
  const BONE_WEIGHTS_OFFSET: nat := BONE_INDICES_OFFSET + 4

  /** The vertex attribute set of the header: skinned vertices carry bone
      indices and weights. */
  datatype VertexAttributes = VERTEX_ATTRIBUTES | SKINNED_VERTEX_ATTRIBUTES

  /** 32-bit indices exactly when some vertex is out of 16-bit reach. */
  function IndexFormat(numberOfVertices: nat): (f: IndexBufferFormat)
    ensures f == UNSIGNED_SHORT <==> numberOfVertices <= MAX_U16
  {
    if numberOfVertices > MAX_U16 then UNSIGNED_INT else UNSIGNED_SHORT
  }

  /** A skeleton makes the vertices skinned. */
  function BytesPerVertex(numberOfBones: nat): (b: nat)
    ensures b == if numberOfBones > 0 then 36 else 28
  {
    if numberOfBones > 0 then NUMBER_OF_BYTES_PER_SKINNED_VERTEX else NUMBER_OF_BYTES_PER_VERTEX
  }

  function Attributes(numberOfBones: nat): (a: VertexAttributes)
    ensures a == SKINNED_VERTEX_ATTRIBUTES <==> numberOfBones > 0
  {
    if numberOfBones > 0 then SKINNED_VERTEX_ATTRIBUTES else VERTEX_ATTRIBUTES
  }

  /** The byte of vertex `v` holding its bone index in slot `s`, and the one
      holding the weight of that slot, in a buffer of skinned vertices. */
  function BoneIndexByte(v: nat, s: nat): nat {
    v * NUMBER_OF_BYTES_PER_SKINNED_VERTEX + BONE_INDICES_OFFSET + s
  }

  function BoneWeightByte(v: nat, s: nat): nat {
    v * NUMBER_OF_BYTES_PER_SKINNED_VERTEX + BONE_WEIGHTS_OFFSET + s
  }

  /** The bone bytes of distinct vertices and slots are distinct bytes, and
      they all lie inside their own vertex, after its position, texture
      coordinate and tangent frame. */
  lemma BoneBytesDisjoint(v: nat, s: nat, v': nat, s': nat)
    requires s < 4 && s' < 4
    ensures v * NUMBER_OF_BYTES_PER_SKINNED_VERTEX + NUMBER_OF_BYTES_PER_VERTEX <= BoneIndexByte(v, s) < (v + 1) * NUMBER_OF_BYTES_PER_SKINNED_VERTEX
    ensures v * NUMBER_OF_BYTES_PER_SKINNED_VERTEX + NUMBER_OF_BYTES_PER_VERTEX <= BoneWeightByte(v, s) < (v + 1) * NUMBER_OF_BYTES_PER_SKINNED_VERTEX
    ensures BoneIndexByte(v, s) != BoneWeightByte(v', s')
    ensures (v, s) != (v', s') ==> BoneIndexByte(v, s) != BoneIndexByte(v', s') && BoneWeightByte(v, s) != BoneWeightByte(v', s')
  {
    if v < v' {
      assert (v + 1) * NUMBER_OF_BYTES_PER_SKINNED_VERTEX <= v' * NUMBER_OF_BYTES_PER_SKINNED_VERTEX;
    } else if v' < v {
      assert (v' + 1) * NUMBER_OF_BYTES_PER_SKINNED_VERTEX <= v * NUMBER_OF_BYTES_PER_SKINNED_VERTEX;
    }
  }

  /** `v1Mesh::MeshHeader` without the bounding volumes. */
  datatype MeshHeader = MeshHeader(
    numberOfBytesPerVertex: nat,
    numberOfVertices: nat,
    indexBufferFormat: IndexBufferFormat,
    numberOfIndices: nat,
    vertexAttributes: VertexAttributes,
    numberOfSubMeshes: nat,
    numberOfBones: nat)

  /** The index buffer as written: none, 16-bit or 32-bit indices. */
  datatype IndexData = NoIndices | ShortIndices(shorts: seq<u16>) | IntIndices(ints: seq<nat>)
}
