/** `MeshAssetCompiler::compile` and the output file name: the material map,
    the bone limit and the skeleton, the counting pass and its limits, the
    index format and vertex layout, the filling pass, the header and the
    index data as written. The result is specified by `CompileMesh`, a
    function of the compiler's JSON section, the scene and the helpers. */
module MeshCompiler {
  import opened Wrappers
  import opened Json
  import opened AssimpScene
  import opened MeshAsset
  import opened MeshMaterials
  import opened MeshCounting
  import opened MeshFill
  import MeshSkeleton
  import Paths

  const MESH_EXTENSION := ".mesh"

  /** `getVirtualOutputAssetFilename`: the stem of the asset file with the
      mesh extension, in the output directory. */
  function OutputFilename(virtualAssetOutputDirectory: string, virtualAssetFilename: string): string {
    Paths.OutputAssetFilename(virtualAssetOutputDirectory, virtualAssetFilename, MESH_EXTENSION)
  }

  /** The mesh compiled from `directory/name.extension` goes to
      `name.mesh` in the output directory. */
  lemma OutputFilenameOfAsset(virtualAssetOutputDirectory: string, directory: string, name: string, extension: string)
    requires |name| > 0 && name + "." + extension != ".."
    requires forall i :: 0 <= i < |name| ==> name[i] != '/'
    requires forall i :: 0 <= i < |extension| ==> extension[i] != '/' && extension[i] != '.'
    ensures OutputFilename(virtualAssetOutputDirectory, directory + "/" + name + "." + extension) == virtualAssetOutputDirectory + "/" + name + ".mesh"
  {
    var file := directory + "/" + name + "." + extension;
    Paths.StemDropsLastExtension(directory, name, extension);
    var r := OutputFilename(virtualAssetOutputDirectory, file);
    var d := |virtualAssetOutputDirectory| + 1;
    assert r == r[..d] + r[d..|r| - 5] + r[|r| - 5..];
  }

  // ---------------------------------------------------------------------
  // What the compiler writes
  // ---------------------------------------------------------------------

  /** The discrete part of the mesh file: the header, the vertex buffer, the
      index buffer, the sub-meshes and the skeleton's parent indices and
      bone IDs. */
  datatype MeshOutput = MeshOutput(header: MeshHeader, vertexData: seq<u8>, indexData: IndexData, subMeshes: seq<SubMesh>, skeleton: MeshSkeleton.BoneTable)

  /** The meshes the node tree references, in the order both passes visit
      them. */
  function Walk(scene: Scene): (walk: seq<Mesh>)
    requires ValidScene(scene)
    ensures InRange(MeshRefs(scene.root), |scene.meshes|)
    ensures MaterialsIn(walk, |scene.materials|)
    ensures forall k :: 0 <= k < |walk| ==> FacesInside(walk[k]) && WeightsInside(walk[k])
  {
    MeshRefsInRange(scene.root, |scene.meshes|);
    var walk := Referenced(scene, MeshRefs(scene.root));
    assert forall k :: 0 <= k < |walk| ==> ValidMesh(walk[k], |scene.materials|);
    walk
  }

  /** The skeleton arrays as `new[]` leaves them, given as functions of the
      slot index. */
  function Uninitialised(numberOfBones: nat, uninitialisedParentIndex: nat -> u8, uninitialisedBoneId: nat -> u32): (t: MeshSkeleton.BoneTable)
    ensures |t.parentIndices| == |t.ids| == numberOfBones
  {
    MeshSkeleton.BoneTable(seq(numberOfBones, i requires 0 <= i => uninitialisedParentIndex(i) as nat), seq(numberOfBones, i requires 0 <= i => uninitialisedBoneId(i)))
  }

  /** An index as the loop of `compile` narrows it: `static_cast<uint16_t>`
      keeps the low 16 bits. */
  function Narrow(indices: seq<nat>): (r: seq<u16>)
    ensures |r| == |indices|
  {
    seq(|indices|, k requires 0 <= k < |indices| => (indices[k] % 0x1_0000) as u16)
  }

  /** The index values a reader of the file gets back. */
  function StoredIndices(d: IndexData): seq<nat> {
    match d
    case NoIndices => []
    case ShortIndices(shorts) => seq(|shorts|, k requires 0 <= k < |shorts| => shorts[k] as nat)
    case IntIndices(ints) => ints
  }

  /** The index data of `compile`: nothing without indices, the 32-bit
      indices as they are, or each narrowed to 16 bits. */
  function IndexDataOf(format: IndexBufferFormat, indices: seq<nat>): IndexData {
    if |indices| == 0 then NoIndices
    else if format == UNSIGNED_INT then IntIndices(indices)
    else ShortIndices(Narrow(indices))
  }

  /** Narrowing loses nothing when every index fits in 16 bits, and the
      data is 16-bit exactly when there are indices and the format says
      so. */
  lemma IndexDataRoundTrip(format: IndexBufferFormat, indices: seq<nat>)
    requires format == UNSIGNED_SHORT ==> forall k :: 0 <= k < |indices| ==> indices[k] <= MAX_U16
    ensures StoredIndices(IndexDataOf(format, indices)) == indices
    ensures IndexDataOf(format, indices).ShortIndices? <==> |indices| > 0 && format == UNSIGNED_SHORT
    ensures IndexDataOf(format, indices).NoIndices? <==> |indices| == 0
  {
    if |indices| > 0 && format == UNSIGNED_SHORT {
      var stored := StoredIndices(IndexDataOf(format, indices));
      assert forall k :: 0 <= k < |indices| ==> stored[k] == indices[k] % 0x1_0000 == indices[k];
    }
  }

  /** A 16-bit index of 2^16 or more comes back as another vertex: narrowing
      is lossless only under the bound `IndexFormat` ensures. */
  lemma NarrowWrapsAbove()
    ensures StoredIndices(IndexDataOf(UNSIGNED_SHORT, [MAX_U16 + 1])) == [0]
  {
    assert Narrow([MAX_U16 + 1])[0] == 0;
  }

  // ---------------------------------------------------------------------
  // The compilation, as a function
  // ---------------------------------------------------------------------

  /** The skeleton arrays keep their length. */
  lemma SkeletonSize(numberOfBones: nat, boneId: string -> u32, root: Node, initial: MeshSkeleton.BoneTable)
    requires MeshSkeleton.HierarchyFits(numberOfBones, root)
    requires |initial.parentIndices| == |initial.ids| == numberOfBones
    requires MeshSkeleton.SkeletonContents(numberOfBones, boneId, root, initial).Success?
    ensures var t := MeshSkeleton.SkeletonContents(numberOfBones, boneId, root, initial).value;
            |t.parentIndices| == |t.ids| == numberOfBones
  {
    if numberOfBones > 0 && MeshSkeleton.BoneHierarchy(root).SingleRootBone? {
      MeshSkeleton.SkeletonContentsMeaning(numberOfBones, boneId, root, initial);
    }
  }

  /** The part of `compile` after the counting pass: the limits on the
      counts, the fill of a zeroed vertex buffer, the header and the index
      data. */
  function Assemble(ctx: FillContext, scene: Scene, numberOfBones: nat, bones: MeshSkeleton.BoneTable, counts: Counts): Result<MeshOutput, MeshError>
    requires ValidScene(scene) && |bones.ids| == numberOfBones
    requires counts.numberOfVertices == SumVertices(Walk(scene))
  {
    if counts.numberOfVertices == 0 then Failure(NoVertices)
    else if |counts.subMeshes| == 0 then Failure(NoSubMeshes)
    else if |counts.subMeshes| > MAX_U16 then Failure(TooManySubMeshes)
    else
      var walk := Walk(scene);
      var numberOfBytesPerVertex := BytesPerVertex(numberOfBones);
      var indexBufferFormat := IndexFormat(counts.numberOfVertices);
      var vertexData :- BonesFrom(ctx, bones.ids, Zeros(numberOfBytesPerVertex * counts.numberOfVertices), 0, walk);
      var header := MeshHeader(numberOfBytesPerVertex, counts.numberOfVertices, indexBufferFormat, counts.numberOfIndices,
                               Attributes(numberOfBones), |counts.subMeshes|, numberOfBones);
      Success(MeshOutput(header, vertexData, IndexDataOf(indexBufferFormat, IndicesFrom(walk, 0)), counts.subMeshes, bones))
  }

  /** `compile` on a loaded scene: the material map, the bone limit, the
      skeleton, the counting pass, then the rest. */
  function CompileMesh(h: MaterialHelpers, compilerSection: Value, ctx: FillContext, scene: Scene, numberOfBones: nat,
                       uninitialisedParentIndex: nat -> u8, uninitialisedBoneId: nat -> u32): Result<MeshOutput, MeshError>
    requires ValidScene(scene) && MeshSkeleton.HierarchyFits(numberOfBones, scene.root)
  {
    var materialNameToAssetId :- MaterialNameMap(h, MappingEntries(compilerSection), map[]);
    if numberOfBones > MAX_BONES then Failure(TooManyBones)
    else
      var initial := Uninitialised(numberOfBones, uninitialisedParentIndex, uninitialisedBoneId);
      match MeshSkeleton.SkeletonContents(numberOfBones, ctx.boneId, scene.root, initial)
      case Failure(e) => Failure(SkeletonFailed(e))
      case Success(bones) =>
        SkeletonSize(numberOfBones, ctx.boneId, scene.root, initial);
        var walk := Walk(scene);
        var counts :- CountFrom(Resolver(h, materialNameToAssetId), scene.materials, Counts(0, 0, []), walk);
        CountFromTotals(Resolver(h, materialNameToAssetId), scene.materials, Counts(0, 0, []), walk);
        Assemble(ctx, scene, numberOfBones, bones, counts)
  }

  // ---------------------------------------------------------------------
  // What the compilation promises
  // ---------------------------------------------------------------------

  /** The material map of the compiler's section. */
  function MaterialMap(h: MaterialHelpers, compilerSection: Value): Result<map<string, u32>, MeshError> {
    MaterialNameMap(h, MappingEntries(compilerSection), map[])
  }

  /** The skeleton the constructor builds. */
  function SkeletonOf(ctx: FillContext, scene: Scene, numberOfBones: nat, uninitialisedParentIndex: nat -> u8, uninitialisedBoneId: nat -> u32)
    : Result<MeshSkeleton.BoneTable, MeshSkeleton.SkeletonError>
  {
    MeshSkeleton.SkeletonContents(numberOfBones, ctx.boneId, scene.root, Uninitialised(numberOfBones, uninitialisedParentIndex, uninitialisedBoneId))
  }

  /** A mesh compiles exactly when every mapping entry is accepted, the bone
      count is at most 255, the skeleton is built, every referenced mesh's
      material resolves, the meshes have a vertex, there are at most 65535
      mesh references, and no mesh fails its tangent space generation or,
      skinned, has a bone the skeleton does not know. */
  lemma CompileMeshSucceeds(h: MaterialHelpers, compilerSection: Value, ctx: FillContext, scene: Scene, numberOfBones: nat,
                            uninitialisedParentIndex: nat -> u8, uninitialisedBoneId: nat -> u32)
    requires ValidScene(scene) && MeshSkeleton.HierarchyFits(numberOfBones, scene.root)
    ensures var entries := MappingEntries(compilerSection);
            MaterialMap(h, compilerSection).Success? <==> forall k :: 0 <= k < |entries| ==> Accepted(entries, map[], k)
    ensures var m := MaterialMap(h, compilerSection);
            var skeleton := SkeletonOf(ctx, scene, numberOfBones, uninitialisedParentIndex, uninitialisedBoneId);
            var walk := Walk(scene);
            CompileMesh(h, compilerSection, ctx, scene, numberOfBones, uninitialisedParentIndex, uninitialisedBoneId).Success? <==>
              && m.Success?
              && numberOfBones <= MAX_BONES
              && skeleton.Success?
              && AllResolve(Resolver(h, m.value), scene.materials, walk)
              && SumVertices(walk) > 0
              && |walk| <= MAX_U16
              && forall k :: 0 <= k < |walk| ==> !MeshFails(ctx, skeleton.value.ids, walk[k])
  {
    var entries := MappingEntries(compilerSection);
    MaterialNameMapSucceeds(h, entries, map[]);
    var m := MaterialMap(h, compilerSection);
    var skeleton := SkeletonOf(ctx, scene, numberOfBones, uninitialisedParentIndex, uninitialisedBoneId);
    var walk := Walk(scene);
    if m.Success? && numberOfBones <= MAX_BONES && skeleton.Success? {
      var initial := Uninitialised(numberOfBones, uninitialisedParentIndex, uninitialisedBoneId);
      SkeletonSize(numberOfBones, ctx.boneId, scene.root, initial);
      var resolve := Resolver(h, m.value);
      var c := Counts(0, 0, []);
      CountFromSucceeds(resolve, scene.materials, c, walk);
      var counts := CountFrom(resolve, scene.materials, c, walk);
      if counts.Success? {
        CountFromTotals(resolve, scene.materials, c, walk);
        AssembleSucceeds(ctx, scene, numberOfBones, skeleton.value, counts.value);
        assert CompileMesh(h, compilerSection, ctx, scene, numberOfBones, uninitialisedParentIndex, uninitialisedBoneId) ==
               Assemble(ctx, scene, numberOfBones, skeleton.value, counts.value);
      }
    }
  }

  /** The rest of the compilation succeeds exactly when the meshes have a
      vertex, there are at most 65535 of them, and no mesh fails its tangent
      space generation or, skinned, has a bone the skeleton does not know. */
  lemma AssembleSucceeds(ctx: FillContext, scene: Scene, numberOfBones: nat, bones: MeshSkeleton.BoneTable, counts: Counts)
    requires ValidScene(scene) && |bones.ids| == numberOfBones
    requires counts.numberOfVertices == SumVertices(Walk(scene)) && |counts.subMeshes| == |Walk(scene)|
    ensures var walk := Walk(scene);
            Assemble(ctx, scene, numberOfBones, bones, counts).Success? <==>
              SumVertices(walk) > 0 && |walk| <= MAX_U16 && forall k :: 0 <= k < |walk| ==> !MeshFails(ctx, bones.ids, walk[k])
  {
    var walk := Walk(scene);
    var n := counts.numberOfVertices;
    if n > 0 && 0 < |walk| <= MAX_U16 {
      BonesFromSucceeds(ctx, bones.ids, Zeros(BytesPerVertex(numberOfBones) * n), 0, walk);
    }
  }

  /** A failed compilation names the first thing that failed, in the order
      of the source: the first rejected mapping entry, the bone limit, the
      skeleton, the material of the first mesh whose material does not
      resolve, the missing vertices, the sub-mesh limit, then the error of
      the first mesh whose turn of the fill throws: its tangent space
      generation, or else its first unknown bone. */
  lemma CompileMeshFailure(h: MaterialHelpers, compilerSection: Value, ctx: FillContext, scene: Scene, numberOfBones: nat,
                           uninitialisedParentIndex: nat -> u8, uninitialisedBoneId: nat -> u32)
    requires ValidScene(scene) && MeshSkeleton.HierarchyFits(numberOfBones, scene.root)
    requires CompileMesh(h, compilerSection, ctx, scene, numberOfBones, uninitialisedParentIndex, uninitialisedBoneId).Failure?
    ensures var e := CompileMesh(h, compilerSection, ctx, scene, numberOfBones, uninitialisedParentIndex, uninitialisedBoneId).error;
            var entries := MappingEntries(compilerSection);
            MaterialMap(h, compilerSection).Failure? ==>
              exists k :: 0 <= k < |entries| && (forall j :: 0 <= j < k ==> Accepted(entries, map[], j)) &&
                          !Accepted(entries, map[], k) && e == Rejection(entries, map[], k)
    ensures var e := CompileMesh(h, compilerSection, ctx, scene, numberOfBones, uninitialisedParentIndex, uninitialisedBoneId).error;
            var skeleton := SkeletonOf(ctx, scene, numberOfBones, uninitialisedParentIndex, uninitialisedBoneId);
            MaterialMap(h, compilerSection).Success? ==>
              && (numberOfBones > MAX_BONES ==> e == TooManyBones)
              && (numberOfBones <= MAX_BONES && skeleton.Failure? ==> e == SkeletonFailed(skeleton.error))
    ensures var e := CompileMesh(h, compilerSection, ctx, scene, numberOfBones, uninitialisedParentIndex, uninitialisedBoneId).error;
            var m := MaterialMap(h, compilerSection);
            var skeleton := SkeletonOf(ctx, scene, numberOfBones, uninitialisedParentIndex, uninitialisedBoneId);
            var walk := Walk(scene);
            m.Success? && numberOfBones <= MAX_BONES && skeleton.Success? ==>
              && (!AllResolve(Resolver(h, m.value), scene.materials, walk) ==>
                    exists k :: 0 <= k < |walk| &&
                                (forall j :: 0 <= j < k ==> IsValid(MeshMaterialAssetId(Resolver(h, m.value), scene.materials, walk[j]))) &&
                                !IsValid(MeshMaterialAssetId(Resolver(h, m.value), scene.materials, walk[k])) &&
                                e == FailedMaterial(scene.materials[walk[k].materialIndex].name))
              && (AllResolve(Resolver(h, m.value), scene.materials, walk) && SumVertices(walk) == 0 ==> e == NoVertices)
              && (AllResolve(Resolver(h, m.value), scene.materials, walk) && SumVertices(walk) > 0 && |walk| > MAX_U16 ==> e == TooManySubMeshes)
              && (AllResolve(Resolver(h, m.value), scene.materials, walk) && SumVertices(walk) > 0 && |walk| <= MAX_U16 ==>
                    exists k :: 0 <= k < |walk| && MeshFails(ctx, skeleton.value.ids, walk[k]) &&
                                (forall j :: 0 <= j < k ==> !MeshFails(ctx, skeleton.value.ids, walk[j])) &&
                                e == MeshStepError(ctx, skeleton.value.ids, walk[k]))
  {
    var entries := MappingEntries(compilerSection);
    var m := MaterialMap(h, compilerSection);
    var skeleton := SkeletonOf(ctx, scene, numberOfBones, uninitialisedParentIndex, uninitialisedBoneId);
    var walk := Walk(scene);
    if m.Failure? {
      MaterialNameMapFailure(h, entries, map[]);
    } else if numberOfBones <= MAX_BONES && skeleton.Success? {
      var initial := Uninitialised(numberOfBones, uninitialisedParentIndex, uninitialisedBoneId);
      SkeletonSize(numberOfBones, ctx.boneId, scene.root, initial);
      var resolve := Resolver(h, m.value);
      var c := Counts(0, 0, []);
      CountFromSucceeds(resolve, scene.materials, c, walk);
      var counts := CountFrom(resolve, scene.materials, c, walk);
      if counts.Failure? {
        CountFromFailure(resolve, scene.materials, c, walk);
      } else {
        CountFromTotals(resolve, scene.materials, c, walk);
        var n := counts.value.numberOfVertices;
        var bytes := Zeros(BytesPerVertex(numberOfBones) * n);
        assert CompileMesh(h, compilerSection, ctx, scene, numberOfBones, uninitialisedParentIndex, uninitialisedBoneId) ==
               Assemble(ctx, scene, numberOfBones, skeleton.value, counts.value);
        if n > 0 && 0 < |walk| <= MAX_U16 {
          BonesFromFailure(ctx, skeleton.value.ids, bytes, 0, walk);
        }
      }
    }
  }

  /** The check for an empty sub-mesh list never fires: without mesh
      references the mesh has no vertices, which is reported first. */
  lemma NoSubMeshesUnreachable(h: MaterialHelpers, compilerSection: Value, ctx: FillContext, scene: Scene, numberOfBones: nat,
                               uninitialisedParentIndex: nat -> u8, uninitialisedBoneId: nat -> u32)
    requires ValidScene(scene) && MeshSkeleton.HierarchyFits(numberOfBones, scene.root)
    ensures CompileMesh(h, compilerSection, ctx, scene, numberOfBones, uninitialisedParentIndex, uninitialisedBoneId) != Failure(NoSubMeshes)
  {
    if CompileMesh(h, compilerSection, ctx, scene, numberOfBones, uninitialisedParentIndex, uninitialisedBoneId).Failure? {
      CompileMeshFailure(h, compilerSection, ctx, scene, numberOfBones, uninitialisedParentIndex, uninitialisedBoneId);
    }
  }

  /** A compiled mesh's parts, from the stages that made it: the counts of
      the walk, the skeleton, and the bone bytes of a zeroed vertex
      buffer. */
  lemma CompileMeshParts(h: MaterialHelpers, compilerSection: Value, ctx: FillContext, scene: Scene, numberOfBones: nat,
                         uninitialisedParentIndex: nat -> u8, uninitialisedBoneId: nat -> u32)
    requires ValidScene(scene) && MeshSkeleton.HierarchyFits(numberOfBones, scene.root)
    requires CompileMesh(h, compilerSection, ctx, scene, numberOfBones, uninitialisedParentIndex, uninitialisedBoneId).Success?
    ensures MaterialMap(h, compilerSection).Success? && numberOfBones <= MAX_BONES
    ensures SkeletonOf(ctx, scene, numberOfBones, uninitialisedParentIndex, uninitialisedBoneId).Success?
    ensures var skeleton := SkeletonOf(ctx, scene, numberOfBones, uninitialisedParentIndex, uninitialisedBoneId).value;
            && |skeleton.ids| == |skeleton.parentIndices| == numberOfBones
            && CountFrom(Resolver(h, MaterialMap(h, compilerSection).value), scene.materials, Counts(0, 0, []), Walk(scene)).Success?
    ensures var skeleton := SkeletonOf(ctx, scene, numberOfBones, uninitialisedParentIndex, uninitialisedBoneId).value;
            var counts := CountFrom(Resolver(h, MaterialMap(h, compilerSection).value), scene.materials, Counts(0, 0, []), Walk(scene)).value;
            var walk := Walk(scene);
            var out := CompileMesh(h, compilerSection, ctx, scene, numberOfBones, uninitialisedParentIndex, uninitialisedBoneId).value;
            && counts.numberOfVertices == SumVertices(walk) > 0
            && counts.numberOfIndices == SumIndices(walk)
            && 0 < |counts.subMeshes| == |walk| <= MAX_U16
            && BonesFrom(ctx, skeleton.ids, Zeros(BytesPerVertex(numberOfBones) * SumVertices(walk)), 0, walk).Success?
            && out == MeshOutput(MeshHeader(BytesPerVertex(numberOfBones), SumVertices(walk), IndexFormat(SumVertices(walk)), SumIndices(walk),
                                            Attributes(numberOfBones), |walk|, numberOfBones),
                                 BonesFrom(ctx, skeleton.ids, Zeros(BytesPerVertex(numberOfBones) * SumVertices(walk)), 0, walk).value,
                                 IndexDataOf(IndexFormat(SumVertices(walk)), IndicesFrom(walk, 0)),
                                 counts.subMeshes, skeleton)
  {
    var initial := Uninitialised(numberOfBones, uninitialisedParentIndex, uninitialisedBoneId);
    SkeletonSize(numberOfBones, ctx.boneId, scene.root, initial);
    var m := MaterialMap(h, compilerSection).value;
    CountFromTotals(Resolver(h, m), scene.materials, Counts(0, 0, []), Walk(scene));
  }

  /** A compiled mesh's header holds the totals of the referenced meshes,
      the layout the skeleton calls for and one sub-mesh per mesh
      reference; sub-mesh `k` has the material of mesh `k`, starts after
      the indices of the meshes before it and spans the mesh's own face
      indices. The skeleton is the one its constructor builds. */
  lemma CompileMeshHeader(h: MaterialHelpers, compilerSection: Value, ctx: FillContext, scene: Scene, numberOfBones: nat,
                          uninitialisedParentIndex: nat -> u8, uninitialisedBoneId: nat -> u32)
    requires ValidScene(scene) && MeshSkeleton.HierarchyFits(numberOfBones, scene.root)
    requires CompileMesh(h, compilerSection, ctx, scene, numberOfBones, uninitialisedParentIndex, uninitialisedBoneId).Success?
    ensures MaterialMap(h, compilerSection).Success? && SkeletonOf(ctx, scene, numberOfBones, uninitialisedParentIndex, uninitialisedBoneId).Success?
    ensures var out := CompileMesh(h, compilerSection, ctx, scene, numberOfBones, uninitialisedParentIndex, uninitialisedBoneId).value;
            var resolve := Resolver(h, MaterialMap(h, compilerSection).value);
            var walk := Walk(scene);
            && out.header.numberOfVertices == SumVertices(walk) > 0
            && out.header.numberOfIndices == SumIndices(walk)
            && out.header.numberOfSubMeshes == |out.subMeshes| == |walk| <= MAX_U16
            && out.header.numberOfBytesPerVertex == BytesPerVertex(numberOfBones)
            && out.header.indexBufferFormat == IndexFormat(SumVertices(walk))
            && out.header.vertexAttributes == Attributes(numberOfBones)
            && out.header.numberOfBones == numberOfBones <= MAX_BONES
            && |out.vertexData| == out.header.numberOfBytesPerVertex * out.header.numberOfVertices
            && out.skeleton == SkeletonOf(ctx, scene, numberOfBones, uninitialisedParentIndex, uninitialisedBoneId).value
            && forall k :: 0 <= k < |walk| ==>
                 out.subMeshes[k] == SubMesh(MeshMaterialAssetId(resolve, scene.materials, walk[k]), SumIndices(walk[..k]), FaceIndexCount(walk[k].faces))
  {
    CompileMeshParts(h, compilerSection, ctx, scene, numberOfBones, uninitialisedParentIndex, uninitialisedBoneId);
    CountFromSubMeshes(Resolver(h, MaterialMap(h, compilerSection).value), scene.materials, Counts(0, 0, []), Walk(scene));
  }

  /** A compiled mesh's index data reads back as the global indices of the
      referenced meshes, each naming one of the mesh's vertices; it is 16-bit
      exactly when there are indices and every vertex is in 16-bit reach,
      so narrowing loses nothing. The range of sub-mesh `k` holds the face
      indices of mesh `k`, shifted to where its vertices start. */
  lemma CompileMeshIndices(h: MaterialHelpers, compilerSection: Value, ctx: FillContext, scene: Scene, numberOfBones: nat,
                           uninitialisedParentIndex: nat -> u8, uninitialisedBoneId: nat -> u32)
    requires ValidScene(scene) && MeshSkeleton.HierarchyFits(numberOfBones, scene.root)
    requires CompileMesh(h, compilerSection, ctx, scene, numberOfBones, uninitialisedParentIndex, uninitialisedBoneId).Success?
    ensures var out := CompileMesh(h, compilerSection, ctx, scene, numberOfBones, uninitialisedParentIndex, uninitialisedBoneId).value;
            var walk := Walk(scene);
            var stored := StoredIndices(out.indexData);
            && stored == IndicesFrom(walk, 0)
            && (forall p :: 0 <= p < |stored| ==> stored[p] < out.header.numberOfVertices)
            && (out.indexData.ShortIndices? <==> |stored| > 0 && out.header.numberOfVertices <= MAX_U16)
            && (out.indexData.NoIndices? <==> out.header.numberOfIndices == 0)
            && |out.subMeshes| == |walk|
            && forall k :: 0 <= k < |walk| ==> SubMeshHolds(out.subMeshes[k], stored, MeshIndices(walk[k], SumVertices(walk[..k])))
  {
    CompileMeshHeader(h, compilerSection, ctx, scene, numberOfBones, uninitialisedParentIndex, uninitialisedBoneId);
    var out := CompileMesh(h, compilerSection, ctx, scene, numberOfBones, uninitialisedParentIndex, uninitialisedBoneId).value;
    var walk := Walk(scene);
    assert out.indexData == IndexDataOf(IndexFormat(SumVertices(walk)), IndicesFrom(walk, 0)) by {
      CompileMeshParts(h, compilerSection, ctx, scene, numberOfBones, uninitialisedParentIndex, uninitialisedBoneId);
    }
    WalkIndices(walk, out.subMeshes);
  }

  /** The index data of a walk whose faces stay inside their meshes, with
      the format its vertex total calls for, and sub-meshes laid out as the
      counting pass lays them out. */
  lemma WalkIndices(walk: seq<Mesh>, subMeshes: seq<SubMesh>)
    requires forall k :: 0 <= k < |walk| ==> FacesInside(walk[k])
    requires |subMeshes| == |walk|
    requires forall k :: 0 <= k < |walk| ==>
               subMeshes[k].startIndexLocation == SumIndices(walk[..k]) && subMeshes[k].numberOfIndices == FaceIndexCount(walk[k].faces)
    ensures var d := IndexDataOf(IndexFormat(SumVertices(walk)), IndicesFrom(walk, 0));
            var stored := StoredIndices(d);
            && stored == IndicesFrom(walk, 0)
            && (forall p :: 0 <= p < |stored| ==> stored[p] < SumVertices(walk))
            && (d.ShortIndices? <==> |stored| > 0 && SumVertices(walk) <= MAX_U16)
            && (d.NoIndices? <==> SumIndices(walk) == 0)
            && forall k :: 0 <= k < |walk| ==> SubMeshHolds(subMeshes[k], stored, MeshIndices(walk[k], SumVertices(walk[..k])))
  {
    var indices := IndicesFrom(walk, 0);
    IndicesFromBounds(walk, 0);
    assert forall p :: 0 <= p < |indices| ==> IndicesFrom(walk, 0)[p] < 0 + SumVertices(walk);
    IndexDataRoundTrip(IndexFormat(SumVertices(walk)), indices);
    forall k | 0 <= k < |walk|
      ensures SubMeshHolds(subMeshes[k], indices, MeshIndices(walk[k], SumVertices(walk[..k])))
    {
      SubMeshHoldsAt(walk, subMeshes[k], k);
    }
  }

  /** Without a skeleton a pass that succeeds leaves the vertex buffer as
      it was: only bone bytes are part of the model, and they are written
      only for skinned vertices. */
  lemma {:induction false} BonesFromUnskinned(ctx: FillContext, bytes: seq<u8>, base: nat, meshes: seq<Mesh>)
    requires BytesFit([], bytes, base, meshes)
    ensures BonesFrom(ctx, [], bytes, base, meshes).Success? ==> BonesFrom(ctx, [], bytes, base, meshes).value == bytes
    decreases |meshes|
  {
    if |meshes| > 0 {
      assert !Skinned([], meshes[0]);
      BonesFromUnskinned(ctx, bytes, base + meshes[0].numberOfVertices, meshes[1..]);
    }
  }

  /** Without bones a compiled mesh has the plain vertex attributes, a
      vertex buffer the model leaves all zeros, and an empty skeleton. */
  lemma CompileMeshUnskinned(h: MaterialHelpers, compilerSection: Value, ctx: FillContext, scene: Scene,
                             uninitialisedParentIndex: nat -> u8, uninitialisedBoneId: nat -> u32)
    requires ValidScene(scene) && MeshSkeleton.HierarchyFits(0, scene.root)
    requires CompileMesh(h, compilerSection, ctx, scene, 0, uninitialisedParentIndex, uninitialisedBoneId).Success?
    ensures var out := CompileMesh(h, compilerSection, ctx, scene, 0, uninitialisedParentIndex, uninitialisedBoneId).value;
            && out.header.vertexAttributes == VERTEX_ATTRIBUTES
            && out.vertexData == Zeros(NUMBER_OF_BYTES_PER_VERTEX * out.header.numberOfVertices)
            && out.skeleton == MeshSkeleton.BoneTable([], [])
  {
    CompileMeshParts(h, compilerSection, ctx, scene, 0, uninitialisedParentIndex, uninitialisedBoneId);
    var walk := Walk(scene);
    BonesFromUnskinned(ctx, Zeros(NUMBER_OF_BYTES_PER_VERTEX * SumVertices(walk)), 0, walk);
  }

  // ---------------------------------------------------------------------
  // The compilation, step by step
  // ---------------------------------------------------------------------

  /** The loop of `compile` that converts the 32-bit indices to 16 bits. */
  method NarrowIndices(indexBuffer: array<nat>) returns (shorts: seq<u16>)
    ensures shorts == Narrow(indexBuffer[..])
  {
    var shortIndexBuffer := new u16[indexBuffer.Length];
    for i := 0 to indexBuffer.Length
      invariant forall k :: 0 <= k < i ==> shortIndexBuffer[k] == (indexBuffer[k] % 0x1_0000) as u16
    {
      shortIndexBuffer[i] := (indexBuffer[i] % 0x1_0000) as u16;
    }
    shorts := shortIndexBuffer[..];
  }

  /** `compile` from the counts on: the limits, the buffers, the filling
      pass, the header and the index data. The source throws when the fill
      totals differ from the counts; that cannot happen, and the model
      proves it instead. */
  method CompileCounted(ctx: FillContext, skeleton: MeshSkeleton.Skeleton, scene: Scene, counts: Counts) returns (r: Result<MeshOutput, MeshError>)
    requires skeleton.Valid() && ValidScene(scene)
    requires counts.numberOfVertices == SumVertices(Walk(scene)) && counts.numberOfIndices == SumIndices(Walk(scene))
    ensures r == Assemble(ctx, scene, skeleton.numberOfBones, skeleton.Table(skeleton.numberOfBones), counts)
  {
    var numberOfVertices := counts.numberOfVertices;
    var numberOfIndices := counts.numberOfIndices;
    var subMeshes := counts.subMeshes;
    if numberOfVertices == 0 {
      return Failure(NoVertices);
    }
    if |subMeshes| == 0 {
      return Failure(NoSubMeshes);
    }
    if |subMeshes| > MAX_U16 {
      return Failure(TooManySubMeshes);
    }
    var indexBufferFormat := IndexFormat(numberOfVertices);
    var vertexAttributes := Attributes(skeleton.numberOfBones);
    var numberOfBytesPerVertex := BytesPerVertex(skeleton.numberOfBones);
    var vertexBuffer := new u8[numberOfBytesPerVertex * numberOfVertices](_ => 0);
    var indexBuffer := new nat[numberOfIndices];
    ghost var walk := Walk(scene);
    assert vertexBuffer[..] == Zeros(numberOfBytesPerVertex * numberOfVertices);
    assert skeleton.boneIds[..] == skeleton.Table(skeleton.numberOfBones).ids;
    var o, numberOfFilledVertices, numberOfFilledIndices := FillTree(ctx, skeleton, scene, vertexBuffer, indexBuffer);
    if o.Fail? {
      return Failure(o.error);
    }
    assert numberOfFilledVertices == numberOfVertices && numberOfFilledIndices == numberOfIndices;
    assert indexBuffer[..] == IndicesFrom(walk, 0);
    var header := MeshHeader(numberOfBytesPerVertex, numberOfVertices, indexBufferFormat, numberOfIndices,
                             vertexAttributes, |subMeshes|, skeleton.numberOfBones);
    var indexData := NoIndices;
    if numberOfIndices > 0 {
      if indexBufferFormat == UNSIGNED_INT {
        indexData := IntIndices(indexBuffer[..]);
      } else {
        var shorts := NarrowIndices(indexBuffer);
        indexData := ShortIndices(shorts);
      }
    }
    return Success(MeshOutput(header, vertexBuffer[..], indexData, subMeshes, skeleton.Table(skeleton.numberOfBones)));
  }

  /** `compile` on a loaded scene, in the order of the source. The bone
      count comes from `AssimpHelper::getNumberOfBones` and is given. */
  method Compile(h: MaterialHelpers, compilerSection: Value, ctx: FillContext, scene: Scene, numberOfBones: nat,
                 uninitialisedParentIndex: nat -> u8, uninitialisedBoneId: nat -> u32) returns (r: Result<MeshOutput, MeshError>)
    requires ValidScene(scene) && MeshSkeleton.HierarchyFits(numberOfBones, scene.root)
    ensures r == CompileMesh(h, compilerSection, ctx, scene, numberOfBones, uninitialisedParentIndex, uninitialisedBoneId)
  {
    var m := BuildMaterialNameMap(h, compilerSection);
    if m.Failure? {
      return Failure(m.error);
    }
    var materialNameToAssetId := m.value;
    if numberOfBones > MAX_BONES {
      return Failure(TooManyBones);
    }
    var skeleton := new MeshSkeleton.Skeleton(numberOfBones as u8, uninitialisedParentIndex, uninitialisedBoneId);
    ghost var initial := Uninitialised(numberOfBones, uninitialisedParentIndex, uninitialisedBoneId);
    assert skeleton.Table(numberOfBones) == initial;
    var built := skeleton.FillFromRoot(ctx.boneId, scene.root);
    if built.Fail? {
      return Failure(SkeletonFailed(built.error));
    }
    ghost var walk := Walk(scene);
    var counts := CountNode(h, materialNameToAssetId, scene, scene.root, Counts(0, 0, []));
    if counts.Failure? {
      return Failure(counts.error);
    }
    CountFromTotals(Resolver(h, materialNameToAssetId), scene.materials, Counts(0, 0, []), walk);
    SkeletonSize(numberOfBones, ctx.boneId, scene.root, initial);
    r := CompileCounted(ctx, skeleton, scene, counts.value);
  }
}
