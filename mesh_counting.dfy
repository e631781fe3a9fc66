/** The first pass of the mesh compiler over the scene's node tree: it adds
    up vertices and indices and makes one sub-mesh per mesh reference, each
    with the material asset it resolves and the range of the index buffer
    its faces will take. The pass is specified over the referenced meshes
    in walk order (`Referenced(scene, MeshRefs(root))`). */
module MeshCounting {
  import opened Wrappers
  import opened AssimpScene
  import opened MeshAsset
  import opened MeshMaterials

  /** The running totals the pass carries through the tree. */
  datatype Counts = Counts(numberOfVertices: nat, numberOfIndices: nat, subMeshes: seq<SubMesh>)

  /** Each mesh names one of the scene's materials. */
  predicate MaterialsIn(meshes: seq<Mesh>, numberOfMaterials: nat) {
    forall k :: 0 <= k < |meshes| ==> meshes[k].materialIndex < numberOfMaterials
  }

  lemma MaterialsInReferenced(scene: Scene, refs: seq<nat>)
    requires MaterialsIn(scene.meshes, |scene.materials|) && InRange(refs, |scene.meshes|)
    ensures MaterialsIn(Referenced(scene, refs), |scene.materials|)
  {
  }

  /** The number of indices of a face list. */
  function FaceIndexCount(faces: seq<Face>): nat {
    if |faces| == 0 then 0 else FaceIndexCount(faces[..|faces| - 1]) + |faces[|faces| - 1].indices|
  }

  /** The vertices of a run of meshes. */
  function SumVertices(meshes: seq<Mesh>): nat {
    if |meshes| == 0 then 0 else meshes[0].numberOfVertices + SumVertices(meshes[1..])
  }

  /** The indices of a run of meshes. */
  function SumIndices(meshes: seq<Mesh>): nat {
    if |meshes| == 0 then 0 else FaceIndexCount(meshes[0].faces) + SumIndices(meshes[1..])
  }

  lemma {:induction false} SumsAppend(a: seq<Mesh>, b: seq<Mesh>)
    ensures SumVertices(a + b) == SumVertices(a) + SumVertices(b)
    ensures SumIndices(a + b) == SumIndices(a) + SumIndices(b)
    decreases |a|
  {
    if |a| > 0 {
      assert (a + b)[0] == a[0] && (a + b)[1..] == a[1..] + b;
      SumsAppend(a[1..], b);
    } else {
      assert a + b == b;
    }
  }

  /** The material resolution of the pass, `MaterialAssetId` with the
      compiler's helpers and material-name map. */
  function Resolver(h: MaterialHelpers, materialNameToAssetId: map<string, u32>): Material -> u32 {
    material => MaterialAssetId(h, materialNameToAssetId, material)
  }

  /** The material asset of the sub-mesh of a mesh. */
  function MeshMaterialAssetId(resolve: Material -> u32, materials: seq<Material>, mesh: Mesh): u32
    requires mesh.materialIndex < |materials|
  {
    resolve(materials[mesh.materialIndex])
  }

  /** One mesh reference: its vertices and indices are added, and its
      sub-mesh is added when its material resolves; otherwise the pass throws
      with the material's name. */
  function CountMesh(resolve: Material -> u32, materials: seq<Material>, c: Counts, mesh: Mesh): Result<Counts, MeshError>
    requires mesh.materialIndex < |materials|
  {
    var numberOfIndices := c.numberOfIndices + FaceIndexCount(mesh.faces);
    var materialAssetId := MeshMaterialAssetId(resolve, materials, mesh);
    if IsValid(materialAssetId) then
      Success(Counts(c.numberOfVertices + mesh.numberOfVertices, numberOfIndices,
                     c.subMeshes + [SubMesh(materialAssetId, c.numberOfIndices, numberOfIndices - c.numberOfIndices)]))
    else Failure(FailedMaterial(materials[mesh.materialIndex].name))
  }

  /** The pass over a run of referenced meshes, in order, stopping at the
      first failure. */
  function CountFrom(resolve: Material -> u32, materials: seq<Material>, c: Counts, meshes: seq<Mesh>): Result<Counts, MeshError>
    requires MaterialsIn(meshes, |materials|)
    decreases |meshes|
  {
    if |meshes| == 0 then Success(c)
    else
      var r := CountMesh(resolve, materials, c, meshes[0]);
      if r.Failure? then r else CountFrom(resolve, materials, r.value, meshes[1..])
  }

  /** Continues a pass that has not failed. */
  function CountThen(resolve: Material -> u32, materials: seq<Material>, r: Result<Counts, MeshError>, meshes: seq<Mesh>): Result<Counts, MeshError>
    requires MaterialsIn(meshes, |materials|)
  {
    if r.Failure? then r else CountFrom(resolve, materials, r.value, meshes)
  }

  /** Counting two runs of meshes is counting the first, then the second
      from where the first left off. */
  lemma {:induction false} CountFromAppend(resolve: Material -> u32, materials: seq<Material>, c: Counts, a: seq<Mesh>, b: seq<Mesh>)
    requires MaterialsIn(a + b, |materials|)
    ensures MaterialsIn(a, |materials|) && MaterialsIn(b, |materials|)
    ensures CountFrom(resolve, materials, c, a + b) == CountThen(resolve, materials, CountFrom(resolve, materials, c, a), b)
    decreases |a|
  {
    assert forall k :: 0 <= k < |a| ==> a[k] == (a + b)[k];
    assert forall k :: 0 <= k < |b| ==> b[k] == (a + b)[|a| + k];
    if |a| > 0 {
      assert (a + b)[0] == a[0] && (a + b)[1..] == a[1..] + b;
      var r := CountMesh(resolve, materials, c, a[0]);
      if r.Success? {
        CountFromAppend(resolve, materials, r.value, a[1..], b);
      }
    } else {
      assert a + b == b;
    }
  }

  /** Every mesh's material resolves. */
  predicate AllResolve(resolve: Material -> u32, materials: seq<Material>, meshes: seq<Mesh>)
    requires MaterialsIn(meshes, |materials|)
  {
    forall k :: 0 <= k < |meshes| ==> IsValid(MeshMaterialAssetId(resolve, materials, meshes[k]))
  }

  /** The pass succeeds exactly when every material resolves. */
  lemma {:induction false} CountFromSucceeds(resolve: Material -> u32, materials: seq<Material>, c: Counts, meshes: seq<Mesh>)
    requires MaterialsIn(meshes, |materials|)
    ensures CountFrom(resolve, materials, c, meshes).Success? <==> AllResolve(resolve, materials, meshes)
    decreases |meshes|
  {
    if |meshes| > 0 {
      var r := CountMesh(resolve, materials, c, meshes[0]);
      if r.Success? {
        CountFromSucceeds(resolve, materials, r.value, meshes[1..]);
        assert forall k :: 0 < k < |meshes| ==> meshes[k] == meshes[1..][k - 1];
      }
    }
  }

  /** A successful pass adds the vertices and indices of all the meshes, and
      appends one sub-mesh per mesh to the ones before. */
  lemma {:induction false} CountFromTotals(resolve: Material -> u32, materials: seq<Material>, c: Counts, meshes: seq<Mesh>)
    requires MaterialsIn(meshes, |materials|)
    requires CountFrom(resolve, materials, c, meshes).Success?
    ensures var r := CountFrom(resolve, materials, c, meshes).value;
            && r.numberOfVertices == c.numberOfVertices + SumVertices(meshes)
            && r.numberOfIndices == c.numberOfIndices + SumIndices(meshes)
            && |r.subMeshes| == |c.subMeshes| + |meshes|
            && r.subMeshes[..|c.subMeshes|] == c.subMeshes
    decreases |meshes|
  {
    if |meshes| > 0 {
      var r := CountMesh(resolve, materials, c, meshes[0]).value;
      CountFromTotals(resolve, materials, r, meshes[1..]);
      var all := CountFrom(resolve, materials, c, meshes).value;
      assert all.subMeshes[..|c.subMeshes|] == all.subMeshes[..|r.subMeshes|][..|c.subMeshes|];
    }
  }

  /** The sub-mesh a successful pass makes for mesh `k`: its resolved
      material, the indices of the meshes before it as its start, and its own
      face indices as its length. */
  lemma {:induction false} CountFromSubMeshes(resolve: Material -> u32, materials: seq<Material>, c: Counts, meshes: seq<Mesh>)
    requires MaterialsIn(meshes, |materials|)
    requires CountFrom(resolve, materials, c, meshes).Success?
    ensures var r := CountFrom(resolve, materials, c, meshes).value;
            && |r.subMeshes| == |c.subMeshes| + |meshes|
            && (forall k :: 0 <= k < |meshes| ==>
                  r.subMeshes[|c.subMeshes| + k] ==
                    SubMesh(MeshMaterialAssetId(resolve, materials, meshes[k]),
                            c.numberOfIndices + SumIndices(meshes[..k]),
                            FaceIndexCount(meshes[k].faces)))
    decreases |meshes|
  {
    CountFromTotals(resolve, materials, c, meshes);
    if |meshes| > 0 {
      var r := CountMesh(resolve, materials, c, meshes[0]).value;
      var rest := meshes[1..];
      CountFromSubMeshes(resolve, materials, r, rest);
      CountFromTotals(resolve, materials, r, rest);
      var subs := CountFrom(resolve, materials, c, meshes).value.subMeshes;
      var n := |c.subMeshes|;
      forall k | 0 <= k < |meshes|
        ensures subs[n + k] == SubMesh(MeshMaterialAssetId(resolve, materials, meshes[k]),
                                       c.numberOfIndices + SumIndices(meshes[..k]),
                                       FaceIndexCount(meshes[k].faces))
      {
        if k == 0 {
          assert meshes[..0] == [];
          assert subs[n] == subs[..n + 1][n];
        } else {
          assert meshes[k] == rest[k - 1];
          assert meshes[..k][0] == meshes[0] && meshes[..k][1..] == rest[..k - 1];
        }
      }
    }
  }

  /** A failed pass names the material of the first mesh whose material does
      not resolve. */
  lemma {:induction false} CountFromFailure(resolve: Material -> u32, materials: seq<Material>, c: Counts, meshes: seq<Mesh>)
    requires MaterialsIn(meshes, |materials|)
    requires CountFrom(resolve, materials, c, meshes).Failure?
    ensures exists k :: 0 <= k < |meshes| &&
              (forall j :: 0 <= j < k ==> IsValid(MeshMaterialAssetId(resolve, materials, meshes[j]))) &&
              !IsValid(MeshMaterialAssetId(resolve, materials, meshes[k])) &&
              CountFrom(resolve, materials, c, meshes).error == FailedMaterial(materials[meshes[k].materialIndex].name)
    decreases |meshes|
  {
    var r := CountMesh(resolve, materials, c, meshes[0]);
    if r.Success? {
      var rest := meshes[1..];
      assert IsValid(MeshMaterialAssetId(resolve, materials, meshes[0]));
      assert CountFrom(resolve, materials, c, meshes) == CountFrom(resolve, materials, r.value, rest);
      CountFromFailure(resolve, materials, r.value, rest);
      var k :| 0 <= k < |rest| &&
               (forall j :: 0 <= j < k ==> IsValid(MeshMaterialAssetId(resolve, materials, rest[j]))) &&
               !IsValid(MeshMaterialAssetId(resolve, materials, rest[k])) &&
               CountFrom(resolve, materials, r.value, rest).error == FailedMaterial(materials[rest[k].materialIndex].name);
      assert meshes[k + 1] == rest[k];
      assert forall j :: 0 < j < k + 1 ==> meshes[j] == rest[j - 1];
      assert forall j :: 0 <= j < k + 1 ==> IsValid(MeshMaterialAssetId(resolve, materials, meshes[j]));
    } else {
      assert !IsValid(MeshMaterialAssetId(resolve, materials, meshes[0]));
    }
  }

  /** The sub-meshes of a successful pass from zero tile the index buffer:
      each starts where the one before it ends, the first at zero and the
      last ending at the index count. */
  lemma SubMeshesTile(resolve: Material -> u32, materials: seq<Material>, meshes: seq<Mesh>)
    requires MaterialsIn(meshes, |materials|)
    requires CountFrom(resolve, materials, Counts(0, 0, []), meshes).Success?
    ensures var r := CountFrom(resolve, materials, Counts(0, 0, []), meshes).value;
            && (|r.subMeshes| > 0 ==> r.subMeshes[0].startIndexLocation == 0)
            && (forall k :: 0 <= k < |r.subMeshes| - 1 ==>
                  r.subMeshes[k].startIndexLocation + r.subMeshes[k].numberOfIndices == r.subMeshes[k + 1].startIndexLocation)
            && (|r.subMeshes| > 0 ==> r.subMeshes[|r.subMeshes| - 1].startIndexLocation + r.subMeshes[|r.subMeshes| - 1].numberOfIndices == r.numberOfIndices)
  {
    var c := Counts(0, 0, []);
    CountFromTotals(resolve, materials, c, meshes);
    CountFromSubMeshes(resolve, materials, c, meshes);
    var r := CountFrom(resolve, materials, c, meshes).value;
    if |meshes| > 0 {
      assert r.subMeshes[0] == r.subMeshes[|c.subMeshes| + 0];
      assert meshes[..0] == [];
    }
    forall k | 0 <= k < |r.subMeshes| - 1
      ensures r.subMeshes[k].startIndexLocation + r.subMeshes[k].numberOfIndices == r.subMeshes[k + 1].startIndexLocation
    {
      assert r.subMeshes[k] == r.subMeshes[|c.subMeshes| + k];
      assert r.subMeshes[k + 1] == r.subMeshes[|c.subMeshes| + (k + 1)];
      PrefixSumStep(meshes, k);
    }
    if |meshes| > 0 {
      var last := |meshes| - 1;
      assert r.subMeshes[last] == r.subMeshes[|c.subMeshes| + last];
      PrefixSumStep(meshes, last);
      assert meshes[..last + 1] == meshes;
    }
  }

  lemma PrefixSumStep(meshes: seq<Mesh>, k: nat)
    requires k < |meshes|
    ensures SumIndices(meshes[..k + 1]) == SumIndices(meshes[..k]) + FaceIndexCount(meshes[k].faces)
  {
    assert meshes[..k + 1] == meshes[..k] + [meshes[k]];
    SumsAppend(meshes[..k], [meshes[k]]);
    assert [meshes[k]][1..] == [];
  }

  /** `getNumberOfVerticesAndIndicesRecursive`: the counts of a mesh, its
      faces counted one by one. */
  method CountMeshIndices(mesh: Mesh) returns (n: nat)
    ensures n == FaceIndexCount(mesh.faces)
  {
    n := 0;
    var j := 0;
    while j < |mesh.faces|
      invariant 0 <= j <= |mesh.faces|
      invariant n == FaceIndexCount(mesh.faces[..j])
    {
      assert mesh.faces[..j + 1][..j] == mesh.faces[..j];
      n := n + |mesh.faces[j].indices|;
      j := j + 1;
    }
    assert mesh.faces[..j] == mesh.faces;
  }

  /** What both passes over the tree take of the scene: every reference
      names a mesh and every mesh a material. */
  predicate TreeValid(scene: Scene, node: Node) {
    MaterialsIn(scene.meshes, |scene.materials|) && InRange(MeshRefs(node), |scene.meshes|)
  }

  /** `getNumberOfVerticesAndIndicesRecursive`: the node's own meshes, then
      its children, recursively. */
  method CountNode(h: MaterialHelpers, materialNameToAssetId: map<string, u32>, scene: Scene, node: Node, c: Counts) returns (r: Result<Counts, MeshError>)
    requires TreeValid(scene, node)
    ensures MaterialsIn(Referenced(scene, MeshRefs(node)), |scene.materials|)
    ensures r == CountFrom(Resolver(h, materialNameToAssetId), scene.materials, c, Referenced(scene, MeshRefs(node)))
    decreases node, 1
  {
    MaterialsInReferenced(scene, MeshRefs(node));
    var counts := c;
    var i := 0;
    assert node.meshes[0..] == node.meshes;
    while i < |node.meshes|
      invariant 0 <= i <= |node.meshes|
      invariant InRange(node.meshes[i..] + MeshRefsChildren(node, 0), |scene.meshes|)
      invariant MaterialsIn(Referenced(scene, node.meshes[i..] + MeshRefsChildren(node, 0)), |scene.materials|)
      invariant CountFrom(Resolver(h, materialNameToAssetId), scene.materials, c, Referenced(scene, MeshRefs(node))) ==
                CountFrom(Resolver(h, materialNameToAssetId), scene.materials, counts, Referenced(scene, node.meshes[i..] + MeshRefsChildren(node, 0)))
    {
      var refs := node.meshes[i..] + MeshRefsChildren(node, 0);
      assert refs[0] == node.meshes[i] && refs[1..] == node.meshes[i + 1..] + MeshRefsChildren(node, 0);
      ReferencedFirst(scene, refs);
      MaterialsInReferenced(scene, refs[1..]);
      var mesh := scene.meshes[node.meshes[i]];
      var previousNumberOfIndices := counts.numberOfIndices;
      var faceIndices := CountMeshIndices(mesh);
      var numberOfIndices := previousNumberOfIndices + faceIndices;
      var materialAssetId := MaterialAssetId(h, materialNameToAssetId, scene.materials[mesh.materialIndex]);
      if !IsValid(materialAssetId) {
        return Failure(FailedMaterial(scene.materials[mesh.materialIndex].name));
      }
      counts := Counts(counts.numberOfVertices + mesh.numberOfVertices, numberOfIndices,
                       counts.subMeshes + [SubMesh(materialAssetId, previousNumberOfIndices, numberOfIndices - previousNumberOfIndices)]);
      i := i + 1;
    }
    assert node.meshes[i..] + MeshRefsChildren(node, 0) == MeshRefsChildren(node, 0);
    r := CountChildren(h, materialNameToAssetId, scene, node, counts);
  }

  /** The child loop of `getNumberOfVerticesAndIndicesRecursive`. */
  method CountChildren(h: MaterialHelpers, materialNameToAssetId: map<string, u32>, scene: Scene, node: Node, c: Counts) returns (r: Result<Counts, MeshError>)
    requires MaterialsIn(scene.meshes, |scene.materials|) && InRange(MeshRefsChildren(node, 0), |scene.meshes|)
    ensures MaterialsIn(Referenced(scene, MeshRefsChildren(node, 0)), |scene.materials|)
    ensures r == CountFrom(Resolver(h, materialNameToAssetId), scene.materials, c, Referenced(scene, MeshRefsChildren(node, 0)))
    decreases node, 0
  {
    MaterialsInReferenced(scene, MeshRefsChildren(node, 0));
    var counts := c;
    var i := 0;
    while i < |node.children|
      invariant 0 <= i <= |node.children|
      invariant InRange(MeshRefsChildren(node, i), |scene.meshes|)
      invariant MaterialsIn(Referenced(scene, MeshRefsChildren(node, i)), |scene.materials|)
      invariant CountFrom(Resolver(h, materialNameToAssetId), scene.materials, c, Referenced(scene, MeshRefsChildren(node, 0))) ==
                CountFrom(Resolver(h, materialNameToAssetId), scene.materials, counts, Referenced(scene, MeshRefsChildren(node, i)))
    {
      var child := node.children[i];
      ChildRefs(scene, node, i);
      CountFromAppend(Resolver(h, materialNameToAssetId), scene.materials, counts,
                      Referenced(scene, MeshRefs(child)), Referenced(scene, MeshRefsChildren(node, i + 1)));
      var next := CountNode(h, materialNameToAssetId, scene, child, counts);
      if next.Failure? {
        return next;
      }
      counts := next.value;
      MaterialsInReferenced(scene, MeshRefsChildren(node, i + 1));
      i := i + 1;
    }
    return Success(counts);
  }

  /** The references under child `i` come first, then those of the children
      after it. */
  lemma ChildRefs(scene: Scene, node: Node, i: nat)
    requires i < |node.children| && InRange(MeshRefsChildren(node, i), |scene.meshes|)
    ensures InRange(MeshRefs(node.children[i]), |scene.meshes|) && InRange(MeshRefsChildren(node, i + 1), |scene.meshes|)
    ensures Referenced(scene, MeshRefsChildren(node, i)) == Referenced(scene, MeshRefs(node.children[i])) + Referenced(scene, MeshRefsChildren(node, i + 1))
  {
    var a := MeshRefs(node.children[i]);
    var b := MeshRefsChildren(node, i + 1);
    assert MeshRefsChildren(node, i) == a + b;
    assert forall k :: 0 <= k < |a| ==> a[k] == (a + b)[k];
    assert forall k :: 0 <= k < |b| ==> b[k] == (a + b)[|a| + k];
    ReferencedAppend(scene, a, b);
  }
}
