/** The imported scene the mesh compiler reads: Assimp's node tree, meshes,
    faces, bones and materials, reduced to the fields the discrete logic
    uses. Node children and mesh references are ordered as Assimp stores
    them; every walk of the tree is depth-first and pre-order, with a node's
    own meshes before its children. */
module AssimpScene {
  import opened Wrappers

  /** `aiMatrix4x4`: sixteen floats. The model copies matrices around and
      never computes with them. */
  datatype Matrix = Matrix(entries: seq<real>)

  /** `aiFace`: the mesh-local vertex indices of one face. */
  datatype Face = Face(indices: seq<nat>)

  /** `aiVertexWeight`. */
  datatype VertexWeight = VertexWeight(vertexId: nat, weight: real)

  /** `aiBone`: a bone name and the vertices it influences. */
  datatype Bone = Bone(name: string, weights: seq<VertexWeight>)

  /** `aiMesh`; `numberOfUvComponents0` is `mNumUVComponents[0]`, zero when
      the mesh has no first texture coordinate channel. */
  datatype Mesh = Mesh(numberOfVertices: nat, faces: seq<Face>, materialIndex: nat, bones: seq<Bone>, numberOfUvComponents0: nat)

  /** `aiMaterial`: its name and, when it has one, its first diffuse texture. */
  datatype Material = Material(name: string, diffuseTexture0: Option<string>)

  /** `aiNode`: indices into the scene's mesh list, and child nodes. */
  datatype Node = Node(name: string, transformation: Matrix, meshes: seq<nat>, children: seq<Node>)

  datatype Scene = Scene(meshes: seq<Mesh>, materials: seq<Material>, root: Node)

  /** The nodes of a tree in depth-first pre-order. */
  function PreOrder(n: Node): seq<Node>
    decreases n, 1
  {
    [n] + PreOrderChildren(n, 0)
  }

  function PreOrderChildren(n: Node, i: nat): seq<Node>
    requires i <= |n.children|
    decreases n, 0, |n.children| - i
  {
    if i == |n.children| then [] else PreOrder(n.children[i]) + PreOrderChildren(n, i + 1)
  }

  /** The mesh references of a tree, in the order both mesh passes visit
      them: a node's own meshes, then its children's, recursively. */
  function MeshRefs(n: Node): seq<nat>
    decreases n, 1
  {
    n.meshes + MeshRefsChildren(n, 0)
  }

  function MeshRefsChildren(n: Node, i: nat): seq<nat>
    requires i <= |n.children|
    decreases n, 0, |n.children| - i
  {
    if i == |n.children| then [] else MeshRefs(n.children[i]) + MeshRefsChildren(n, i + 1)
  }

  /** Every mesh reference of the tree names a mesh of the scene. */
  predicate ValidNode(n: Node, numberOfMeshes: nat)
    decreases n
  {
    && (forall k :: 0 <= k < |n.meshes| ==> n.meshes[k] < numberOfMeshes)
    && (forall i :: 0 <= i < |n.children| ==> ValidNode(n.children[i], numberOfMeshes))
  }

  /** Face indices and bone weights stay inside the mesh, and the material
      index names a material of the scene. */
  predicate ValidMesh(m: Mesh, numberOfMaterials: nat) {
    m.materialIndex < numberOfMaterials && FacesInside(m) && WeightsInside(m)
  }

  predicate FacesInside(m: Mesh) {
    forall f, k :: 0 <= f < |m.faces| && 0 <= k < |m.faces[f].indices| ==> m.faces[f].indices[k] < m.numberOfVertices
  }

  predicate WeightsInside(m: Mesh) {
    forall b, w :: 0 <= b < |m.bones| && 0 <= w < |m.bones[b].weights| ==> m.bones[b].weights[w].vertexId < m.numberOfVertices
  }

  /** Every mesh of the scene keeps to its own vertices and materials. */
  predicate MeshesValid(s: Scene) {
    forall k :: 0 <= k < |s.meshes| ==> ValidMesh(s.meshes[k], |s.materials|)
  }

  /** What Assimp guarantees of every scene it hands out. */
  predicate ValidScene(s: Scene) {
    ValidNode(s.root, |s.meshes|) && MeshesValid(s)
  }

  /** Every reference names one of the scene's meshes. */
  predicate InRange(refs: seq<nat>, numberOfMeshes: nat) {
    forall k :: 0 <= k < |refs| ==> refs[k] < numberOfMeshes
  }

  /** The meshes a run of references names, in order. */
  function Referenced(s: Scene, refs: seq<nat>): (ms: seq<Mesh>)
    requires InRange(refs, |s.meshes|)
    ensures |ms| == |refs| && forall k :: 0 <= k < |refs| ==> ms[k] == s.meshes[refs[k]]
  {
    seq(|refs|, k requires 0 <= k < |refs| => s.meshes[refs[k]])
  }

  /** The meshes of a run of references start with the first reference's
      mesh, followed by the meshes of the rest. */
  lemma ReferencedFirst(s: Scene, refs: seq<nat>)
    requires InRange(refs, |s.meshes|) && |refs| > 0
    ensures InRange(refs[1..], |s.meshes|)
    ensures Referenced(s, refs) == [s.meshes[refs[0]]] + Referenced(s, refs[1..])
  {
    assert forall k :: 0 <= k < |refs| - 1 ==> refs[1..][k] == refs[k + 1];
    var ms := Referenced(s, refs);
    var ms' := [s.meshes[refs[0]]] + Referenced(s, refs[1..]);
    assert forall k :: 0 <= k < |ms| ==> ms[k] == ms'[k];
  }

  /** The meshes of two runs of references, one after the other. */
  lemma ReferencedAppend(s: Scene, a: seq<nat>, b: seq<nat>)
    requires InRange(a, |s.meshes|) && InRange(b, |s.meshes|)
    ensures InRange(a + b, |s.meshes|)
    ensures Referenced(s, a + b) == Referenced(s, a) + Referenced(s, b)
  {
    assert forall k :: 0 <= k < |a| ==> (a + b)[k] == a[k];
    assert forall k :: |a| <= k < |a| + |b| ==> (a + b)[k] == b[k - |a|];
    var ms := Referenced(s, a + b);
    var ms' := Referenced(s, a) + Referenced(s, b);
    assert forall k :: 0 <= k < |ms| ==> ms[k] == ms'[k];
  }

  /** In a valid tree every reference of the pre-order walk is in range. */
  lemma {:induction false} MeshRefsInRange(n: Node, numberOfMeshes: nat)
    requires ValidNode(n, numberOfMeshes)
    ensures InRange(MeshRefs(n), numberOfMeshes)
    decreases n, 1
  {
    MeshRefsChildrenInRange(n, 0, numberOfMeshes);
  }

  lemma {:induction false} MeshRefsChildrenInRange(n: Node, i: nat, numberOfMeshes: nat)
    requires i <= |n.children| && ValidNode(n, numberOfMeshes)
    ensures InRange(MeshRefsChildren(n, i), numberOfMeshes)
    decreases n, 0, |n.children| - i
  {
    if i < |n.children| {
      MeshRefsInRange(n.children[i], numberOfMeshes);
      MeshRefsChildrenInRange(n, i + 1, numberOfMeshes);
    }
  }
}
