/** The second pass of the mesh compiler over the node tree: it writes the
    index buffer, each mesh's face indices shifted to where its vertices
    start, and the bone slots of skinned vertices. Positions, texture
    coordinates and tangent frames are floating point and not part of this
    model; of the vertex buffer only the bone bytes are. */
module MeshFill {
  import opened Wrappers
  import opened AssimpScene
  import opened MeshAsset
  import opened MeshCounting
  import MeshSkeleton

  // ---------------------------------------------------------------------
  // Index buffer
  // ---------------------------------------------------------------------

  /** The mesh-local indices of a face list, face after face. */
  function Flatten(faces: seq<Face>): (r: seq<nat>)
    ensures |r| == FaceIndexCount(faces)
  {
    if |faces| == 0 then [] else Flatten(faces[..|faces| - 1]) + faces[|faces| - 1].indices
  }

  /** Every index shifted by `d`. */
  function Offset(s: seq<nat>, d: nat): seq<nat> {
    seq(|s|, k requires 0 <= k < |s| => s[k] + d)
  }

  lemma OffsetAppend(x: seq<nat>, y: seq<nat>, d: nat)
    ensures Offset(x, d) + Offset(y, d) == Offset(x + y, d)
  {
    assert forall k :: 0 <= k < |x| ==> (x + y)[k] == x[k];
    assert forall k :: 0 <= k < |y| ==> (x + y)[|x| + k] == y[k];
  }

  /** `t` written over `s` from position `at` on. */
  function Write<T>(s: seq<T>, at: nat, t: seq<T>): (r: seq<T>)
    requires at + |t| <= |s|
    ensures |r| == |s|
    ensures forall p :: 0 <= p < |s| ==> r[p] == if at <= p < at + |t| then t[p - at] else s[p]
  {
    s[..at] + t + s[at + |t|..]
  }

  /** Two writes side by side are one write of both. */
  lemma WriteWrite<T>(s: seq<T>, at: nat, x: seq<T>, y: seq<T>)
    requires at + |x| + |y| <= |s|
    ensures Write(Write(s, at, x), at + |x|, y) == Write(s, at, x + y)
  {
    var a := Write(Write(s, at, x), at + |x|, y);
    var b := Write(s, at, x + y);
    forall p | 0 <= p < |s| ensures a[p] == b[p] {
      if at <= p < at + |x| {
        assert (x + y)[p - at] == x[p - at];
      } else if at + |x| <= p < at + |x| + |y| {
        assert (x + y)[p - at] == y[p - at - |x|];
      }
    }
  }

  /** The global indices of a mesh whose vertices start at `startVertex`. */
  function MeshIndices(mesh: Mesh, startVertex: nat): seq<nat> {
    Offset(Flatten(mesh.faces), startVertex)
  }

  /** The global indices of a run of meshes, the first mesh's vertices
      starting at `startVertex` and each following mesh's right after the one
      before. */
  function IndicesFrom(meshes: seq<Mesh>, startVertex: nat): (r: seq<nat>)
    ensures |r| == SumIndices(meshes)
  {
    if |meshes| == 0 then []
    else MeshIndices(meshes[0], startVertex) + IndicesFrom(meshes[1..], startVertex + meshes[0].numberOfVertices)
  }

  /** The face indices of a valid mesh stay below its vertex count. */
  lemma {:induction false} FlattenBounds(faces: seq<Face>, numberOfVertices: nat)
    requires forall f, k :: 0 <= f < |faces| && 0 <= k < |faces[f].indices| ==> faces[f].indices[k] < numberOfVertices
    ensures forall p :: 0 <= p < |Flatten(faces)| ==> Flatten(faces)[p] < numberOfVertices
    decreases |faces|
  {
    if |faces| > 0 {
      var init := faces[..|faces| - 1];
      assert forall f :: 0 <= f < |init| ==> init[f] == faces[f];
      FlattenBounds(init, numberOfVertices);
    }
  }

  /** Every global index of a run of meshes that keep their faces inside
      them names one of the run's own vertices. */
  lemma {:induction false} IndicesFromBounds(meshes: seq<Mesh>, startVertex: nat)
    requires forall k :: 0 <= k < |meshes| ==> FacesInside(meshes[k])
    ensures var r := IndicesFrom(meshes, startVertex);
            forall p :: 0 <= p < |r| ==> startVertex <= r[p] < startVertex + SumVertices(meshes)
    decreases |meshes|
  {
    if |meshes| > 0 {
      var mesh := meshes[0];
      assert FacesInside(mesh);
      FlattenBounds(mesh.faces, mesh.numberOfVertices);
      var next := startVertex + mesh.numberOfVertices;
      assert forall k :: 0 <= k < |meshes| - 1 ==> meshes[1..][k] == meshes[k + 1];
      IndicesFromBounds(meshes[1..], next);
      var own := MeshIndices(mesh, startVertex);
      var others := IndicesFrom(meshes[1..], next);
      assert forall p :: 0 <= p < |IndicesFrom(meshes[1..], next)| ==>
               next <= IndicesFrom(meshes[1..], next)[p] < next + SumVertices(meshes[1..]);
      forall p | 0 <= p < |own| + |others|
        ensures startVertex <= (own + others)[p] < startVertex + SumVertices(meshes)
      {
        if p < |own| {
          assert (own + others)[p] == own[p] == Flatten(mesh.faces)[p] + startVertex;
        } else {
          var q := p - |own|;
          assert (own + others)[p] == others[q];
          assert 0 <= q < |others|;
          assert next <= others[q] < next + SumVertices(meshes[1..]);
        }
      }
    }
  }

  /** `stored` holds `own` from position `start` on. */
  predicate HoldsAt(stored: seq<nat>, start: nat, own: seq<nat>) {
    start + |own| <= |stored| && forall p :: 0 <= p < |own| ==> stored[start + p] == own[p]
  }

  /** The range of the index buffer that the counting pass gives the
      sub-mesh of mesh `k` holds exactly that mesh's faces, shifted to where
      its vertices start. */
  lemma {:induction false} IndicesFromSubMesh(meshes: seq<Mesh>, startVertex: nat, k: nat)
    requires k < |meshes|
    ensures HoldsAt(IndicesFrom(meshes, startVertex), SumIndices(meshes[..k]), MeshIndices(meshes[k], startVertex + SumVertices(meshes[..k])))
    decreases k
  {
    var first := MeshIndices(meshes[0], startVertex);
    var next := startVertex + meshes[0].numberOfVertices;
    var rest := meshes[1..];
    IndicesFromSplit(meshes, meshes[0], rest, startVertex);
    if k == 0 {
      assert meshes[..0] == [];
      PrefixHolds(IndicesFrom(meshes, startVertex), first, IndicesFrom(rest, next));
    } else {
      var own := MeshIndices(meshes[k], startVertex + SumVertices(meshes[..k]));
      IndicesFromSubMesh(rest, next, k - 1);
      SumsPrefixStep(meshes, k);
      assert rest[k - 1] == meshes[k];
      assert next + SumVertices(rest[..k - 1]) == startVertex + SumVertices(meshes[..k]);
      assert MeshIndices(rest[k - 1], next + SumVertices(rest[..k - 1])) == own;
      ShiftHolds(IndicesFrom(meshes, startVertex), first, IndicesFrom(rest, next), SumIndices(rest[..k - 1]), own, SumIndices(meshes[..k]));
    }
  }

  /** The sums over the first `k` meshes: the first mesh's, then those of
      the next `k - 1`. */
  lemma SumsPrefixStep(meshes: seq<Mesh>, k: nat)
    requires 0 < k <= |meshes|
    ensures SumIndices(meshes[..k]) == FaceIndexCount(meshes[0].faces) + SumIndices(meshes[1..][..k - 1])
    ensures SumVertices(meshes[..k]) == meshes[0].numberOfVertices + SumVertices(meshes[1..][..k - 1])
  {
    assert meshes[..k][0] == meshes[0] && meshes[..k][1..] == meshes[1..][..k - 1];
  }

  /** `a + b` starts with `a`. */
  lemma PrefixHolds(ab: seq<nat>, a: seq<nat>, b: seq<nat>)
    requires ab == a + b
    ensures HoldsAt(ab, 0, a)
  {
  }

  /** What `b` holds from `start` on, `a + b` holds from `|a| + start` on. */
  lemma ShiftHolds(ab: seq<nat>, a: seq<nat>, b: seq<nat>, start: nat, own: seq<nat>, at: nat)
    requires ab == a + b && at == |a| + start && HoldsAt(b, start, own)
    ensures HoldsAt(ab, at, own)
  {
  }

  /** The indices of a run that starts with `mesh`. */
  lemma IndicesFromSplit(meshes: seq<Mesh>, mesh: Mesh, rest: seq<Mesh>, startVertex: nat)
    requires meshes == [mesh] + rest
    ensures IndicesFrom(meshes, startVertex) == MeshIndices(mesh, startVertex) + IndicesFrom(rest, startVertex + mesh.numberOfVertices)
  {
    assert meshes[0] == mesh && meshes[1..] == rest;
  }

  /** The range of the index buffer a sub-mesh names holds `own`. */
  predicate SubMeshHolds(subMesh: SubMesh, stored: seq<nat>, own: seq<nat>) {
    subMesh.numberOfIndices == |own| && HoldsAt(stored, subMesh.startIndexLocation, own)
  }

  /** The range the counting pass gives mesh `k` holds its indices. */
  lemma {:induction false} SubMeshHoldsAt(walk: seq<Mesh>, subMesh: SubMesh, k: nat)
    requires k < |walk|
    requires subMesh.startIndexLocation == SumIndices(walk[..k]) && subMesh.numberOfIndices == FaceIndexCount(walk[k].faces)
    ensures SubMeshHolds(subMesh, IndicesFrom(walk, 0), MeshIndices(walk[k], SumVertices(walk[..k])))
  {
    IndicesFromSubMesh(walk, 0, k);
  }

  /** The inner loop of the face loop of `fillMeshRecursive`: one face's
      indices, shifted by the mesh's start vertex. */
  method FillFaceIndices(face: Face, startVertex: nat, indexBuffer: array<nat>, at: nat)
    requires at + |face.indices| <= indexBuffer.Length
    modifies indexBuffer
    ensures indexBuffer[..] == Write(old(indexBuffer[..]), at, Offset(face.indices, startVertex))
  {
    var a := 0;
    while a < |face.indices|
      invariant 0 <= a <= |face.indices|
      invariant forall p :: 0 <= p < indexBuffer.Length ==>
                  indexBuffer[p] == if at <= p < at + a then face.indices[p - at] + startVertex else old(indexBuffer[p])
    {
      indexBuffer[at + a] := face.indices[a] + startVertex;
      a := a + 1;
    }
  }

  /** The face loop of `fillMeshRecursive`: returns the index count after
      the mesh. */
  method FillMeshIndices(mesh: Mesh, startVertex: nat, indexBuffer: array<nat>, numberOfIndices: nat) returns (n: nat)
    requires numberOfIndices + FaceIndexCount(mesh.faces) <= indexBuffer.Length
    modifies indexBuffer
    ensures n == numberOfIndices + FaceIndexCount(mesh.faces)
    ensures indexBuffer[..] == Write(old(indexBuffer[..]), numberOfIndices, MeshIndices(mesh, startVertex))
  {
    ghost var initial := indexBuffer[..];
    n := numberOfIndices;
    var j := 0;
    assert mesh.faces[..0] == [];
    while j < |mesh.faces|
      invariant 0 <= j <= |mesh.faces|
      invariant n == numberOfIndices + FaceIndexCount(mesh.faces[..j])
      invariant FaceIndexCount(mesh.faces[..j]) <= FaceIndexCount(mesh.faces)
      invariant indexBuffer[..] == Write(initial, numberOfIndices, Offset(Flatten(mesh.faces[..j]), startVertex))
    {
      var face := mesh.faces[j];
      var done := Flatten(mesh.faces[..j]);
      assert mesh.faces[..j + 1][..j] == mesh.faces[..j];
      assert Flatten(mesh.faces[..j + 1]) == done + face.indices;
      FaceIndexCountPrefix(mesh.faces, j + 1);
      FillFaceIndices(face, startVertex, indexBuffer, n);
      WriteWrite(initial, numberOfIndices, Offset(done, startVertex), Offset(face.indices, startVertex));
      OffsetAppend(done, face.indices, startVertex);
      n := n + |face.indices|;
      j := j + 1;
    }
    assert mesh.faces[..j] == mesh.faces;
  }

  /** A prefix of a face list has no more indices than the list. */
  lemma {:induction false} FaceIndexCountPrefix(faces: seq<Face>, j: nat)
    requires j <= |faces|
    ensures FaceIndexCount(faces[..j]) <= FaceIndexCount(faces)
    decreases |faces| - j
  {
    if j < |faces| {
      FaceIndexCountPrefix(faces, j + 1);
      assert faces[..j + 1][..j] == faces[..j];
    } else {
      assert faces[..j] == faces;
    }
  }

  // ---------------------------------------------------------------------
  // Bone slots
  // ---------------------------------------------------------------------

  /** One weight as the bone loop places it: the vertex it belongs to, the
      8-bit bone index and the 8-bit weight. */
  datatype Placement = Placement(vertexId: nat, boneIndex: u8, weight: u8)

  /** `static_cast<uint8_t>`: the low eight bits. */
  function LowByte(x: nat): (b: u8)
    ensures x < 256 ==> b as nat == x
  {
    (x % 256) as u8
  }

  /** The skeleton slot of a bone, or the invalid value. */
  function BoneSlot(skeletonIds: seq<u32>, boneId: string -> u32, bone: Bone): nat {
    MeshSkeleton.BoneIndexByBoneId(skeletonIds, boneId(bone.name))
  }

  /** The placements of one bone, weight after weight. */
  function BonePlacements(bone: Bone, boneIndex: u8, quantise: real -> u8): (r: seq<Placement>)
    ensures |r| == |bone.weights|
    ensures forall w :: 0 <= w < |r| ==> r[w] == Placement(bone.weights[w].vertexId, boneIndex, quantise(bone.weights[w].weight))
  {
    seq(|bone.weights|, w requires 0 <= w < |bone.weights| => Placement(bone.weights[w].vertexId, boneIndex, quantise(bone.weights[w].weight)))
  }

  /** The placements of the bone loop, bone after bone. */
  function Placements(skeletonIds: seq<u32>, boneId: string -> u32, quantise: real -> u8, bones: seq<Bone>): seq<Placement> {
    if |bones| == 0 then []
    else BonePlacements(bones[0], LowByte(BoneSlot(skeletonIds, boneId, bones[0])), quantise) + Placements(skeletonIds, boneId, quantise, bones[1..])
  }

  /** Every weight of the bones names a vertex below `n`. */
  predicate WeightsBelow(bones: seq<Bone>, n: nat) {
    forall b, w :: 0 <= b < |bones| && 0 <= w < |bones[b].weights| ==> bones[b].weights[w].vertexId < n
  }

  predicate PlacementsBelow(ps: seq<Placement>, n: nat) {
    forall k :: 0 <= k < |ps| ==> ps[k].vertexId < n
  }

  lemma {:induction false} PlacementsInMesh(skeletonIds: seq<u32>, boneId: string -> u32, quantise: real -> u8, bones: seq<Bone>, n: nat)
    requires WeightsBelow(bones, n)
    ensures PlacementsBelow(Placements(skeletonIds, boneId, quantise, bones), n)
    decreases |bones|
  {
    if |bones| > 0 {
      assert forall b :: 0 <= b < |bones| - 1 ==> bones[1..][b] == bones[b + 1];
      PlacementsInMesh(skeletonIds, boneId, quantise, bones[1..], n);
    }
  }

  /** The placements of vertex `v`, in the order they come. */
  function Arrivals(ps: seq<Placement>, v: nat): seq<Placement> {
    if |ps| == 0 then [] else (if ps[0].vertexId == v then [ps[0]] else []) + Arrivals(ps[1..], v)
  }

  /** The weight loop over a run of placements: a vertex with a free slot
      gets the bone index and weight in its next slot, a vertex with four
      slots taken drops the weight. `counts` holds the slots taken so far. */
  function WriteSlots(bytes: seq<u8>, counts: seq<u8>, base: nat, ps: seq<Placement>): (r: seq<u8>)
    requires PlacementsBelow(ps, |counts|) && (base + |counts|) * NUMBER_OF_BYTES_PER_SKINNED_VERTEX <= |bytes|
    ensures |r| == |bytes|
    decreases |ps|
  {
    if |ps| == 0 then bytes
    else
      var p := ps[0];
      var c := counts[p.vertexId];
      if c < 4 then
        BoneBytesDisjoint(base + p.vertexId, c as nat, base + p.vertexId, c as nat);
        VertexBytesWithin(base + p.vertexId + 1, base + |counts|);
        WriteSlots(bytes[BoneIndexByte(base + p.vertexId, c as nat) := p.boneIndex][BoneWeightByte(base + p.vertexId, c as nat) := p.weight],
                   counts[p.vertexId := c + 1], base, ps[1..])
      else WriteSlots(bytes, counts, base, ps[1..])
  }

  /** Placing a bone index and weight in slot `c` of vertex `vp` changes,
      of the bone bytes of vertex `v`, only those of slot `c` when
      `v == vp`. */
  lemma PlaceBytes(bytes: seq<u8>, base: nat, n: nat, vp: nat, c: nat, boneIndex: u8, weight: u8, v: nat, s: nat)
    requires vp < n && v < n && c < 4 && s < 4 && (base + n) * NUMBER_OF_BYTES_PER_SKINNED_VERTEX <= |bytes|
    ensures BoneIndexByte(base + vp, c) < |bytes| && BoneWeightByte(base + vp, c) < |bytes|
    ensures BoneIndexByte(base + v, s) < |bytes| && BoneWeightByte(base + v, s) < |bytes|
    ensures var bytes' := bytes[BoneIndexByte(base + vp, c) := boneIndex][BoneWeightByte(base + vp, c) := weight];
            && bytes'[BoneIndexByte(base + v, s)] == (if vp == v && c == s then boneIndex else bytes[BoneIndexByte(base + v, s)])
            && bytes'[BoneWeightByte(base + v, s)] == (if vp == v && c == s then weight else bytes[BoneWeightByte(base + v, s)])
  {
    BoneBytesDisjoint(base + vp, c, base + v, s);
    BoneBytesDisjoint(base + v, s, base + vp, c);
    VertexBytesWithin(base + vp + 1, base + n);
    VertexBytesWithin(base + v + 1, base + n);
  }

  lemma VertexBytesWithin(x: nat, y: nat)
    requires x <= y
    ensures x * NUMBER_OF_BYTES_PER_SKINNED_VERTEX <= y * NUMBER_OF_BYTES_PER_SKINNED_VERTEX
  {
  }

  /** Slot `s` of vertex `v` ends up holding the placement of `v` that
      arrives when `s` slots are taken, if there is one; a slot taken before
      or never reached keeps its byte. */
  lemma WriteSlotsAt(bytes: seq<u8>, counts: seq<u8>, base: nat, ps: seq<Placement>, v: nat, s: nat)
    requires PlacementsBelow(ps, |counts|) && (base + |counts|) * NUMBER_OF_BYTES_PER_SKINNED_VERTEX <= |bytes|
    requires v < |counts| && s < 4
    ensures BoneWeightByte(base + v, s) < |bytes|
    ensures var r := WriteSlots(bytes, counts, base, ps);
            var a := Arrivals(ps, v);
            var c := counts[v] as nat;
            && r[BoneIndexByte(base + v, s)] == (if c <= s < c + |a| then a[s - c].boneIndex else bytes[BoneIndexByte(base + v, s)])
            && r[BoneWeightByte(base + v, s)] == (if c <= s < c + |a| then a[s - c].weight else bytes[BoneWeightByte(base + v, s)])
  {
    WriteSlotsIndexAt(bytes, counts, base, ps, v, s);
    WriteSlotsWeightAt(bytes, counts, base, ps, v, s);
  }

  lemma {:induction false} WriteSlotsIndexAt(bytes: seq<u8>, counts: seq<u8>, base: nat, ps: seq<Placement>, v: nat, s: nat)
    requires PlacementsBelow(ps, |counts|) && (base + |counts|) * NUMBER_OF_BYTES_PER_SKINNED_VERTEX <= |bytes|
    requires v < |counts| && s < 4
    ensures BoneIndexByte(base + v, s) < |bytes|
    ensures var a := Arrivals(ps, v);
            var c := counts[v] as nat;
            WriteSlots(bytes, counts, base, ps)[BoneIndexByte(base + v, s)] ==
              (if c <= s < c + |a| then a[s - c].boneIndex else bytes[BoneIndexByte(base + v, s)])
    decreases |ps|
  {
    PlaceBytes(bytes, base, |counts|, v, 0, 0, 0, v, s);
    if |ps| > 0 {
      var p := ps[0];
      var c := counts[p.vertexId];
      assert PlacementsBelow(ps[1..], |counts|);
      if c < 4 {
        PlaceBytes(bytes, base, |counts|, p.vertexId, c as nat, p.boneIndex, p.weight, v, s);
        var bytes' := bytes[BoneIndexByte(base + p.vertexId, c as nat) := p.boneIndex][BoneWeightByte(base + p.vertexId, c as nat) := p.weight];
        assert Arrivals(ps, v) == (if p.vertexId == v then [p] else []) + Arrivals(ps[1..], v);
        WriteSlotsIndexAt(bytes', counts[p.vertexId := c + 1], base, ps[1..], v, s);
      } else {
        WriteSlotsIndexAt(bytes, counts, base, ps[1..], v, s);
      }
    }
  }

  lemma {:induction false} WriteSlotsWeightAt(bytes: seq<u8>, counts: seq<u8>, base: nat, ps: seq<Placement>, v: nat, s: nat)
    requires PlacementsBelow(ps, |counts|) && (base + |counts|) * NUMBER_OF_BYTES_PER_SKINNED_VERTEX <= |bytes|
    requires v < |counts| && s < 4
    ensures BoneWeightByte(base + v, s) < |bytes|
    ensures var a := Arrivals(ps, v);
            var c := counts[v] as nat;
            WriteSlots(bytes, counts, base, ps)[BoneWeightByte(base + v, s)] ==
              (if c <= s < c + |a| then a[s - c].weight else bytes[BoneWeightByte(base + v, s)])
    decreases |ps|
  {
    PlaceBytes(bytes, base, |counts|, v, 0, 0, 0, v, s);
    if |ps| > 0 {
      var p := ps[0];
      var c := counts[p.vertexId];
      assert PlacementsBelow(ps[1..], |counts|);
      if c < 4 {
        PlaceBytes(bytes, base, |counts|, p.vertexId, c as nat, p.boneIndex, p.weight, v, s);
        var bytes' := bytes[BoneIndexByte(base + p.vertexId, c as nat) := p.boneIndex][BoneWeightByte(base + p.vertexId, c as nat) := p.weight];
        var counts' := counts[p.vertexId := c + 1];
        var a := Arrivals(ps, v);
        var a' := Arrivals(ps[1..], v);
        assert a == (if p.vertexId == v then [p] else []) + a';
        WriteSlotsWeightAt(bytes', counts', base, ps[1..], v, s);
        if p.vertexId == v {
          assert counts'[v] as nat == counts[v] as nat + 1 && a[0] == p && a[1..] == a';
        } else {
          assert counts'[v] == counts[v] && a == a';
        }
      } else {
        WriteSlotsWeightAt(bytes, counts, base, ps[1..], v, s);
      }
    }
  }

  /** The weight loop changes no byte outside the bone bytes of the
      vertices it covers. */
  lemma {:induction false} WriteSlotsFrame(bytes: seq<u8>, counts: seq<u8>, base: nat, ps: seq<Placement>, q: nat)
    requires PlacementsBelow(ps, |counts|) && (base + |counts|) * NUMBER_OF_BYTES_PER_SKINNED_VERTEX <= |bytes|
    requires q < |bytes|
    requires q < base * NUMBER_OF_BYTES_PER_SKINNED_VERTEX || q >= (base + |counts|) * NUMBER_OF_BYTES_PER_SKINNED_VERTEX ||
             q % NUMBER_OF_BYTES_PER_SKINNED_VERTEX < BONE_INDICES_OFFSET
    ensures WriteSlots(bytes, counts, base, ps)[q] == bytes[q]
    decreases |ps|
  {
    if |ps| > 0 {
      var p := ps[0];
      var c := counts[p.vertexId];
      assert PlacementsBelow(ps[1..], |counts|);
      if c < 4 {
        BoneByteColumn(base + p.vertexId, c as nat);
        VertexBytesWithin(base, base + p.vertexId);
        VertexBytesWithin(base + p.vertexId + 1, base + |counts|);
        BoneBytesDisjoint(base + p.vertexId, c as nat, base + p.vertexId, c as nat);
        var bytes' := bytes[BoneIndexByte(base + p.vertexId, c as nat) := p.boneIndex][BoneWeightByte(base + p.vertexId, c as nat) := p.weight];
        WriteSlotsFrame(bytes', counts[p.vertexId := c + 1], base, ps[1..], q);
      } else {
        WriteSlotsFrame(bytes, counts, base, ps[1..], q);
      }
    }
  }

  /** Bone bytes sit in the last eight bytes of their vertex. */
  lemma BoneByteColumn(v: nat, s: nat)
    requires s < 4
    ensures BoneIndexByte(v, s) % NUMBER_OF_BYTES_PER_SKINNED_VERTEX == BONE_INDICES_OFFSET + s
    ensures BoneWeightByte(v, s) % NUMBER_OF_BYTES_PER_SKINNED_VERTEX == BONE_WEIGHTS_OFFSET + s
  {
    VertexColumn(v, BONE_INDICES_OFFSET + s);
    VertexColumn(v, BONE_WEIGHTS_OFFSET + s);
  }

  /** Byte `r` of vertex `v` is column `r` of the vertex grid. */
  lemma VertexColumn(v: nat, r: nat)
    requires r < NUMBER_OF_BYTES_PER_SKINNED_VERTEX
    ensures (v * NUMBER_OF_BYTES_PER_SKINNED_VERTEX + r) % NUMBER_OF_BYTES_PER_SKINNED_VERTEX == r
  {
    var x := v * NUMBER_OF_BYTES_PER_SKINNED_VERTEX + r;
    var q := x / NUMBER_OF_BYTES_PER_SKINNED_VERTEX;
    var m := x % NUMBER_OF_BYTES_PER_SKINNED_VERTEX;
    assert q * NUMBER_OF_BYTES_PER_SKINNED_VERTEX + m == x;
    assert (q - v) * NUMBER_OF_BYTES_PER_SKINNED_VERTEX == r - m;
  }

  /** The first bone of `bones[i..]` that the skeleton does not know. */
  function FirstUnknownBone(skeletonIds: seq<u32>, boneId: string -> u32, bones: seq<Bone>, i: nat): (r: Option<nat>)
    requires i <= |bones|
    ensures r.Some? ==> i <= r.value < |bones|
    decreases |bones| - i
  {
    if i == |bones| then None
    else if BoneSlot(skeletonIds, boneId, bones[i]) == INVALID then Some(i)
    else FirstUnknownBone(skeletonIds, boneId, bones, i + 1)
  }

  /** The scan finds the first unknown bone, and nothing exactly when every
      bone is known. */
  lemma {:induction false} FirstUnknownBoneMeaning(skeletonIds: seq<u32>, boneId: string -> u32, bones: seq<Bone>, i: nat)
    requires i <= |bones|
    ensures var r := FirstUnknownBone(skeletonIds, boneId, bones, i);
            && (r.None? <==> forall b :: i <= b < |bones| ==> BoneSlot(skeletonIds, boneId, bones[b]) != INVALID)
            && (r.Some? ==> BoneSlot(skeletonIds, boneId, bones[r.value]) == INVALID &&
                            (forall b :: i <= b < r.value ==> BoneSlot(skeletonIds, boneId, bones[b]) != INVALID))
    decreases |bones| - i
  {
    if i < |bones| && BoneSlot(skeletonIds, boneId, bones[i]) != INVALID {
      FirstUnknownBoneMeaning(skeletonIds, boneId, bones, i + 1);
    }
  }

  /** The scan stops at `b` when every bone before it is known and `b` is
      unknown or past the end. */
  lemma FirstUnknownBoneAt(skeletonIds: seq<u32>, boneId: string -> u32, bones: seq<Bone>, b: nat)
    requires b <= |bones|
    requires forall j :: 0 <= j < b ==> BoneSlot(skeletonIds, boneId, bones[j]) != INVALID
    requires b < |bones| ==> BoneSlot(skeletonIds, boneId, bones[b]) == INVALID
    ensures FirstUnknownBone(skeletonIds, boneId, bones, 0) == if b == |bones| then None else Some(b)
  {
    FirstUnknownBoneMeaning(skeletonIds, boneId, bones, 0);
  }

  function Zeros(n: nat): (r: seq<u8>)
    ensures |r| == n && forall k :: 0 <= k < n ==> r[k] == 0
  {
    seq(n, _ => 0)
  }

  /** The bone loop of `fillMeshRecursive` for a mesh whose vertices start
      at `base`: it throws at the first bone the skeleton does not know, and
      otherwise places every weight with all slot counts starting at zero. */
  function BoneWrites(skeletonIds: seq<u32>, boneId: string -> u32, quantise: real -> u8, bytes: seq<u8>, mesh: Mesh, base: nat): (r: Result<seq<u8>, MeshError>)
    requires WeightsInside(mesh)
    requires (base + mesh.numberOfVertices) * NUMBER_OF_BYTES_PER_SKINNED_VERTEX <= |bytes|
    ensures r.Success? ==> |r.value| == |bytes|
    ensures r.Failure? <==> FirstUnknownBone(skeletonIds, boneId, mesh.bones, 0).Some?
    ensures r.Failure? ==> r.error == InvalidBoneName(mesh.bones[FirstUnknownBone(skeletonIds, boneId, mesh.bones, 0).value].name)
  {
    match FirstUnknownBone(skeletonIds, boneId, mesh.bones, 0)
    case Some(b) => Failure(InvalidBoneName(mesh.bones[b].name))
    case None =>
      PlacementsInMesh(skeletonIds, boneId, quantise, mesh.bones, mesh.numberOfVertices);
      Success(WriteSlots(bytes, Zeros(mesh.numberOfVertices), base, Placements(skeletonIds, boneId, quantise, mesh.bones)))
  }

  /** Slot `s` of vertex `v` of the mesh holds the `s`-th weight the bones
      give that vertex, in bone order and then weight order, with that
      bone's skeleton slot as its index; a vertex with fewer weights keeps
      the bytes of its free slots, and a fifth weight and any after it are
      dropped. */
  lemma BoneWritesSlots(skeletonIds: seq<u32>, boneId: string -> u32, quantise: real -> u8, bytes: seq<u8>, mesh: Mesh, base: nat, v: nat, s: nat)
    requires WeightsInside(mesh)
    requires (base + mesh.numberOfVertices) * NUMBER_OF_BYTES_PER_SKINNED_VERTEX <= |bytes|
    requires BoneWrites(skeletonIds, boneId, quantise, bytes, mesh, base).Success?
    requires v < mesh.numberOfVertices && s < 4
    ensures BoneWeightByte(base + v, s) < |bytes|
    ensures var r := BoneWrites(skeletonIds, boneId, quantise, bytes, mesh, base).value;
            var a := Arrivals(Placements(skeletonIds, boneId, quantise, mesh.bones), v);
            && r[BoneIndexByte(base + v, s)] == (if s < |a| then a[s].boneIndex else bytes[BoneIndexByte(base + v, s)])
            && r[BoneWeightByte(base + v, s)] == (if s < |a| then a[s].weight else bytes[BoneWeightByte(base + v, s)])
  {
    PlacementsInMesh(skeletonIds, boneId, quantise, mesh.bones, mesh.numberOfVertices);
    WriteSlotsAt(bytes, Zeros(mesh.numberOfVertices), base, Placements(skeletonIds, boneId, quantise, mesh.bones), v, s);
  }

  /** The bone indices the loop writes are the skeleton slots of the bones:
      each fits in eight bits as long as the skeleton has at most 255
      bones. */
  lemma {:induction false} PlacementsSlots(skeletonIds: seq<u32>, boneId: string -> u32, quantise: real -> u8, bones: seq<Bone>)
    requires |skeletonIds| <= MAX_BONES
    requires FirstUnknownBone(skeletonIds, boneId, bones, 0).None?
    ensures forall k :: 0 <= k < |Placements(skeletonIds, boneId, quantise, bones)| ==>
              (Placements(skeletonIds, boneId, quantise, bones)[k].boneIndex as nat) < |skeletonIds|
    decreases |bones|
  {
    FirstUnknownBoneMeaning(skeletonIds, boneId, bones, 0);
    if |bones| > 0 {
      MeshSkeleton.BoneIndexByBoneIdMeaning(skeletonIds, boneId(bones[0].name));
      FirstUnknownBoneShift(skeletonIds, boneId, bones);
      PlacementsSlots(skeletonIds, boneId, quantise, bones[1..]);
    }
  }

  lemma FirstUnknownBoneShift(skeletonIds: seq<u32>, boneId: string -> u32, bones: seq<Bone>)
    requires |bones| > 0 && FirstUnknownBone(skeletonIds, boneId, bones, 0).None?
    ensures FirstUnknownBone(skeletonIds, boneId, bones[1..], 0).None?
  {
    FirstUnknownBoneMeaning(skeletonIds, boneId, bones, 0);
    FirstUnknownBoneMeaning(skeletonIds, boneId, bones[1..], 0);
    assert forall b :: 0 <= b < |bones| - 1 ==> bones[1..][b] == bones[b + 1];
  }

  /** The weight loop of `fillMeshRecursive` for one bone. */
  method FillBoneWeights(bone: Bone, boneIndex: u8, quantise: real -> u8, base: nat,
                         numberOfWeightsPerVertex: array<u8>, vertexBuffer: array<u8>, ghost rest: seq<Placement>)
    requires numberOfWeightsPerVertex != vertexBuffer
    requires PlacementsBelow(BonePlacements(bone, boneIndex, quantise) + rest, numberOfWeightsPerVertex.Length)
    requires (base + numberOfWeightsPerVertex.Length) * NUMBER_OF_BYTES_PER_SKINNED_VERTEX <= vertexBuffer.Length
    modifies numberOfWeightsPerVertex, vertexBuffer
    ensures PlacementsBelow(rest, numberOfWeightsPerVertex.Length)
    ensures WriteSlots(old(vertexBuffer[..]), old(numberOfWeightsPerVertex[..]), base, BonePlacements(bone, boneIndex, quantise) + rest) ==
            WriteSlots(vertexBuffer[..], numberOfWeightsPerVertex[..], base, rest)
  {
    ghost var all := BonePlacements(bone, boneIndex, quantise) + rest;
    ghost var goal := WriteSlots(vertexBuffer[..], numberOfWeightsPerVertex[..], base, all);
    var weight := 0;
    while weight < |bone.weights|
      invariant 0 <= weight <= |bone.weights|
      invariant all[weight..] == BonePlacements(bone, boneIndex, quantise)[weight..] + rest
      invariant PlacementsBelow(all[weight..], numberOfWeightsPerVertex.Length)
      invariant goal == WriteSlots(vertexBuffer[..], numberOfWeightsPerVertex[..], base, all[weight..])
    {
      var vertexWeight := bone.weights[weight];
      assert all[weight..][0] == Placement(vertexWeight.vertexId, boneIndex, quantise(vertexWeight.weight));
      assert all[weight..][1..] == all[weight + 1..];
      var numberOfVertexWeights := numberOfWeightsPerVertex[vertexWeight.vertexId];
      if numberOfVertexWeights < 4 {
        BoneBytesDisjoint(base + vertexWeight.vertexId, numberOfVertexWeights as nat, base + vertexWeight.vertexId, numberOfVertexWeights as nat);
        VertexBytesWithin(base + vertexWeight.vertexId + 1, base + numberOfWeightsPerVertex.Length);
        vertexBuffer[BoneIndexByte(base + vertexWeight.vertexId, numberOfVertexWeights as nat)] := boneIndex;
        vertexBuffer[BoneWeightByte(base + vertexWeight.vertexId, numberOfVertexWeights as nat)] := quantise(vertexWeight.weight);
        numberOfWeightsPerVertex[vertexWeight.vertexId] := numberOfVertexWeights + 1;
      }
      weight := weight + 1;
    }
    assert all[weight..] == rest;
  }

  /** One turn of the bone loop of `fillMeshRecursive`: looks the bone up in
      the skeleton and, when the skeleton knows it, places its weights. */
  method FillBone(skeleton: MeshSkeleton.Skeleton, boneId: string -> u32, quantise: real -> u8, bones: seq<Bone>, bone: nat, base: nat,
                  numberOfWeightsPerVertex: array<u8>, vertexBuffer: array<u8>, ghost ids: seq<u32>) returns (known: bool)
    requires skeleton.Valid() && ids == skeleton.boneIds[..] && bone < |bones|
    requires numberOfWeightsPerVertex != vertexBuffer
    requires PlacementsBelow(Placements(ids, boneId, quantise, bones[bone..]), numberOfWeightsPerVertex.Length)
    requires (base + numberOfWeightsPerVertex.Length) * NUMBER_OF_BYTES_PER_SKINNED_VERTEX <= vertexBuffer.Length
    modifies numberOfWeightsPerVertex, vertexBuffer
    ensures known <==> BoneSlot(ids, boneId, bones[bone]) != INVALID
    ensures known ==> PlacementsBelow(Placements(ids, boneId, quantise, bones[bone + 1..]), numberOfWeightsPerVertex.Length)
    ensures known ==> WriteSlots(old(vertexBuffer[..]), old(numberOfWeightsPerVertex[..]), base, Placements(ids, boneId, quantise, bones[bone..])) ==
                      WriteSlots(vertexBuffer[..], numberOfWeightsPerVertex[..], base, Placements(ids, boneId, quantise, bones[bone + 1..]))
  {
    assert skeleton.boneIds[..skeleton.numberOfBones] == ids;
    var assimpBone := bones[bone];
    var boneIndex := skeleton.GetBoneIndexByBoneId(boneId(assimpBone.name), skeleton.numberOfBones as nat);
    if boneIndex == INVALID {
      return false;
    }
    assert bones[bone..][0] == assimpBone && bones[bone..][1..] == bones[bone + 1..];
    FillBoneWeights(assimpBone, LowByte(boneIndex as nat), quantise, base, numberOfWeightsPerVertex, vertexBuffer,
                    Placements(ids, boneId, quantise, bones[bone + 1..]));
    return true;
  }

  /** The bone loop of `fillMeshRecursive`, for a mesh whose vertices start
      at `base`. */
  method FillBoneSlots(skeleton: MeshSkeleton.Skeleton, boneId: string -> u32, quantise: real -> u8, mesh: Mesh, base: nat, vertexBuffer: array<u8>)
      returns (o: Outcome<MeshError>)
    requires skeleton.Valid()
    requires WeightsInside(mesh)
    requires (base + mesh.numberOfVertices) * NUMBER_OF_BYTES_PER_SKINNED_VERTEX <= vertexBuffer.Length
    modifies vertexBuffer
    ensures var spec := BoneWrites(skeleton.boneIds[..], boneId, quantise, old(vertexBuffer[..]), mesh, base);
            && (o.Pass? <==> spec.Success?)
            && (o.Fail? ==> o.error == spec.error)
            && (o.Pass? ==> vertexBuffer[..] == spec.value)
  {
    ghost var ids := skeleton.boneIds[..];
    var numberOfWeightsPerVertex := new u8[mesh.numberOfVertices](_ => 0);
    assert numberOfWeightsPerVertex[..] == Zeros(mesh.numberOfVertices);
    PlacementsInMesh(ids, boneId, quantise, mesh.bones, mesh.numberOfVertices);
    ghost var goal := WriteSlots(vertexBuffer[..], numberOfWeightsPerVertex[..], base, Placements(ids, boneId, quantise, mesh.bones));
    var bone := 0;
    assert mesh.bones[0..] == mesh.bones;
    while bone < |mesh.bones|
      invariant 0 <= bone <= |mesh.bones| && ids == skeleton.boneIds[..]
      invariant forall b :: 0 <= b < bone ==> BoneSlot(ids, boneId, mesh.bones[b]) != INVALID
      invariant PlacementsBelow(Placements(ids, boneId, quantise, mesh.bones[bone..]), mesh.numberOfVertices)
      invariant goal == WriteSlots(vertexBuffer[..], numberOfWeightsPerVertex[..], base, Placements(ids, boneId, quantise, mesh.bones[bone..]))
    {
      var known := FillBone(skeleton, boneId, quantise, mesh.bones, bone, base, numberOfWeightsPerVertex, vertexBuffer, ids);
      if !known {
        FirstUnknownBoneAt(ids, boneId, mesh.bones, bone);
        return Fail(InvalidBoneName(mesh.bones[bone].name));
      }
      bone := bone + 1;
    }
    assert mesh.bones[bone..] == [];
    FirstUnknownBoneAt(ids, boneId, mesh.bones, bone);
    return Pass;
  }

  // ---------------------------------------------------------------------
  // The pass over the tree
  // ---------------------------------------------------------------------

  /** What `fillMeshRecursive` takes from outside: the string hash that
      names bones, the weight quantisation
      `static_cast<uint8_t>(weight * 255)`, which is floating point and
      given, and whether mikktspace's `genTangSpaceDefault` succeeds on a
      mesh, which is floating point too. */
  datatype FillContext = FillContext(boneId: string -> u32, quantise: real -> u8, tangentSpaceGenerated: Mesh -> bool)

  /** The meshes keep their bone weights inside them and, with a skeleton,
      the vertex buffer has room for their vertices after `base`. Without a
      skeleton the vertex buffer is never touched. */
  predicate BytesFit(skeletonIds: seq<u32>, bytes: seq<u8>, base: nat, meshes: seq<Mesh>) {
    && (forall k :: 0 <= k < |meshes| ==> WeightsInside(meshes[k]))
    && (|skeletonIds| > 0 ==> (base + SumVertices(meshes)) * NUMBER_OF_BYTES_PER_SKINNED_VERTEX <= |bytes|)
  }

  /** The meshes whose bone loop runs: both it and the skeleton have
      bones. */
  predicate Skinned(skeletonIds: seq<u32>, mesh: Mesh) {
    |mesh.bones| > 0 && |skeletonIds| > 0
  }

  /** A skinned mesh with a bone the skeleton does not know. */
  predicate BonesFail(ctx: FillContext, skeletonIds: seq<u32>, mesh: Mesh) {
    Skinned(skeletonIds, mesh) && FirstUnknownBone(skeletonIds, ctx.boneId, mesh.bones, 0).Some?
  }

  /** A mesh with a first texture coordinate channel whose tangent space
      generation fails. */
  predicate TangentsFail(ctx: FillContext, mesh: Mesh) {
    mesh.numberOfUvComponents0 != 0 && !ctx.tangentSpaceGenerated(mesh)
  }

  /** A mesh whose turn of the mesh loop throws: in its tangent space
      generation or in its bone loop. */
  predicate MeshFails(ctx: FillContext, skeletonIds: seq<u32>, mesh: Mesh) {
    TangentsFail(ctx, mesh) || BonesFail(ctx, skeletonIds, mesh)
  }

  /** The error of the bone loop of a mesh that fails: its first unknown
      bone. */
  function BoneError(ctx: FillContext, skeletonIds: seq<u32>, mesh: Mesh): MeshError
    requires BonesFail(ctx, skeletonIds, mesh)
  {
    InvalidBoneName(mesh.bones[FirstUnknownBone(skeletonIds, ctx.boneId, mesh.bones, 0).value].name)
  }

  /** The error of a mesh whose turn throws: tangent space generation
      comes first. */
  function MeshStepError(ctx: FillContext, skeletonIds: seq<u32>, mesh: Mesh): MeshError
    requires MeshFails(ctx, skeletonIds, mesh)
  {
    if TangentsFail(ctx, mesh) then TangentSpaceFailed else BoneError(ctx, skeletonIds, mesh)
  }

  /** One mesh whose vertices start at `base`: the tangent space
      generation, then the bone bytes. */
  function MeshStep(ctx: FillContext, skeletonIds: seq<u32>, bytes: seq<u8>, base: nat, mesh: Mesh): (r: Result<seq<u8>, MeshError>)
    requires WeightsInside(mesh)
    requires |skeletonIds| > 0 ==> (base + mesh.numberOfVertices) * NUMBER_OF_BYTES_PER_SKINNED_VERTEX <= |bytes|
    ensures r.Success? ==> |r.value| == |bytes|
    ensures r.Failure? <==> MeshFails(ctx, skeletonIds, mesh)
    ensures r.Failure? ==> r.error == MeshStepError(ctx, skeletonIds, mesh)
  {
    if TangentsFail(ctx, mesh) then Failure(TangentSpaceFailed)
    else if Skinned(skeletonIds, mesh) then BoneWrites(skeletonIds, ctx.boneId, ctx.quantise, bytes, mesh, base)
    else Success(bytes)
  }

  /** The bone bytes of a run of meshes, the first mesh's vertices starting
      at `base` and each following mesh's right after the one before,
      stopping at the first failure. */
  function BonesFrom(ctx: FillContext, skeletonIds: seq<u32>, bytes: seq<u8>, base: nat, meshes: seq<Mesh>): (r: Result<seq<u8>, MeshError>)
    requires BytesFit(skeletonIds, bytes, base, meshes)
    ensures r.Success? ==> |r.value| == |bytes|
    decreases |meshes|
  {
    if |meshes| == 0 then Success(bytes)
    else
      var mesh := meshes[0];
      var next := base + mesh.numberOfVertices;
      VertexBytesWithin(next, base + SumVertices(meshes));
      assert WeightsInside(mesh);
      assert forall k :: 0 <= k < |meshes| - 1 ==> meshes[1..][k] == meshes[k + 1];
      var r := MeshStep(ctx, skeletonIds, bytes, base, mesh);
      if r.Failure? then r else BonesFrom(ctx, skeletonIds, r.value, next, meshes[1..])
  }

  /** Continues a pass that has not failed. */
  function BonesThen(ctx: FillContext, skeletonIds: seq<u32>, r: Result<seq<u8>, MeshError>, base: nat, meshes: seq<Mesh>): Result<seq<u8>, MeshError>
    requires r.Success? ==> BytesFit(skeletonIds, r.value, base, meshes)
  {
    if r.Failure? then r else BonesFrom(ctx, skeletonIds, r.value, base, meshes)
  }

  /** Room for two runs of meshes is room for each, the second after the
      first. */
  lemma BytesFitAppend(skeletonIds: seq<u32>, bytes: seq<u8>, base: nat, a: seq<Mesh>, b: seq<Mesh>)
    requires BytesFit(skeletonIds, bytes, base, a + b)
    ensures BytesFit(skeletonIds, bytes, base, a)
    ensures forall bytes': seq<u8> {:trigger BytesFit(skeletonIds, bytes', base + SumVertices(a), b)} ::
              |bytes'| == |bytes| ==> BytesFit(skeletonIds, bytes', base + SumVertices(a), b)
  {
    SumsAppend(a, b);
    assert forall k :: 0 <= k < |a| ==> a[k] == (a + b)[k];
    assert forall k :: 0 <= k < |b| ==> b[k] == (a + b)[|a| + k];
    VertexBytesWithin(base + SumVertices(a), base + SumVertices(a + b));
  }

  /** Filling two runs of meshes is filling the first, then the second from
      where the first left off. */
  lemma {:induction false} BonesFromAppend(ctx: FillContext, skeletonIds: seq<u32>, bytes: seq<u8>, base: nat, a: seq<Mesh>, b: seq<Mesh>)
    requires BytesFit(skeletonIds, bytes, base, a + b)
    ensures BytesFit(skeletonIds, bytes, base, a)
    ensures var r := BonesFrom(ctx, skeletonIds, bytes, base, a);
            && (r.Success? ==> BytesFit(skeletonIds, r.value, base + SumVertices(a), b))
            && BonesFrom(ctx, skeletonIds, bytes, base, a + b) == BonesThen(ctx, skeletonIds, r, base + SumVertices(a), b)
    decreases |a|
  {
    BytesFitAppend(skeletonIds, bytes, base, a, b);
    if |a| == 0 {
      assert a + b == b;
    } else {
      assert (a + b)[0] == a[0] && (a + b)[1..] == a[1..] + b;
      var next := base + a[0].numberOfVertices;
      var step := MeshStep(ctx, skeletonIds, bytes, base, a[0]);
      if step.Success? {
        assert BonesFrom(ctx, skeletonIds, bytes, base, a + b) == BonesFrom(ctx, skeletonIds, step.value, next, a[1..] + b);
        BonesFromAppend(ctx, skeletonIds, step.value, next, a[1..], b);
      }
    }
  }

  /** The pass succeeds exactly when no mesh among the meshes fails its
      tangent space generation or, skinned, has a bone the skeleton does
      not know. */
  lemma {:induction false} BonesFromSucceeds(ctx: FillContext, skeletonIds: seq<u32>, bytes: seq<u8>, base: nat, meshes: seq<Mesh>)
    requires BytesFit(skeletonIds, bytes, base, meshes)
    ensures BonesFrom(ctx, skeletonIds, bytes, base, meshes).Success? <==>
            forall k :: 0 <= k < |meshes| ==> !MeshFails(ctx, skeletonIds, meshes[k])
    decreases |meshes|
  {
    if |meshes| > 0 {
      var step := MeshStep(ctx, skeletonIds, bytes, base, meshes[0]);
      if step.Success? {
        BonesFromSucceeds(ctx, skeletonIds, step.value, base + meshes[0].numberOfVertices, meshes[1..]);
        assert forall k :: 0 < k < |meshes| ==> meshes[k] == meshes[1..][k - 1];
      }
    }
  }

  /** A failed pass names the error of the first mesh whose turn throws:
      its tangent space generation, or else its first unknown bone. */
  lemma {:induction false} BonesFromFailure(ctx: FillContext, skeletonIds: seq<u32>, bytes: seq<u8>, base: nat, meshes: seq<Mesh>)
    requires BytesFit(skeletonIds, bytes, base, meshes)
    requires BonesFrom(ctx, skeletonIds, bytes, base, meshes).Failure?
    ensures exists k :: 0 <= k < |meshes| && MeshFails(ctx, skeletonIds, meshes[k]) &&
              (forall j :: 0 <= j < k ==> !MeshFails(ctx, skeletonIds, meshes[j])) &&
              BonesFrom(ctx, skeletonIds, bytes, base, meshes).error == MeshStepError(ctx, skeletonIds, meshes[k])
    decreases |meshes|
  {
    var step := MeshStep(ctx, skeletonIds, bytes, base, meshes[0]);
    if step.Success? {
      var rest := meshes[1..];
      assert !MeshFails(ctx, skeletonIds, meshes[0]);
      assert BonesFrom(ctx, skeletonIds, bytes, base, meshes) == BonesFrom(ctx, skeletonIds, step.value, base + meshes[0].numberOfVertices, rest);
      BonesFromFailure(ctx, skeletonIds, step.value, base + meshes[0].numberOfVertices, rest);
      var k :| 0 <= k < |rest| && MeshFails(ctx, skeletonIds, rest[k]) &&
               (forall j :: 0 <= j < k ==> !MeshFails(ctx, skeletonIds, rest[j])) &&
               BonesFrom(ctx, skeletonIds, step.value, base + meshes[0].numberOfVertices, rest).error == MeshStepError(ctx, skeletonIds, rest[k]);
      assert meshes[k + 1] == rest[k];
      assert forall j :: 0 < j < k + 1 ==> meshes[j] == rest[j - 1];
      assert forall j :: 0 <= j < k + 1 ==> !MeshFails(ctx, skeletonIds, meshes[j]);
    } else {
      assert MeshFails(ctx, skeletonIds, meshes[0]);
    }
  }

  /** The first mesh of a run and the rest: its bone loop, and the rest from
      where it leaves the vertex buffer. */
  lemma BonesFromFirst(ctx: FillContext, skeletonIds: seq<u32>, bytes: seq<u8>, base: nat, mesh: Mesh, meshes: seq<Mesh>)
    requires BytesFit(skeletonIds, bytes, base, [mesh] + meshes)
    ensures WeightsInside(mesh)
    ensures |skeletonIds| > 0 ==> (base + mesh.numberOfVertices) * NUMBER_OF_BYTES_PER_SKINNED_VERTEX <= |bytes|
    ensures var r := MeshStep(ctx, skeletonIds, bytes, base, mesh);
            && (r.Success? ==> BytesFit(skeletonIds, r.value, base + mesh.numberOfVertices, meshes))
            && BonesFrom(ctx, skeletonIds, bytes, base, [mesh] + meshes) == BonesThen(ctx, skeletonIds, r, base + mesh.numberOfVertices, meshes)
  {
    var all := [mesh] + meshes;
    assert all[0] == mesh && all[1..] == meshes;
    assert forall k :: 0 <= k < |meshes| ==> meshes[k] == all[k + 1];
    VertexBytesWithin(base + mesh.numberOfVertices, base + SumVertices(all));
  }

  /** The indices of the first mesh of a run, then those of the rest. */
  lemma {:induction false} IndicesFromFirst(mesh: Mesh, meshes: seq<Mesh>, startVertex: nat)
    ensures SumVertices([mesh] + meshes) == mesh.numberOfVertices + SumVertices(meshes)
    ensures SumIndices([mesh] + meshes) == FaceIndexCount(mesh.faces) + SumIndices(meshes)
    ensures IndicesFrom([mesh] + meshes, startVertex) == MeshIndices(mesh, startVertex) + IndicesFrom(meshes, startVertex + mesh.numberOfVertices)
  {
    var all := [mesh] + meshes;
    assert all[0] == mesh && all[1..] == meshes;
  }

  /** One turn of the mesh loop of `fillMeshRecursive`: the tangent space
      generation when the mesh has texture coordinates, the bone loop when
      both the mesh and the skeleton have bones, the vertex count moved past
      the mesh, then the face loop. */
  method FillMesh(ctx: FillContext, skeleton: MeshSkeleton.Skeleton, mesh: Mesh, numberOfVertices: nat, numberOfIndices: nat,
                  vertexBuffer: array<u8>, indexBuffer: array<nat>)
      returns (o: Outcome<MeshError>, numberOfVertices': nat, numberOfIndices': nat)
    requires skeleton.Valid() && WeightsInside(mesh)
    requires skeleton.numberOfBones > 0 ==> (numberOfVertices + mesh.numberOfVertices) * NUMBER_OF_BYTES_PER_SKINNED_VERTEX <= vertexBuffer.Length
    requires numberOfIndices + FaceIndexCount(mesh.faces) <= indexBuffer.Length
    modifies vertexBuffer, indexBuffer
    ensures var step := MeshStep(ctx, skeleton.boneIds[..], old(vertexBuffer[..]), numberOfVertices, mesh);
            && (o.Pass? <==> step.Success?)
            && (o.Fail? ==> o.error == step.error)
            && (o.Pass? ==> vertexBuffer[..] == step.value)
    ensures o.Pass? ==> numberOfVertices' == numberOfVertices + mesh.numberOfVertices
    ensures o.Pass? ==> numberOfIndices' == numberOfIndices + FaceIndexCount(mesh.faces)
    ensures o.Pass? ==> indexBuffer[..] == Write(old(indexBuffer[..]), numberOfIndices, MeshIndices(mesh, numberOfVertices))
  {
    if mesh.numberOfUvComponents0 != 0 && !ctx.tangentSpaceGenerated(mesh) {
      return Fail(TangentSpaceFailed), numberOfVertices, numberOfIndices;
    }
    if |mesh.bones| > 0 && skeleton.numberOfBones > 0 {
      o := FillBoneSlots(skeleton, ctx.boneId, ctx.quantise, mesh, numberOfVertices, vertexBuffer);
      if o.Fail? {
        return o, numberOfVertices, numberOfIndices;
      }
    }
    o := Pass;
    numberOfVertices' := numberOfVertices + mesh.numberOfVertices;
    numberOfIndices' := FillMeshIndices(mesh, numberOfVertices, indexBuffer, numberOfIndices);
  }

  /** The room both buffers need for a run of meshes from the given
      counts on. */
  predicate Room(skeletonIds: seq<u32>, vertexBuffer: seq<u8>, indexBuffer: seq<nat>, numberOfVertices: nat, numberOfIndices: nat, meshes: seq<Mesh>) {
    BytesFit(skeletonIds, vertexBuffer, numberOfVertices, meshes) && numberOfIndices + SumIndices(meshes) <= |indexBuffer|
  }

  /** A pass over the tree that has reached the given buffers and counts
      with the meshes `todo` still to come, and would end with the bone
      bytes `spec` and the index buffer `goal`. */
  predicate Continues(ctx: FillContext, skeletonIds: seq<u32>, vertexBuffer: seq<u8>, indexBuffer: seq<nat>, numberOfVertices: nat, numberOfIndices: nat,
                      todo: seq<Mesh>, spec: Result<seq<u8>, MeshError>, goal: seq<nat>) {
    && Room(skeletonIds, vertexBuffer, indexBuffer, numberOfVertices, numberOfIndices, todo)
    && spec == BonesFrom(ctx, skeletonIds, vertexBuffer, numberOfVertices, todo)
    && goal == Write(indexBuffer, numberOfIndices, IndicesFrom(todo, numberOfVertices))
  }

  /** One mesh of the walk: its bone loop fails as the pass does, and
      otherwise its bone bytes and indices leave a pass over the meshes after
      it. */
  lemma ContinuesFirst(ctx: FillContext, skeletonIds: seq<u32>, vertexBuffer: seq<u8>, indexBuffer: seq<nat>, numberOfVertices: nat, numberOfIndices: nat,
                       mesh: Mesh, todo: seq<Mesh>, spec: Result<seq<u8>, MeshError>, goal: seq<nat>)
    requires Continues(ctx, skeletonIds, vertexBuffer, indexBuffer, numberOfVertices, numberOfIndices, [mesh] + todo, spec, goal)
    ensures WeightsInside(mesh)
    ensures |skeletonIds| > 0 ==> (numberOfVertices + mesh.numberOfVertices) * NUMBER_OF_BYTES_PER_SKINNED_VERTEX <= |vertexBuffer|
    ensures numberOfIndices + FaceIndexCount(mesh.faces) <= |indexBuffer|
    ensures SumVertices([mesh] + todo) == mesh.numberOfVertices + SumVertices(todo)
    ensures SumIndices([mesh] + todo) == FaceIndexCount(mesh.faces) + SumIndices(todo)
    ensures var step := MeshStep(ctx, skeletonIds, vertexBuffer, numberOfVertices, mesh);
            && (step.Failure? ==> spec == step)
            && (step.Success? ==> Continues(ctx, skeletonIds, step.value, Write(indexBuffer, numberOfIndices, MeshIndices(mesh, numberOfVertices)),
                                            numberOfVertices + mesh.numberOfVertices, numberOfIndices + FaceIndexCount(mesh.faces), todo, spec, goal))
  {
    BonesFromFirst(ctx, skeletonIds, vertexBuffer, numberOfVertices, mesh, todo);
    IndicesFromFirst(mesh, todo, numberOfVertices);
    WriteWrite(indexBuffer, numberOfIndices, MeshIndices(mesh, numberOfVertices), IndicesFrom(todo, numberOfVertices + mesh.numberOfVertices));
  }

  /** `FillMesh` as one step of a pass over the tree. */
  method FillNext(ctx: FillContext, skeleton: MeshSkeleton.Skeleton, mesh: Mesh, numberOfVertices: nat, numberOfIndices: nat,
                  vertexBuffer: array<u8>, indexBuffer: array<nat>, ghost todo: seq<Mesh>, ghost spec: Result<seq<u8>, MeshError>, ghost goal: seq<nat>)
      returns (o: Outcome<MeshError>, numberOfVertices': nat, numberOfIndices': nat)
    requires skeleton.Valid()
    requires Continues(ctx, skeleton.boneIds[..], vertexBuffer[..], indexBuffer[..], numberOfVertices, numberOfIndices, [mesh] + todo, spec, goal)
    modifies vertexBuffer, indexBuffer
    ensures o.Fail? ==> spec == Failure(o.error)
    ensures o.Pass? ==> numberOfVertices' == numberOfVertices + mesh.numberOfVertices
    ensures o.Pass? ==> numberOfIndices' == numberOfIndices + FaceIndexCount(mesh.faces)
    ensures o.Pass? ==> Continues(ctx, skeleton.boneIds[..], vertexBuffer[..], indexBuffer[..], numberOfVertices', numberOfIndices', todo, spec, goal)
  {
    ghost var ids := skeleton.boneIds[..];
    ContinuesFirst(ctx, ids, vertexBuffer[..], indexBuffer[..], numberOfVertices, numberOfIndices, mesh, todo, spec, goal);
    o, numberOfVertices', numberOfIndices' := FillMesh(ctx, skeleton, mesh, numberOfVertices, numberOfIndices, vertexBuffer, indexBuffer);
    assert ids == skeleton.boneIds[..];
  }

  /** `fillMeshRecursive` on `node`: its own meshes, then its children. The
      ghost `rest` stands for the meshes the walk visits after this node, and
      `spec` and `goal` for what the whole pass leaves in the buffers: on
      success the pass has reached `rest` with counts past the node's
      meshes, and on failure the pass fails with the same error. */
  method FillNode(ctx: FillContext, skeleton: MeshSkeleton.Skeleton, scene: Scene, node: Node, numberOfVertices: nat, numberOfIndices: nat,
                  vertexBuffer: array<u8>, indexBuffer: array<nat>, ghost rest: seq<Mesh>, ghost spec: Result<seq<u8>, MeshError>, ghost goal: seq<nat>)
      returns (o: Outcome<MeshError>, numberOfVertices': nat, numberOfIndices': nat)
    requires skeleton.Valid() && InRange(MeshRefs(node), |scene.meshes|)
    requires Continues(ctx, skeleton.boneIds[..], vertexBuffer[..], indexBuffer[..], numberOfVertices, numberOfIndices, Referenced(scene, MeshRefs(node)) + rest, spec, goal)
    modifies vertexBuffer, indexBuffer
    ensures o.Fail? ==> spec == Failure(o.error)
    ensures o.Pass? ==> numberOfVertices' + SumVertices(rest) == numberOfVertices + SumVertices(Referenced(scene, MeshRefs(node)) + rest)
    ensures o.Pass? ==> numberOfIndices' + SumIndices(rest) == numberOfIndices + SumIndices(Referenced(scene, MeshRefs(node)) + rest)
    ensures o.Pass? ==> Continues(ctx, skeleton.boneIds[..], vertexBuffer[..], indexBuffer[..], numberOfVertices', numberOfIndices', rest, spec, goal)
    decreases node, 2
  {
    var nv, ni;
    o, nv, ni := FillNodeMeshes(ctx, skeleton, scene, node, numberOfVertices, numberOfIndices, vertexBuffer, indexBuffer, rest, spec, goal);
    if o.Fail? {
      return o, nv, ni;
    }
    o, numberOfVertices', numberOfIndices' := FillChildren(ctx, skeleton, scene, node, nv, ni, vertexBuffer, indexBuffer, rest, spec, goal);
  }

  /** The mesh loop of `fillMeshRecursive`: the pass goes on to the meshes
      of the children. */
  method FillNodeMeshes(ctx: FillContext, skeleton: MeshSkeleton.Skeleton, scene: Scene, node: Node, numberOfVertices: nat, numberOfIndices: nat,
                        vertexBuffer: array<u8>, indexBuffer: array<nat>, ghost rest: seq<Mesh>, ghost spec: Result<seq<u8>, MeshError>, ghost goal: seq<nat>)
      returns (o: Outcome<MeshError>, numberOfVertices': nat, numberOfIndices': nat)
    requires skeleton.Valid() && InRange(MeshRefs(node), |scene.meshes|)
    requires Continues(ctx, skeleton.boneIds[..], vertexBuffer[..], indexBuffer[..], numberOfVertices, numberOfIndices, Referenced(scene, MeshRefs(node)) + rest, spec, goal)
    modifies vertexBuffer, indexBuffer
    ensures o.Fail? ==> spec == Failure(o.error)
    ensures o.Pass? ==> InRange(MeshRefsChildren(node, 0), |scene.meshes|)
    ensures o.Pass? ==> numberOfVertices' + SumVertices(Referenced(scene, MeshRefsChildren(node, 0)) + rest) == numberOfVertices + SumVertices(Referenced(scene, MeshRefs(node)) + rest)
    ensures o.Pass? ==> numberOfIndices' + SumIndices(Referenced(scene, MeshRefsChildren(node, 0)) + rest) == numberOfIndices + SumIndices(Referenced(scene, MeshRefs(node)) + rest)
    ensures o.Pass? ==> Continues(ctx, skeleton.boneIds[..], vertexBuffer[..], indexBuffer[..], numberOfVertices', numberOfIndices',
                                  Referenced(scene, MeshRefsChildren(node, 0)) + rest, spec, goal)
  {
    ghost var ids := skeleton.boneIds[..];
    ghost var walk := Referenced(scene, MeshRefs(node)) + rest;
    ghost var todo := walk;
    numberOfVertices', numberOfIndices' := numberOfVertices, numberOfIndices;
    var i := 0;
    assert node.meshes[0..] == node.meshes;
    while i < |node.meshes|
      invariant 0 <= i <= |node.meshes| && ids == skeleton.boneIds[..]
      invariant InRange(node.meshes[i..] + MeshRefsChildren(node, 0), |scene.meshes|)
      invariant todo == Referenced(scene, node.meshes[i..] + MeshRefsChildren(node, 0)) + rest
      invariant numberOfVertices' + SumVertices(todo) == numberOfVertices + SumVertices(walk)
      invariant numberOfIndices' + SumIndices(todo) == numberOfIndices + SumIndices(walk)
      invariant Continues(ctx, ids, vertexBuffer[..], indexBuffer[..], numberOfVertices', numberOfIndices', todo, spec, goal)
    {
      var refs := node.meshes[i..] + MeshRefsChildren(node, 0);
      assert refs[0] == node.meshes[i] && refs[1..] == node.meshes[i + 1..] + MeshRefsChildren(node, 0);
      ReferencedFirst(scene, refs);
      var mesh := scene.meshes[node.meshes[i]];
      ghost var after := Referenced(scene, refs[1..]) + rest;
      assert todo == [mesh] + after;
      o, numberOfVertices', numberOfIndices' := FillNext(ctx, skeleton, mesh, numberOfVertices', numberOfIndices', vertexBuffer, indexBuffer, after, spec, goal);
      if o.Fail? {
        return;
      }
      todo := after;
      i := i + 1;
    }
    assert node.meshes[i..] + MeshRefsChildren(node, 0) == MeshRefsChildren(node, 0);
    o := Pass;
  }

  /** The child loop of `fillMeshRecursive`, with the contract of `FillNode`
      over the children's meshes. */
  method FillChildren(ctx: FillContext, skeleton: MeshSkeleton.Skeleton, scene: Scene, node: Node, numberOfVertices: nat, numberOfIndices: nat,
                      vertexBuffer: array<u8>, indexBuffer: array<nat>, ghost rest: seq<Mesh>, ghost spec: Result<seq<u8>, MeshError>, ghost goal: seq<nat>)
      returns (o: Outcome<MeshError>, numberOfVertices': nat, numberOfIndices': nat)
    requires skeleton.Valid() && InRange(MeshRefsChildren(node, 0), |scene.meshes|)
    requires Continues(ctx, skeleton.boneIds[..], vertexBuffer[..], indexBuffer[..], numberOfVertices, numberOfIndices, Referenced(scene, MeshRefsChildren(node, 0)) + rest, spec, goal)
    modifies vertexBuffer, indexBuffer
    ensures o.Fail? ==> spec == Failure(o.error)
    ensures o.Pass? ==> numberOfVertices' + SumVertices(rest) == numberOfVertices + SumVertices(Referenced(scene, MeshRefsChildren(node, 0)) + rest)
    ensures o.Pass? ==> numberOfIndices' + SumIndices(rest) == numberOfIndices + SumIndices(Referenced(scene, MeshRefsChildren(node, 0)) + rest)
    ensures o.Pass? ==> Continues(ctx, skeleton.boneIds[..], vertexBuffer[..], indexBuffer[..], numberOfVertices', numberOfIndices', rest, spec, goal)
    decreases node, 1
  {
    ghost var ids := skeleton.boneIds[..];
    ghost var walk := Referenced(scene, MeshRefsChildren(node, 0)) + rest;
    ghost var todo := walk;
    numberOfVertices', numberOfIndices' := numberOfVertices, numberOfIndices;
    var i := 0;
    while i < |node.children|
      invariant 0 <= i <= |node.children| && ids == skeleton.boneIds[..]
      invariant InRange(MeshRefsChildren(node, i), |scene.meshes|) && todo == Referenced(scene, MeshRefsChildren(node, i)) + rest
      invariant numberOfVertices' + SumVertices(todo) == numberOfVertices + SumVertices(walk)
      invariant numberOfIndices' + SumIndices(todo) == numberOfIndices + SumIndices(walk)
      invariant Continues(ctx, ids, vertexBuffer[..], indexBuffer[..], numberOfVertices', numberOfIndices', todo, spec, goal)
    {
      o, numberOfVertices', numberOfIndices', todo := FillChild(ctx, skeleton, scene, node, i, numberOfVertices', numberOfIndices', vertexBuffer, indexBuffer, rest, todo, spec, goal);
      if o.Fail? {
        return;
      }
      i := i + 1;
    }
    assert todo == rest by {
      assert MeshRefsChildren(node, i) == [];
    }
    o := Pass;
  }

  /** One turn of the child loop: `fillMeshRecursive` on child `i`. */
  method FillChild(ctx: FillContext, skeleton: MeshSkeleton.Skeleton, scene: Scene, node: Node, i: nat, numberOfVertices: nat, numberOfIndices: nat,
                   vertexBuffer: array<u8>, indexBuffer: array<nat>, ghost rest: seq<Mesh>, ghost todo: seq<Mesh>, ghost spec: Result<seq<u8>, MeshError>, ghost goal: seq<nat>)
      returns (o: Outcome<MeshError>, numberOfVertices': nat, numberOfIndices': nat, ghost after: seq<Mesh>)
    requires skeleton.Valid() && i < |node.children| && InRange(MeshRefsChildren(node, i), |scene.meshes|)
    requires todo == Referenced(scene, MeshRefsChildren(node, i)) + rest
    requires Continues(ctx, skeleton.boneIds[..], vertexBuffer[..], indexBuffer[..], numberOfVertices, numberOfIndices, todo, spec, goal)
    modifies vertexBuffer, indexBuffer
    ensures o.Fail? ==> spec == Failure(o.error)
    ensures InRange(MeshRefsChildren(node, i + 1), |scene.meshes|) && after == Referenced(scene, MeshRefsChildren(node, i + 1)) + rest
    ensures o.Pass? ==> numberOfVertices' + SumVertices(after) == numberOfVertices + SumVertices(todo)
    ensures o.Pass? ==> numberOfIndices' + SumIndices(after) == numberOfIndices + SumIndices(todo)
    ensures o.Pass? ==> Continues(ctx, skeleton.boneIds[..], vertexBuffer[..], indexBuffer[..], numberOfVertices', numberOfIndices', after, spec, goal)
    decreases node, 0
  {
    var child := node.children[i];
    ChildRefs(scene, node, i);
    after := Referenced(scene, MeshRefsChildren(node, i + 1)) + rest;
    assert todo == Referenced(scene, MeshRefs(child)) + after;
    o, numberOfVertices', numberOfIndices' := FillNode(ctx, skeleton, scene, child, numberOfVertices, numberOfIndices, vertexBuffer, indexBuffer, after, spec, goal);
  }

  /** The pass from the root with both counts at zero: it fails as the
      first mesh of the walk whose turn throws does, and otherwise leaves the bone bytes of the
      walk in the vertex buffer, the indices of the walk at the start of the
      index buffer, and counts all vertices and indices of the walk. */
  method FillTree(ctx: FillContext, skeleton: MeshSkeleton.Skeleton, scene: Scene, vertexBuffer: array<u8>, indexBuffer: array<nat>)
      returns (o: Outcome<MeshError>, numberOfVertices: nat, numberOfIndices: nat)
    requires skeleton.Valid() && InRange(MeshRefs(scene.root), |scene.meshes|)
    requires Room(skeleton.boneIds[..], vertexBuffer[..], indexBuffer[..], 0, 0, Referenced(scene, MeshRefs(scene.root)))
    modifies vertexBuffer, indexBuffer
    ensures var walk := Referenced(scene, MeshRefs(scene.root));
            var spec := BonesFrom(ctx, skeleton.boneIds[..], old(vertexBuffer[..]), 0, walk);
            && (o.Pass? <==> spec.Success?)
            && (o.Fail? ==> o.error == spec.error)
            && (o.Pass? ==> vertexBuffer[..] == spec.value)
            && (o.Pass? ==> numberOfVertices == SumVertices(walk) && numberOfIndices == SumIndices(walk))
            && (o.Pass? ==> indexBuffer[..] == Write(old(indexBuffer[..]), 0, IndicesFrom(walk, 0)))
  {
    ghost var walk := Referenced(scene, MeshRefs(scene.root));
    assert walk + [] == walk;
    ghost var spec := BonesFrom(ctx, skeleton.boneIds[..], vertexBuffer[..], 0, walk);
    ghost var goal := Write(indexBuffer[..], 0, IndicesFrom(walk, 0));
    o, numberOfVertices, numberOfIndices := FillNode(ctx, skeleton, scene, scene.root, 0, 0, vertexBuffer, indexBuffer, [], spec, goal);
    if o.Pass? {
      assert Write(indexBuffer[..], numberOfIndices, IndicesFrom([], numberOfVertices)) == indexBuffer[..];
    }
  }
}
