/** The skeleton of a skinned mesh: the bone hierarchy below the scene root,
    rolled up depth-first into a structure of arrays (parent index and bone
    ID per bone), with bones numbered in pre-order. */
module MeshSkeleton {
  import opened Wrappers
  import opened AssimpScene

  datatype SkeletonError =
    | BoneNameNotUnique(boneName: string)
    | MultipleRootBones
    | MultipleMd5RootBones

  const ROOT_NODE_NAME := "RootNode"
  const MD5_ROOT_NAME := "<MD5_Root>"
  const MD5_HIERARCHY_NAME := "<MD5_Hierarchy>"

  /** `sizeof(aiMatrix4x4)`: sixteen 32-bit floats. */
  const MATRIX_BYTES: nat := 64

  /** The element sizes of the four arrays of the skeleton block, in block
      order: parent indices, bone IDs, local matrices, offset matrices. */
  const ELEMENT_BYTES: seq<nat> := [1, 4, MATRIX_BYTES, MATRIX_BYTES]

  /** `getNumberOfSkeletonDataBytes`. */
  function SkeletonDataBytes(numberOfBones: u8): u32 {
    (1 + 4 + MATRIX_BYTES * 2) * numberOfBones
  }

  /** Where the constructor points array `k` of the block: the running sum of
      the sizes of the arrays before it. */
  function ArrayOffset(numberOfBones: nat, k: nat): nat
    requires k <= |ELEMENT_BYTES|
  {
    if k == 0 then 0 else ArrayOffset(numberOfBones, k - 1) + ELEMENT_BYTES[k - 1] * numberOfBones
  }

  /** The four arrays lie back to back, each as long as its element size times
      the number of bones, and together they fill exactly the block whose
      size `getNumberOfSkeletonDataBytes` reports. */
  lemma SkeletonBlockLayout(numberOfBones: u8)
    ensures ArrayOffset(numberOfBones, 0) == 0
    ensures ArrayOffset(numberOfBones, 1) == numberOfBones
    ensures ArrayOffset(numberOfBones, 2) == 5 * numberOfBones
    ensures ArrayOffset(numberOfBones, 3) == (5 + MATRIX_BYTES) * numberOfBones
    ensures ArrayOffset(numberOfBones, 4) == SkeletonDataBytes(numberOfBones)
  {
    assert ArrayOffset(numberOfBones, 4) == ArrayOffset(numberOfBones, 3) + MATRIX_BYTES * numberOfBones;
  }

  /** The index scan of `getBoneIndexByBoneId`, from slot `i` on. */
  function IndexFrom(ids: seq<u32>, id: u32, i: nat): nat
    requires i <= |ids|
    decreases |ids| - i
  {
    if i == |ids| then INVALID
    else if ids[i] == id then i
    else IndexFrom(ids, id, i + 1)
  }

  /** The index of `id` among `ids`, or the invalid value. */
  function BoneIndexByBoneId(ids: seq<u32>, id: u32): nat {
    IndexFrom(ids, id, 0)
  }

  lemma {:induction false} IndexFromMeaning(ids: seq<u32>, id: u32, i: nat)
    requires i <= |ids| < INVALID
    ensures var r := IndexFrom(ids, id, i);
            && (r == INVALID <==> forall j :: i <= j < |ids| ==> ids[j] != id)
            && (r != INVALID ==> i <= r < |ids| && ids[r] == id && forall j :: i <= j < r ==> ids[j] != id)
    decreases |ids| - i
  {
    if i < |ids| && ids[i] != id {
      IndexFromMeaning(ids, id, i + 1);
    }
  }

  /** The scan finds the first slot holding the ID, and the invalid value
      exactly when no slot holds it. */
  lemma BoneIndexByBoneIdMeaning(ids: seq<u32>, id: u32)
    requires |ids| < INVALID
    ensures var r := BoneIndexByBoneId(ids, id);
            && (r == INVALID <==> id !in ids)
            && (r != INVALID ==> r < |ids| && ids[r] == id && forall j :: 0 <= j < r ==> ids[j] != id)
  {
    IndexFromMeaning(ids, id, 0);
  }

  /** The parent indices `fillSkeletonRecursive` writes for the subtree of
      `n`, in the pre-order in which it numbers the nodes: `n` gets index
      `start` and parent `parentIndex`, then each child subtree in turn, its
      root having `start` as parent. */
  function ParentIndices(n: Node, parentIndex: nat, start: nat): (r: seq<nat>)
    ensures |r| == |PreOrder(n)|
    decreases n, 1
  {
    [parentIndex] + ChildParentIndices(n, 0, start, start + 1)
  }

  function ChildParentIndices(n: Node, i: nat, self: nat, at: nat): (r: seq<nat>)
    requires i <= |n.children|
    ensures |r| == |PreOrderChildren(n, i)|
    decreases n, 0, |n.children| - i
  {
    if i == |n.children| then []
    else ParentIndices(n.children[i], self, at) + ChildParentIndices(n, i + 1, self, at + |PreOrder(n.children[i])|)
  }

  /** Every node of a run after the first (node `k` has index `start + k`)
      has as parent an earlier node of the run that has it as a child. */
  predicate ParentsEarlier(parents: seq<nat>, nodes: seq<Node>, start: nat) {
    && |parents| == |nodes|
    && forall k {:trigger parents[k]} :: 0 < k < |parents| ==>
         start <= parents[k] < start + k && nodes[k] in nodes[parents[k] - start].children
  }

  /** Every node of a run of sibling subtrees starting at index `at` is one of
      the siblings, with parent `self`, or has as parent an earlier node of the
      run that has it as a child. */
  predicate ParentsInForest(parents: seq<nat>, nodes: seq<Node>, self: nat, children: seq<Node>, at: nat) {
    && |parents| == |nodes|
    && forall k {:trigger parents[k]} :: 0 <= k < |parents| ==>
         || (parents[k] == self && nodes[k] in children)
         || (at <= parents[k] < at + k && nodes[k] in nodes[parents[k] - at].children)
  }

  /** The numbering is a pre-order walk in which the first bone has the given
      parent and every other bone's parent is an earlier bone of the subtree
      whose node has it as a child. */
  lemma {:induction false} ParentIndicesShape(n: Node, parentIndex: nat, start: nat)
    ensures ParentIndices(n, parentIndex, start)[0] == parentIndex
    ensures ParentsEarlier(ParentIndices(n, parentIndex, start), PreOrder(n), start)
    decreases n, 1
  {
    ChildParentIndicesShape(n, 0, start, start + 1);
    EarlierFromForest(parentIndex, n, ChildParentIndices(n, 0, start, start + 1), PreOrderChildren(n, 0), start);
  }

  lemma {:induction false} ChildParentIndicesShape(n: Node, i: nat, self: nat, at: nat)
    requires i <= |n.children|
    ensures ParentsInForest(ChildParentIndices(n, i, self, at), PreOrderChildren(n, i), self, n.children, at)
    decreases n, 0, |n.children| - i
  {
    if i < |n.children| {
      var child := n.children[i];
      ParentIndicesShape(child, self, at);
      ChildParentIndicesShape(n, i + 1, self, at + |PreOrder(child)|);
      ForestFromSubtree(ParentIndices(child, self, at), PreOrder(child),
                        ChildParentIndices(n, i + 1, self, at + |PreOrder(child)|), PreOrderChildren(n, i + 1),
                        self, n.children, at);
    }
  }

  /** A node followed by its children's subtrees: those subtrees' roots have
      the node as parent. */
  lemma EarlierFromForest(parentIndex: nat, n: Node, cs: seq<nat>, cn: seq<Node>, start: nat)
    requires ParentsInForest(cs, cn, start, n.children, start + 1)
    ensures ParentsEarlier([parentIndex] + cs, [n] + cn, start)
  {
    var ps := [parentIndex] + cs;
    var nodes := [n] + cn;
    forall k | 0 < k < |ps|
      ensures start <= ps[k] < start + k && nodes[k] in nodes[ps[k] - start].children
    {
      var j := k - 1;
      assert ps[k] == cs[j] && nodes[k] == cn[j];
      InForestAt(cs, cn, start, n.children, start + 1, j);
    }
  }

  /** One sibling subtree followed by the rest of the siblings. */
  lemma ForestFromSubtree(g: seq<nat>, gn: seq<Node>, h: seq<nat>, hn: seq<Node>, self: nat, children: seq<Node>, at: nat)
    requires 0 < |g| && g[0] == self && ParentsEarlier(g, gn, at) && gn[0] in children
    requires ParentsInForest(h, hn, self, children, at + |g|)
    ensures ParentsInForest(g + h, gn + hn, self, children, at)
  {
    var ps := g + h;
    var nodes := gn + hn;
    forall k | 0 <= k < |ps|
      ensures || (ps[k] == self && nodes[k] in children)
              || (at <= ps[k] < at + k && nodes[k] in nodes[ps[k] - at].children)
    {
      if k == 0 {
      } else if k < |g| {
        EarlierAt(g, gn, at, k);
      } else {
        InForestAt(h, hn, self, children, at + |g|, k - |g|);
      }
    }
  }

  lemma EarlierAt(parents: seq<nat>, nodes: seq<Node>, start: nat, k: nat)
    requires ParentsEarlier(parents, nodes, start) && 0 < k < |parents|
    ensures start <= parents[k] < start + k && nodes[k] in nodes[parents[k] - start].children
  {
  }

  lemma InForestAt(parents: seq<nat>, nodes: seq<Node>, self: nat, children: seq<Node>, at: nat, k: nat)
    requires ParentsInForest(parents, nodes, self, children, at) && 0 <= k < |parents|
    ensures || (parents[k] == self && nodes[k] in children)
            || (at <= parents[k] < at + k && nodes[k] in nodes[parents[k] - at].children)
  {
  }

  /** The filled part of the skeleton's arrays. */
  datatype BoneTable = BoneTable(parentIndices: seq<nat>, ids: seq<u32>)

  /** What the recursive fill writes for a run of nodes with their parent
      indices, in order: each node's bone ID is looked up among the bones
      filled so far and throws if found, otherwise the bone is appended. */
  function FillBones(boneId: string -> u32, t: BoneTable, parents: seq<nat>, nodes: seq<Node>): Result<BoneTable, SkeletonError>
    requires |parents| == |nodes|
    decreases |nodes|
  {
    if |nodes| == 0 then Success(t)
    else
      var id := boneId(nodes[0].name);
      if id in t.ids then Failure(BoneNameNotUnique(nodes[0].name))
      else FillBones(boneId, BoneTable(t.parentIndices + [parents[0]], t.ids + [id]), parents[1..], nodes[1..])
  }

  /** Filling two runs one after the other is filling their concatenation. */
  lemma {:induction false} FillBonesAppend(boneId: string -> u32, t: BoneTable, ps: seq<nat>, xs: seq<Node>, qs: seq<nat>, ys: seq<Node>)
    requires |ps| == |xs| && |qs| == |ys|
    ensures FillBones(boneId, t, ps + qs, xs + ys) ==
              if FillBones(boneId, t, ps, xs).Success? then FillBones(boneId, FillBones(boneId, t, ps, xs).value, qs, ys)
              else FillBones(boneId, t, ps, xs)
    decreases |xs|
  {
    if |xs| > 0 {
      assert (ps + qs)[0] == ps[0] && (xs + ys)[0] == xs[0];
      assert (ps + qs)[1..] == ps[1..] + qs && (xs + ys)[1..] == xs[1..] + ys;
      var id := boneId(xs[0].name);
      if id !in t.ids {
        FillBonesAppend(boneId, BoneTable(t.parentIndices + [ps[0]], t.ids + [id]), ps[1..], xs[1..], qs, ys);
      }
    } else {
      assert ps + qs == qs && xs + ys == ys;
    }
  }

  /** Filling the subtrees of the children from child `i` on is filling
      child `i`'s subtree and then the rest. */
  lemma FillChildrenStep(boneId: string -> u32, t: BoneTable, n: Node, i: nat, self: nat, at: nat)
    requires i < |n.children|
    ensures var child := n.children[i];
            var first := FillBones(boneId, t, ParentIndices(child, self, at), PreOrder(child));
            var all := FillBones(boneId, t, ChildParentIndices(n, i, self, at), PreOrderChildren(n, i));
            && |PreOrderChildren(n, i)| == |PreOrder(child)| + |PreOrderChildren(n, i + 1)|
            && (first.Failure? ==> all == first)
            && (first.Success? ==>
                  all == FillBones(boneId, first.value, ChildParentIndices(n, i + 1, self, at + |PreOrder(child)|), PreOrderChildren(n, i + 1)))
  {
    var child := n.children[i];
    FillBonesAppend(boneId, t, ParentIndices(child, self, at), PreOrder(child),
                    ChildParentIndices(n, i + 1, self, at + |PreOrder(child)|), PreOrderChildren(n, i + 1));
  }

  predicate Distinct(ids: seq<u32>) {
    forall i, j :: 0 <= i < j < |ids| ==> ids[i] != ids[j]
  }

  /** The bone IDs of the names of a run of nodes. */
  function NodeIds(boneId: string -> u32, nodes: seq<Node>): (r: seq<u32>)
    ensures |r| == |nodes|
  {
    if |nodes| == 0 then [] else [boneId(nodes[0].name)] + NodeIds(boneId, nodes[1..])
  }

  /** Bone ID `k` is the ID of node `k`'s name. */
  lemma {:induction false} NodeIdsAt(boneId: string -> u32, nodes: seq<Node>)
    ensures forall k :: 0 <= k < |nodes| ==> NodeIds(boneId, nodes)[k] == boneId(nodes[k].name)
    decreases |nodes|
  {
    if |nodes| > 0 {
      NodeIdsAt(boneId, nodes[1..]);
      forall k | 0 < k < |nodes|
        ensures NodeIds(boneId, nodes)[k] == boneId(nodes[k].name)
      {
        assert nodes[k] == nodes[1..][k - 1];
      }
    }
  }

  /** A successful fill appends one bone per node, in order, with its parent
      index and the ID of its name. */
  lemma {:induction false} FillBonesShape(boneId: string -> u32, t: BoneTable, parents: seq<nat>, nodes: seq<Node>)
    requires |parents| == |nodes| && FillBones(boneId, t, parents, nodes).Success?
    ensures FillBones(boneId, t, parents, nodes).value == BoneTable(t.parentIndices + parents, t.ids + NodeIds(boneId, nodes))
    decreases |nodes|
  {
    if |nodes| > 0 {
      var id := boneId(nodes[0].name);
      FillBonesShape(boneId, BoneTable(t.parentIndices + [parents[0]], t.ids + [id]), parents[1..], nodes[1..]);
      assert t.parentIndices + [parents[0]] + parents[1..] == t.parentIndices + parents;
      assert t.ids + [id] + NodeIds(boneId, nodes[1..]) == t.ids + NodeIds(boneId, nodes);
    } else {
      assert t.parentIndices + parents == t.parentIndices && t.ids + NodeIds(boneId, nodes) == t.ids;
    }
  }

  /** Appending an ID not yet present keeps the IDs distinct. */
  lemma DistinctSnoc(ids: seq<u32>, id: u32)
    requires Distinct(ids) && id !in ids
    ensures Distinct(ids + [id])
  {
  }

  /** The IDs of a non-empty run: the first node's, then the rest's. */
  lemma IdsStep(boneId: string -> u32, prefix: seq<u32>, nodes: seq<Node>)
    requires |nodes| > 0
    ensures prefix + NodeIds(boneId, nodes) == (prefix + [boneId(nodes[0].name)]) + NodeIds(boneId, nodes[1..])
  {
  }

  /** Starting from distinct IDs, the fill succeeds exactly when all IDs stay
      distinct. */
  lemma {:induction false} FillBonesSucceeds(boneId: string -> u32, t: BoneTable, parents: seq<nat>, nodes: seq<Node>)
    requires |parents| == |nodes| && Distinct(t.ids)
    ensures FillBones(boneId, t, parents, nodes).Success? <==> Distinct(t.ids + NodeIds(boneId, nodes))
    decreases |nodes|
  {
    var ids := t.ids + NodeIds(boneId, nodes);
    if |nodes| == 0 {
      assert ids == t.ids;
    } else {
      var id := boneId(nodes[0].name);
      assert ids[|t.ids|] == id;
      if id in t.ids {
        var i :| 0 <= i < |t.ids| && t.ids[i] == id;
        assert ids[i] == ids[|t.ids|];
      } else {
        var ids' := t.ids + [id];
        DistinctSnoc(t.ids, id);
        IdsStep(boneId, t.ids, nodes);
        FillBonesSucceeds(boneId, BoneTable(t.parentIndices + [parents[0]], ids'), parents[1..], nodes[1..]);
      }
    }
  }

  /** ID `k` repeats an earlier one, and the IDs before it are distinct: the
      first repetition of the sequence. */
  predicate FirstRepeatAt(ids: seq<u32>, k: nat)
    requires k < |ids|
  {
    ids[k] in ids[..k] && Distinct(ids[..k])
  }

  /** A failing fill names the node that would have become bone `m`, the
      first bone whose ID an earlier bone already has. */
  lemma {:induction false} FillBonesFailure(boneId: string -> u32, t: BoneTable, parents: seq<nat>, nodes: seq<Node>)
    requires |parents| == |nodes| && Distinct(t.ids) && FillBones(boneId, t, parents, nodes).Failure?
    ensures exists m :: |t.ids| <= m < |t.ids| + |nodes| &&
                        FillBones(boneId, t, parents, nodes).error == BoneNameNotUnique(nodes[m - |t.ids|].name) &&
                        FirstRepeatAt(t.ids + NodeIds(boneId, nodes), m)
    decreases |nodes|
  {
    var ids := t.ids + NodeIds(boneId, nodes);
    var id := boneId(nodes[0].name);
    if id in t.ids {
      assert ids[|t.ids|] == id && ids[..|t.ids|] == t.ids;
      assert FirstRepeatAt(ids, |t.ids|);
    } else {
      var t' := BoneTable(t.parentIndices + [parents[0]], t.ids + [id]);
      var rest := nodes[1..];
      assert FillBones(boneId, t, parents, nodes) == FillBones(boneId, t', parents[1..], rest);
      DistinctSnoc(t.ids, id);
      IdsStep(boneId, t.ids, nodes);
      FillBonesFailure(boneId, t', parents[1..], rest);
      var m :| |t'.ids| <= m < |t'.ids| + |rest| &&
               FillBones(boneId, t', parents[1..], rest).error == BoneNameNotUnique(rest[m - |t'.ids|].name) &&
               FirstRepeatAt(t'.ids + NodeIds(boneId, rest), m);
      var j := m - |t'.ids|;
      assert |t'.ids| == |t.ids| + 1 && m - |t.ids| == j + 1;
      assert rest[j] == nodes[j + 1];
      assert ids == t'.ids + NodeIds(boneId, rest);
      assert FirstRepeatAt(ids, m);
      assert FillBones(boneId, t, parents, nodes).error == BoneNameNotUnique(nodes[m - |t.ids|].name);
    }
  }

  /** The bone hierarchy a scene root announces. */
  datatype Hierarchy =
    | NoHierarchy
    | SingleRootBone(bone: Node)
    | HierarchyError(error: SkeletonError)

  /** The first child from index `i` on with the given name. */
  function FirstChildNamed(children: seq<Node>, name: string, i: nat): (r: Option<nat>)
    requires i <= |children|
    ensures r.Some? ==> i <= r.value < |children| && children[r.value].name == name
    ensures r.None? ==> forall j :: i <= j < |children| ==> children[j].name != name
    decreases |children| - i
  {
    if i == |children| then None
    else if children[i].name == name then Some(i)
    else FirstChildNamed(children, name, i + 1)
  }

  /** The importers' conventions: an unnamed root (OGRE) has the root bone as
      its only child; a root named "RootNode" (FBX) gives no skeleton yet; an
      MD5 root holds the hierarchy under its first child named
      "<MD5_Hierarchy>", which must have a single child; any other root gives
      no skeleton. */
  function BoneHierarchy(root: Node): Hierarchy {
    if |root.name| == 0 then
      if |root.children| != 1 then HierarchyError(MultipleRootBones) else SingleRootBone(root.children[0])
    else if root.name == ROOT_NODE_NAME then NoHierarchy
    else if root.name == MD5_ROOT_NAME then
      match FirstChildNamed(root.children, MD5_HIERARCHY_NAME, 0)
      case None => NoHierarchy
      case Some(k) =>
        var h := root.children[k];
        if |h.children| != 1 then HierarchyError(MultipleMd5RootBones) else SingleRootBone(h.children[0])
    else NoHierarchy
  }

  /** The source relies on the bone count it is given being large enough for
      the hierarchy it fills. */
  predicate HierarchyFits(numberOfBones: nat, root: Node) {
    numberOfBones > 0 && BoneHierarchy(root).SingleRootBone? ==> |PreOrder(BoneHierarchy(root).bone)| <= numberOfBones
  }

  /** `t` over the first slots of `initial`. */
  function Overlay(t: BoneTable, initial: BoneTable): BoneTable {
    BoneTable(t.parentIndices + Drop(initial.parentIndices, |t.parentIndices|), t.ids + Drop(initial.ids, |t.ids|))
  }

  /** Two sequences of one length that agree from `m` on: the first is its
      own prefix followed by the second's suffix. */
  lemma Splice<T>(a: seq<T>, b: seq<T>, m: nat)
    requires |a| == |b| && m <= |a|
    requires forall k :: m <= k < |a| ==> a[k] == b[k]
    ensures a == a[..m] + b[m..]
  {
  }

  /** `s` without its first `k` elements. */
  function Drop<T>(s: seq<T>, k: nat): seq<T> {
    if k <= |s| then s[k..] else []
  }

  /** All slots of the skeleton after construction, given what the freshly
      allocated block held: slots the hierarchy does not reach keep those
      contents. */
  function SkeletonContents(numberOfBones: nat, boneId: string -> u32, root: Node, initial: BoneTable): Result<BoneTable, SkeletonError> {
    if numberOfBones == 0 then Success(initial)
    else
      match BoneHierarchy(root)
      case NoHierarchy => Success(initial)
      case HierarchyError(e) => Failure(e)
      case SingleRootBone(b) =>
        var t :- FillBones(boneId, BoneTable([], []), ParentIndices(b, 0, 0), PreOrder(b));
        Success(Overlay(t, initial))
  }

  /** With a single root bone, the skeleton holds the hierarchy's bones in
      pre-order, each with the ID of its node's name and the parent indices
      of the numbering, and is built exactly when those IDs are distinct;
      slots past the hierarchy keep their contents. */
  lemma SkeletonContentsMeaning(numberOfBones: nat, boneId: string -> u32, root: Node, initial: BoneTable)
    requires numberOfBones > 0 && BoneHierarchy(root).SingleRootBone? && HierarchyFits(numberOfBones, root)
    requires |initial.parentIndices| == |initial.ids| == numberOfBones
    ensures var b := BoneHierarchy(root).bone;
            var r := SkeletonContents(numberOfBones, boneId, root, initial);
            && (r.Success? <==> Distinct(NodeIds(boneId, PreOrder(b))))
            && (r.Success? ==>
                  && r.value.ids == NodeIds(boneId, PreOrder(b)) + initial.ids[|PreOrder(b)|..]
                  && r.value.parentIndices == ParentIndices(b, 0, 0) + initial.parentIndices[|PreOrder(b)|..])
  {
    var b := BoneHierarchy(root).bone;
    var t := BoneTable([], []);
    FillBonesSucceeds(boneId, t, ParentIndices(b, 0, 0), PreOrder(b));
    assert [] + NodeIds(boneId, PreOrder(b)) == NodeIds(boneId, PreOrder(b));
    if FillBones(boneId, t, ParentIndices(b, 0, 0), PreOrder(b)).Success? {
      FillBonesShape(boneId, t, ParentIndices(b, 0, 0), PreOrder(b));
      assert [] + ParentIndices(b, 0, 0) == ParentIndices(b, 0, 0);
    }
  }

  /** The bone numbering of a single-root hierarchy: bone `k` is the `k`-th
      node of the pre-order walk and has the ID of its name, the root bone has
      parent 0, and every other bone has as parent an earlier bone whose node
      is its parent node. */
  lemma SkeletonNumbering(boneId: string -> u32, b: Node)
    ensures var bones := PreOrder(b);
            && (forall k :: 0 <= k < |bones| ==> NodeIds(boneId, bones)[k] == boneId(bones[k].name))
            && ParentIndices(b, 0, 0)[0] == 0
            && ParentsEarlier(ParentIndices(b, 0, 0), bones, 0)
  {
    ParentIndicesShape(b, 0, 0);
    NodeIdsAt(boneId, PreOrder(b));
  }

  /** The as-written duplicate test of `fillSkeletonRecursive`: the scan of
      `getBoneIndexByBoneId` over all slots of the block, filled or not. */
  predicate DuplicateAsWritten(slots: seq<u32>, id: u32) {
    BoneIndexByBoneId(slots, id) != INVALID
  }

  /** The intended test, the one `FillBones` makes: the ID among the bones
      filled so far. */
  predicate Duplicate(slots: seq<u32>, filled: nat, id: u32)
    requires filled <= |slots|
  {
    BoneIndexByBoneId(slots[..filled], id) != INVALID
  }

  /** An uninitialised slot that happens to hold the ID makes the as-written
      test reject a bone whose name is unique: filling the first bone of a
      two-bone skeleton whose second slot holds the same ID. */
  lemma DuplicateAsWrittenRejectsUniqueBone()
    ensures DuplicateAsWritten([7, 9], 9)
    ensures !Duplicate([7, 9], 0, 9)
  {
    assert BoneIndexByBoneId([7, 9], 9) == 1;
  }

  /** The intended test holds exactly when some filled slot holds the ID. */
  lemma DuplicateMeaning(slots: seq<u32>, filled: nat, id: u32)
    requires filled <= |slots| < INVALID
    ensures Duplicate(slots, filled, id) <==> exists k :: 0 <= k < filled && slots[k] == id
  {
    BoneIndexByBoneIdMeaning(slots[..filled], id);
    if exists k :: 0 <= k < filled && slots[k] == id {
      var k :| 0 <= k < filled && slots[k] == id;
      assert slots[..filled][k] == id;
    }
  }

  class Skeleton {
    const numberOfBones: u8
    const boneParentIndices: array<u8>
    const boneIds: array<u32>

    ghost predicate Valid() {
      boneParentIndices.Length == numberOfBones && boneIds.Length == numberOfBones
    }

    /** The filled part of the arrays, up to `count`. */
    function Table(count: nat): BoneTable
      requires Valid() && count <= numberOfBones
      reads boneParentIndices, boneIds
    {
      BoneTable(boneParentIndices[..count], boneIds[..count])
    }

    /** Allocates the block; `new[]` leaves its contents unspecified, and the
        model takes them as the given functions of the slot index. */
    constructor (n: u8, uninitialisedParentIndex: nat -> u8, uninitialisedBoneId: nat -> u32)
      ensures numberOfBones == n && Valid() && fresh(boneParentIndices) && fresh(boneIds)
      ensures forall i :: 0 <= i < n ==> boneParentIndices[i] == uninitialisedParentIndex(i) && boneIds[i] == uninitialisedBoneId(i)
    {
      numberOfBones := n;
      boneParentIndices := new u8[n](i => uninitialisedParentIndex(i));
      boneIds := new u32[n](i => uninitialisedBoneId(i));
    }

    /** `getBoneIndexByBoneId`, scanning the first `count` slots. */
    method GetBoneIndexByBoneId(boneId: u32, count: nat) returns (r: u32)
      requires Valid() && count <= numberOfBones
      ensures r == BoneIndexByBoneId(boneIds[..count], boneId)
    {
      var i := 0;
      while i < count
        invariant 0 <= i <= count
        invariant IndexFrom(boneIds[..count], boneId, i) == BoneIndexByBoneId(boneIds[..count], boneId)
      {
        if boneIds[i] == boneId {
          return i;
        }
        i := i + 1;
      }
      return INVALID;
    }

    /** `fillSkeletonRecursive`: fills the subtree of `node` from slot
        `currentBoneIndex` on and returns the slot after it. Slots outside the
        subtree's range are left alone. */
    method FillSkeletonRecursive(boneId: string -> u32, node: Node, parentBoneIndex: nat, currentBoneIndex: nat) returns (r: Result<nat, SkeletonError>)
      requires Valid() && parentBoneIndex < 256
      requires currentBoneIndex + |PreOrder(node)| <= numberOfBones
      modifies boneParentIndices, boneIds
      ensures var spec := FillBones(boneId, old(Table(currentBoneIndex)), ParentIndices(node, parentBoneIndex, currentBoneIndex), PreOrder(node));
              && (r.Success? <==> spec.Success?)
              && (r.Failure? ==> r.error == spec.error)
              && (r.Success? ==> r.value == currentBoneIndex + |PreOrder(node)| && Table(r.value) == spec.value)
      ensures forall k :: 0 <= k < currentBoneIndex || currentBoneIndex + |PreOrder(node)| <= k < numberOfBones ==>
                boneParentIndices[k] == old(boneParentIndices[k]) && boneIds[k] == old(boneIds[k])
      decreases node, 1
    {
      var id := boneId(node.name);
      var found := GetBoneIndexByBoneId(id, currentBoneIndex);
      BoneIndexByBoneIdMeaning(boneIds[..currentBoneIndex], id);
      if found != INVALID {
        return Failure(BoneNameNotUnique(node.name));
      }
      ghost var before := Table(currentBoneIndex);
      boneParentIndices[currentBoneIndex] := parentBoneIndex;
      boneIds[currentBoneIndex] := id;
      assert Table(currentBoneIndex + 1) == BoneTable(before.parentIndices + [parentBoneIndex], before.ids + [id]);
      r := FillChildren(boneId, node, currentBoneIndex);
    }

    /** The loop of `fillSkeletonRecursive` over the children of `node`, whose
        own bone is in slot `parent`: each child subtree is filled right after
        the previous one. */
    method FillChildren(boneId: string -> u32, node: Node, parent: nat) returns (r: Result<nat, SkeletonError>)
      requires Valid() && parent < 256
      requires parent + |PreOrder(node)| <= numberOfBones
      modifies boneParentIndices, boneIds
      ensures var spec := FillBones(boneId, old(Table(parent + 1)), ChildParentIndices(node, 0, parent, parent + 1), PreOrderChildren(node, 0));
              && (r.Success? <==> spec.Success?)
              && (r.Failure? ==> r.error == spec.error)
              && (r.Success? ==> r.value == parent + |PreOrder(node)| && Table(r.value) == spec.value)
      ensures forall k :: 0 <= k <= parent || parent + |PreOrder(node)| <= k < numberOfBones ==>
                boneParentIndices[k] == old(boneParentIndices[k]) && boneIds[k] == old(boneIds[k])
      decreases node, 0, |node.children| + 1
    {
      ghost var spec := FillBones(boneId, Table(parent + 1), ChildParentIndices(node, 0, parent, parent + 1), PreOrderChildren(node, 0));
      ghost var end := parent + |PreOrder(node)|;
      var current: nat := parent + 1;
      var i := 0;
      while i < |node.children|
        invariant 0 <= i <= |node.children|
        invariant parent < current && current + |PreOrderChildren(node, i)| == end
        invariant spec == FillBones(boneId, Table(current), ChildParentIndices(node, i, parent, current), PreOrderChildren(node, i))
        invariant forall k :: 0 <= k <= parent || end <= k < numberOfBones ==>
                    boneParentIndices[k] == old(boneParentIndices[k]) && boneIds[k] == old(boneIds[k])
      {
        var rc := FillChild(boneId, node, i, parent, current);
        if rc.Failure? {
          return Failure(rc.error);
        }
        current := rc.value;
        i := i + 1;
      }
      return Success(current);
    }

    /** One iteration of the loop over the children: fills the subtree of
        child `i` from slot `current` on. */
    method FillChild(boneId: string -> u32, node: Node, i: nat, parent: nat, current: nat) returns (r: Result<nat, SkeletonError>)
      requires Valid() && i < |node.children| && parent < current
      requires current + |PreOrderChildren(node, i)| <= numberOfBones
      modifies boneParentIndices, boneIds
      ensures var spec := FillBones(boneId, old(Table(current)), ChildParentIndices(node, i, parent, current), PreOrderChildren(node, i));
              && (r.Failure? ==> spec.Failure? && r.error == spec.error)
              && (r.Success? ==>
                    && r.value == current + |PreOrder(node.children[i])|
                    && spec == FillBones(boneId, Table(r.value), ChildParentIndices(node, i + 1, parent, r.value), PreOrderChildren(node, i + 1)))
      ensures forall k :: 0 <= k < current || current + |PreOrder(node.children[i])| <= k < numberOfBones ==>
                boneParentIndices[k] == old(boneParentIndices[k]) && boneIds[k] == old(boneIds[k])
      decreases node, 0, |node.children| - i
    {
      var child := node.children[i];
      ghost var t := Table(current);
      FillChildrenStep(boneId, t, node, i, parent, current);
      r := FillSkeletonRecursive(boneId, child, parent, current);
    }

    /** The filling part of the `Skeleton` constructor: nothing for an empty
        skeleton, otherwise the hierarchy the root announces, from slot 0 with
        parent 0. */
    method FillFromRoot(boneId: string -> u32, root: Node) returns (o: Outcome<SkeletonError>)
      requires Valid() && HierarchyFits(numberOfBones, root)
      modifies boneParentIndices, boneIds
      ensures var spec := SkeletonContents(numberOfBones, boneId, root, old(Table(numberOfBones)));
              && (o.Pass? <==> spec.Success?)
              && (o.Fail? ==> o.error == spec.error)
              && (o.Pass? ==> Table(numberOfBones) == spec.value)
    {
      if numberOfBones == 0 {
        return Pass;
      }
      if |root.name| == 0 {
        if |root.children| != 1 {
          return Fail(MultipleRootBones);
        }
        o := FillSingleRootBone(boneId, root.children[0]);
      } else if root.name == ROOT_NODE_NAME {
        o := Pass;
      } else if root.name == MD5_ROOT_NAME {
        var i := 0;
        while i < |root.children|
          invariant 0 <= i <= |root.children|
          invariant FirstChildNamed(root.children, MD5_HIERARCHY_NAME, 0) == FirstChildNamed(root.children, MD5_HIERARCHY_NAME, i)
          invariant unchanged(boneParentIndices, boneIds)
        {
          var child := root.children[i];
          if child.name == MD5_HIERARCHY_NAME {
            if |child.children| != 1 {
              return Fail(MultipleMd5RootBones);
            }
            o := FillSingleRootBone(boneId, child.children[0]);
            return;
          }
          i := i + 1;
        }
        o := Pass;
      } else {
        o := Pass;
      }
    }

    /** Fills the hierarchy below a single root bone. */
    method FillSingleRootBone(boneId: string -> u32, bone: Node) returns (o: Outcome<SkeletonError>)
      requires Valid() && 0 < |PreOrder(bone)| <= numberOfBones
      modifies boneParentIndices, boneIds
      ensures var spec := FillBones(boneId, BoneTable([], []), ParentIndices(bone, 0, 0), PreOrder(bone));
              && (o.Pass? <==> spec.Success?)
              && (o.Fail? ==> o.error == spec.error)
              && (o.Pass? ==> Table(numberOfBones) == Overlay(spec.value, old(Table(numberOfBones))))
    {
      ghost var initial := Table(numberOfBones);
      assert Table(0) == BoneTable([], []);
      var r := FillSkeletonRecursive(boneId, bone, 0, 0);
      if r.Failure? {
        return Fail(r.error);
      }
      Splice(boneIds[..numberOfBones], initial.ids, r.value);
      Splice(boneParentIndices[..numberOfBones], initial.parentIndices, r.value);
      assert boneIds[..numberOfBones][..r.value] == boneIds[..r.value];
      assert boneParentIndices[..numberOfBones][..r.value] == boneParentIndices[..r.value];
      o := Pass;
    }
  }
}
