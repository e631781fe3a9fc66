# unrimp asset compilers and example runner, modelled in Dafny

This project models the discrete logic of three parts of the unrimp renderer:

- **The scene asset compiler.** It walks a parsed scene document once: a list of nodes, each holding an ordered map from item-type name to item fields. It appends a flat record stream to a memory file: the scene header, the node count, then for every node its node record and, per item, an item header followed by the item's payload.
  - The size of each payload is computed in a first pass and written into the item header. The payload is written in a second pass.
  - Light items are read and checked against the sanity rules. Material items name exactly one of a material and a material blueprint and carry their sorted property-override vector, with overrides marked as overwritten.
  - Mesh items carry their sub-mesh material slots.
  - The result is written compressed, and the cache entries are stored only after that write has succeeded.
- **The mesh asset compiler**, without the geometry:
  - the skeleton, which holds the bone hierarchy flattened depth-first into parallel arrays, and the bone lookup by ID;
  - the material name map;
  - the counting pass, which builds contiguous sub-mesh index ranges;
  - the filling pass, which writes indices offset by each mesh's start vertex and gives every vertex up to four (bone index, weight) slots;
  - the limit checks, the index format and the narrowing of indices to 16 bits;
  - the header and the output file name.
- **The examples launcher.** This covers the registry of examples and renderers a build registers, the command line (`<exampleName> [-r <rendererName>]`), the check that selects the example to launch, and the run loop that launches examples and switches between them when the running example asks.

How things are modelled:

- The JSON document is an ordered list of members. Asset-ID resolution, string IDs and the JSON helper readers are function values in a context record. The `sizeof` of each record type is an abstract positive constant.
- The Assimp scene is a recursive node datatype over lists of meshes and materials.
- Each loop and each recursion that updates state in the source is a method. It is proved against a function of its inputs, and the lemmas state the promised properties about that function.
- The memory file, the file store, the cache manager, the skeleton and the runner are classes whose methods update their fields.

Where the design description of the scene compiler differs from the code, the model follows the code:

- The override vector does not reject a document that gives both `Material` and `MaterialBlueprint`. `Material` takes precedence there, and the conflict is reported only afterwards, by the material item reader.
- A failed compressed write is reported as an error, and nothing is said about a partial file. The model's file store is left unchanged on failure.

There is one exception: the three defects listed under "## Findings". Each is modelled twice, as written and corrected. The scene compile, the mesh compile and the runner's registry use the corrected version, and every member built on them inherits it. "## Left out" has a line for each such member that has a row in the model table.

- Light type names are compared with `strncmp` over the value's own length, so any prefix of a name is accepted. The design description asks for exact names (Finding 1).
- The bone uniqueness test of the skeleton also scans slots not yet filled (Finding 2).
- The example runner's default example can be one the build never registers (Finding 3).

A document string that the source copies into a `std::string`, or hashes with `StringId`, ends at its first NUL. The model cuts each such string with `Json.CString`: the scene item type names, the `SetMaterialProperties` names, the sub-mesh material strings, and the material mapping entries of the mesh compiler. Strings passed on to helpers outside the model, such as asset-ID resolution and `optionalStringIdProperty`, are handed over whole. Those helpers are function values.

## Model

| member | source | states |
|---|---|---|
| Json.CString | Source/RendererToolkit/Private/AssetCompiler/SceneAssetCompiler.cpp:93 | `std::string` of a C string is its prefix up to the first NUL, and has no NUL |
| SceneItems.StrNEqualIsPrefix | Source/RendererToolkit/Private/AssetCompiler/SceneAssetCompiler.cpp:84-85 | `strncmp` over the value's own length reports equality exactly when the value is a prefix of the constant name |
| SceneItems.LightTypeAsWrittenAcceptsPrefixes | Source/RendererToolkit/Private/AssetCompiler/SceneAssetCompiler.cpp:75-100 | as written, a present value yields the first of DIRECTIONAL, POINT, SPOT that it is a prefix of. It fails, naming the value, when it is a prefix of none |
| SceneItems.LightTypeAsWrittenAcceptsAbbreviations | Source/RendererToolkit/Private/AssetCompiler/SceneAssetCompiler.cpp:84-90 | as written, "" is read as DIRECTIONAL and "P" as POINT |
| SceneItems.LightTypeNamesExact | Source/RendererToolkit/Private/AssetCompiler/SceneAssetCompiler.cpp:75-100 | an absent property keeps the current type. Each of the three names yields its type, and every other string fails with an error naming it. On the three names the result agrees with the as-written reader |
| SceneItems.LightSanityChecks | Source/RendererToolkit/Private/AssetCompiler/SceneAssetCompiler.cpp:345-376 | a light passes exactly when all colour components are ≥ 0, the radius is 0 iff the light is directional and > 0 otherwise, 0 ≤ inner < outer < radians(90), the near clip distance is ≥ 0, and an IES profile index ≥ 0 comes without either angle property. A radius of the wrong kind gets the error of its own check |
| SceneItems.ReadLightItemChecked | Source/RendererToolkit/Private/AssetCompiler/SceneAssetCompiler.cpp:331-381 | a light item is accepted exactly when its properties read and pass the checks. It is then the light that was read, with the angle and radius invariants |
| SceneItems.DefinedIdsOfNames | Source/RendererToolkit/Private/AssetCompiler/SceneAssetCompiler.cpp:124-127 | the collected IDs are exactly the string IDs of the `SetMaterialProperties` member names, each cut at its first NUL |
| SceneItems.CollectDefinedMaterialPropertyIds | Source/RendererToolkit/Private/AssetCompiler/SceneAssetCompiler.cpp:121-127 | the loop collects the ID of every member name, cut at its first NUL, and nothing else |
| SceneItems.MarkOverwrittenFlags | Source/RendererToolkit/Private/AssetCompiler/SceneAssetCompiler.cpp:129-137 | marking keeps length, order, IDs and values. A property ends up overwritten iff it already was or its ID was defined |
| SceneItems.MarkOverwrittenInPlace | Source/RendererToolkit/Private/AssetCompiler/SceneAssetCompiler.cpp:130-137 | the in-place loop over the array leaves exactly the marked vector |
| SceneItems.SortedMaterialPropertiesMeaning | Source/RendererToolkit/Private/AssetCompiler/SceneAssetCompiler.cpp:102-140 | without `SetMaterialProperties` the vector is empty. Otherwise it is the read vector in the same order and length, each property overwritten iff it was already or its ID is a key of `SetMaterialProperties`; unmatched keys are ignored |
| SceneItems.FillSortedMaterialPropertyVector | Source/RendererToolkit/Private/AssetCompiler/SceneAssetCompiler.cpp:102-140 | the method (helper fill, value reader, in-place marking) computes the specified vector, `Material` taking precedence over `MaterialBlueprint` |
| SceneItems.MaterialSceneItemMeaning | Source/RendererToolkit/Private/AssetCompiler/SceneAssetCompiler.cpp:142-167 | success iff exactly one of material and blueprint ID is valid, with the error that says which way it failed. An invalid technique becomes the default technique, and the property count is the vector's size |
| SceneItems.SubMeshMaterialSlots | Source/RendererToolkit/Private/AssetCompiler/SceneAssetCompiler.cpp:421-435 | one slot per `SubMeshMaterials` entry, in order |
| SceneItems.SubMeshMaterialSlotMeaning | Source/RendererToolkit/Private/AssetCompiler/SceneAssetCompiler.cpp:431-432 | a slot is the invalid ID exactly for an empty string or one starting with NUL. Otherwise it is the resolved ID of the string up to its first NUL |
| SceneItems.ReadSubMeshMaterialAssetIds | Source/RendererToolkit/Private/AssetCompiler/SceneAssetCompiler.cpp:421-435 | the loop gives one slot per entry. An entry that is empty, or starts with NUL, gets the invalid ID; any other gets the resolved ID of its string up to the first NUL |
| SceneCompiler.KindOfTypeId | Source/RendererToolkit/Private/AssetCompiler/SceneAssetCompiler.cpp:275-313 | with distinct case labels every kind is found by its type ID, and exactly the IDs outside the table are unknown |
| SceneCompiler.ItemSelectedByClassName | Source/RendererToolkit/Private/AssetCompiler/SceneAssetCompiler.cpp:269-313 | for each of the ten scene item classes, a member named after the class compiles as that kind of item |
| SceneCompiler.PayloadMatchesDeclaredBytes | Source/RendererToolkit/Private/AssetCompiler/SceneAssetCompiler.cpp:273-520 | the size the first switch puts in the header equals the bytes of the payload the second switch appends. The payload is self-delimiting, and only a camera has size 0 |
| SceneCompiler.MeshPayloadBytes | Source/RendererToolkit/Private/AssetCompiler/SceneAssetCompiler.cpp:289-298 | a mesh payload is `MeshItem + n * AssetId` for n sub-mesh materials, plus `SkeletonMeshItem` for a skeleton mesh |
| SceneCompiler.MeshRecordsBytes | Source/RendererToolkit/Private/AssetCompiler/SceneAssetCompiler.cpp:403-443 | the skeleton record, the mesh record and the ID trailer, in that order, add up to their sizes |
| SceneCompiler.MaterialPayloadBytes | Source/RendererToolkit/Private/AssetCompiler/SceneAssetCompiler.cpp:301-308 | a material payload is `MaterialItem + k * MaterialProperty` for k properties |
| SceneCompiler.CompiledItemShape | Source/RendererToolkit/Private/AssetCompiler/SceneAssetCompiler.cpp:266-520 | a compiled item has the string ID of its member name, cut at its first NUL, and a known kind. Its payload is empty iff it is a camera; a light's is one checked light record; a material kind's names exactly one of material and blueprint |
| SceneCompiler.CompiledItemsShape | Source/RendererToolkit/Private/AssetCompiler/SceneAssetCompiler.cpp:264-313 | one compiled item per item member, in declaration order, each of known kind |
| SceneCompiler.CompiledNodeShape | Source/RendererToolkit/Private/AssetCompiler/SceneAssetCompiler.cpp:240-266 | a compiled node has the node's transform, `numberOfItems` equal to the item member count, and its items in order |
| SceneCompiler.CompiledNodesShape | Source/RendererToolkit/Private/AssetCompiler/SceneAssetCompiler.cpp:237-240 | one compiled node per document node, in order |
| SceneCompiler.CompiledSceneReadsBack | Source/RendererToolkit/Private/AssetCompiler/SceneAssetCompiler.cpp:215-261 | the written stream reads back, by the announced sizes alone, as every node in order. Each node keeps its item count and transform, and every item its type ID |
| SceneCompiler.RejectedScenes | Source/RendererToolkit/Private/AssetCompiler/SceneAssetCompiler.cpp:225-229 | no nodes gives the no-nodes error, and an unknown item type anywhere rejects the scene. Any failure is the error of some node |
| SceneCompiler.NodeScaleDefaultsToOne | Source/RendererToolkit/Private/AssetCompiler/SceneAssetCompiler.cpp:247-256 | a node without `Properties` or without `Scale` has unit scale |
| SceneFormat.SceneRoundTrip | Source/RendererToolkit/Private/AssetCompiler/SceneAssetCompiler.cpp:215-323 | the loader recovers every node record and every item, type and payload, from a scene stream of well-formed nodes |
| SceneCompiler.MemoryFile.Write | Source/RendererToolkit/Private/AssetCompiler/SceneAssetCompiler.cpp:218 | a write appends one record to the memory file |
| SceneCompiler.SizeItem | Source/RendererToolkit/Private/AssetCompiler/SceneAssetCompiler.cpp:273-313 | the first switch: the override vector (material kinds only) and the declared payload size |
| SceneCompiler.WriteMeshPayload | Source/RendererToolkit/Private/AssetCompiler/SceneAssetCompiler.cpp:399-445 | the mesh case appends the specified mesh payload, or fails as the specification does |
| SceneCompiler.WriteMaterialPayload | Source/RendererToolkit/Private/AssetCompiler/SceneAssetCompiler.cpp:447-520 | the material cases append the material item and, if there are any, the properties |
| SceneCompiler.WritePayload | Source/RendererToolkit/Private/AssetCompiler/SceneAssetCompiler.cpp:323-521 | the second switch appends the specified payload of the item's kind |
| SceneCompiler.WriteItem | Source/RendererToolkit/Private/AssetCompiler/SceneAssetCompiler.cpp:266-521 | one item appends its header and payload. An unknown type fails before anything is written |
| SceneCompiler.WriteItems | Source/RendererToolkit/Private/AssetCompiler/SceneAssetCompiler.cpp:264-522 | the item loop appends the items of a node in order, stopping at the first error |
| SceneCompiler.WriteNode | Source/RendererToolkit/Private/AssetCompiler/SceneAssetCompiler.cpp:240-523 | one node appends its node record, then its items |
| SceneCompiler.Compile | Source/RendererToolkit/Private/AssetCompiler/SceneAssetCompiler.cpp:208-527 | the memory file holds exactly the scene stream of the compiled scene, or the compile fails with the scene's error |
| SceneCompiler.FileStore.WriteCompressed | Source/RendererToolkit/Private/AssetCompiler/SceneAssetCompiler.cpp:530-533 | a successful write stores the records under the output name. A failed one changes nothing |
| SceneCompiler.CacheManager.StoreOrUpdateCacheEntries | Source/RendererToolkit/Private/AssetCompiler/SceneAssetCompiler.cpp:536 | the new entries are added to, or replace, the stored ones |
| SceneCompiler.CompileAsset | Source/RendererToolkit/Private/AssetCompiler/SceneAssetCompiler.cpp:186-537 | nothing happens unless compiling is needed. A failed compile or failed write leaves the files and the cache unchanged. Otherwise the scene is written under the asset's output file name, and only then are the cache entries stored |
| Paths.Stem | Source/RendererToolkit/Private/AssetCompiler/MeshAssetCompiler.cpp:671 | `path::stem` is a prefix of the last path component and has no '/' |
| Paths.OutputAssetFilename | Source/RendererToolkit/Private/AssetCompiler/SceneAssetCompiler.cpp:187-190 | the output name is the directory, '/', the stem and the extension, in that order |
| Paths.OutputInDirectory | Source/RendererToolkit/Private/AssetCompiler/SceneAssetCompiler.cpp:189 | the output file lands directly in the output directory whatever directories the asset name carries |
| Paths.StemDropsLastExtension | Source/RendererToolkit/Private/AssetCompiler/MeshAssetCompiler.cpp:671 | the stem of `dir/name.ext` is `name` |
| MeshCompiler.OutputFilenameOfAsset | Source/RendererToolkit/Private/AssetCompiler/MeshAssetCompiler.cpp:669-672 | the mesh compiled from `dir/name.ext` goes to `name.mesh` in the output directory |
| MeshSkeleton.SkeletonBlockLayout | Source/RendererToolkit/Private/AssetCompiler/MeshAssetCompiler.cpp:189-199 | parent indices, IDs, local matrices and offset matrices lie back to back. Together they fill exactly `(1 + 4 + 2 * 64) * numberOfBones` bytes, the size `getNumberOfSkeletonDataBytes` reports |
| MeshSkeleton.IndexFromMeaning | Source/RendererToolkit/Private/AssetCompiler/MeshAssetCompiler.cpp:262-269 | the scan from a slot on finds the first slot holding the ID, or the invalid value when none does |
| MeshSkeleton.BoneIndexByBoneIdMeaning | Source/RendererToolkit/Private/AssetCompiler/MeshAssetCompiler.cpp:259-270 | the result is the smallest index holding the ID, and the invalid value exactly when the ID is absent |
| MeshSkeleton.Skeleton.GetBoneIndexByBoneId | Source/RendererToolkit/Private/AssetCompiler/MeshAssetCompiler.cpp:259-270 | the loop over the slots computes that index |
| MeshSkeleton.ParentIndicesShape | Source/RendererToolkit/Private/AssetCompiler/MeshAssetCompiler.cpp:286-297 | the first bone of a subtree gets the given parent. Every other bone's parent is an earlier bone of the subtree whose node has it as a child |
| MeshSkeleton.SkeletonNumbering | Source/RendererToolkit/Private/AssetCompiler/MeshAssetCompiler.cpp:277-301 | bones are numbered in depth-first pre-order with the IDs of their names. The root bone has parent 0, and every other bone has an earlier bone as its parent |
| MeshSkeleton.FillBonesSucceeds | Source/RendererToolkit/Private/AssetCompiler/MeshAssetCompiler.cpp:277-301 | filling succeeds exactly when all bone IDs stay distinct |
| MeshSkeleton.FillBonesFailure | Source/RendererToolkit/Private/AssetCompiler/MeshAssetCompiler.cpp:280-284 | a failing fill names the first bone whose ID an earlier bone already has |
| MeshSkeleton.FirstChildNamed | Source/RendererToolkit/Private/AssetCompiler/MeshAssetCompiler.cpp:224-229 | the search finds the first child with the name, or reports that none has it |
| MeshSkeleton.SkeletonContentsMeaning | Source/RendererToolkit/Private/AssetCompiler/MeshAssetCompiler.cpp:201-240 | with a single root bone the skeleton is built iff the IDs are distinct. It then holds the pre-order IDs and parent indices, and slots past the hierarchy keep their contents |
| MeshSkeleton.DuplicateAsWrittenRejectsUniqueBone | Source/RendererToolkit/Private/AssetCompiler/MeshAssetCompiler.cpp:280-284 | as written, an unfilled slot holding the ID by chance makes a unique bone name count as a duplicate |
| MeshSkeleton.DuplicateMeaning | Source/RendererToolkit/Private/AssetCompiler/MeshAssetCompiler.cpp:280-284 | the corrected test holds exactly when a filled slot holds the ID |
| MeshSkeleton.Skeleton.constructor | Source/RendererToolkit/Private/AssetCompiler/MeshAssetCompiler.cpp:182-199 | allocates the arrays for `numberOfBones` bones, their contents unspecified |
| MeshSkeleton.Skeleton.FillSkeletonRecursive | Source/RendererToolkit/Private/AssetCompiler/MeshAssetCompiler.cpp:277-301 | fills the subtree's slots as specified and returns the start index plus the subtree size. It fails on a repeated ID and leaves the other slots alone |
| MeshSkeleton.Skeleton.FillChildren | Source/RendererToolkit/Private/AssetCompiler/MeshAssetCompiler.cpp:293-297 | each child subtree is filled right after the previous one |
| MeshSkeleton.Skeleton.FillSingleRootBone | Source/RendererToolkit/Private/AssetCompiler/MeshAssetCompiler.cpp:204-208 | the single root bone's hierarchy is filled from slot 0 with parent 0 |
| MeshSkeleton.Skeleton.FillFromRoot | Source/RendererToolkit/Private/AssetCompiler/MeshAssetCompiler.cpp:201-240 | the constructor's fill handles the OGRE, FBX and MD5 conventions and leaves the arrays as specified |
| MeshMaterials.MaterialNameMapSucceeds | Source/RendererToolkit/Private/AssetCompiler/MeshAssetCompiler.cpp:719-737 | the map is built exactly when every entry is accepted. An accepted entry has a name new up to its first NUL, and an asset-ID string non-empty up to its first NUL |
| MeshMaterials.MaterialNameMapContents | Source/RendererToolkit/Private/AssetCompiler/MeshAssetCompiler.cpp:722-732 | the built map holds exactly the entry names, each cut at its first NUL. Each maps to the resolved ID of its asset-ID string, also cut at its first NUL |
| MeshMaterials.NamesCollideAfterNul | Source/RendererToolkit/Private/AssetCompiler/MeshAssetCompiler.cpp:724-732 | two entry names that differ only after a NUL are one key, so the second is rejected as a duplicate |
| MeshMaterials.MaterialNameMapFailure | Source/RendererToolkit/Private/AssetCompiler/MeshAssetCompiler.cpp:724-736 | a rejected mapping fails with the error of the first entry rejected: a duplicate name or an empty ID, both compared as truncated at NUL |
| MeshMaterials.BuildMaterialNameMap | Source/RendererToolkit/Private/AssetCompiler/MeshAssetCompiler.cpp:717-738 | the loop builds the specified map or fails with its error |
| MeshMaterials.MappedNameDecides | Source/RendererToolkit/Private/AssetCompiler/MeshAssetCompiler.cpp:353-358 | a material whose name is mapped gets the mapped ID, whatever its texture and whatever the asset-ID helpers do |
| MeshMaterials.AssetIdNameIgnoresTexture | Source/RendererToolkit/Private/AssetCompiler/MeshAssetCompiler.cpp:361-365 | a material name that is itself an asset ID is never replaced by the diffuse texture, so the texture does not change the result |
| MeshMaterials.TextureMappedResolves | Source/RendererToolkit/Private/AssetCompiler/MeshAssetCompiler.cpp:361-372 | an unmapped material whose name is not an asset ID, and whose diffuse texture names a mapped entry that is not the default material, gets that entry's ID |
| MeshMaterials.DefaultMaterialUnresolved | Source/RendererToolkit/Private/AssetCompiler/MeshAssetCompiler.cpp:361-366 | Assimp's default material, unmapped and without a texture, never resolves |
| MeshCounting.CountMeshIndices | Source/RendererToolkit/Private/AssetCompiler/MeshAssetCompiler.cpp:341-345 | the face loop counts the mesh's face indices |
| MeshCounting.CountFromSucceeds | Source/RendererToolkit/Private/AssetCompiler/MeshAssetCompiler.cpp:347-394 | the counting pass succeeds exactly when every referenced mesh's material resolves |
| MeshCounting.CountFromTotals | Source/RendererToolkit/Private/AssetCompiler/MeshAssetCompiler.cpp:332-345 | the totals are the sums of vertices and indices over the meshes, with one sub-mesh appended per mesh |
| MeshCounting.CountFromSubMeshes | Source/RendererToolkit/Private/AssetCompiler/MeshAssetCompiler.cpp:381-389 | sub-mesh k has mesh k's material, starts at the index total before it and spans its face indices |
| MeshCounting.CountFromFailure | Source/RendererToolkit/Private/AssetCompiler/MeshAssetCompiler.cpp:390-394 | a failed pass names the material of the first mesh whose material does not resolve |
| MeshCounting.SubMeshesTile | Source/RendererToolkit/Private/AssetCompiler/MeshAssetCompiler.cpp:341-389 | the sub-mesh ranges are contiguous and do not overlap: the first starts at 0, each starts where the previous ends, and the last ends at the index total |
| MeshCounting.CountNode | Source/RendererToolkit/Private/AssetCompiler/MeshAssetCompiler.cpp:329-403 | the recursion over the tree computes the pass over the meshes in pre-order |
| MeshCounting.CountChildren | Source/RendererToolkit/Private/AssetCompiler/MeshAssetCompiler.cpp:398-402 | the child loop continues the pass over the children's meshes |
| MeshFill.IndicesFromBounds | Source/RendererToolkit/Private/AssetCompiler/MeshAssetCompiler.cpp:606-622 | every global index names one of the run's own vertices |
| MeshFill.IndicesFromSubMesh | Source/RendererToolkit/Private/AssetCompiler/MeshAssetCompiler.cpp:456-622 | the index range of mesh k holds its face indices plus its start vertex |
| MeshFill.FillFaceIndices | Source/RendererToolkit/Private/AssetCompiler/MeshAssetCompiler.cpp:614-618 | each face index is written plus the start vertex, and nothing else changes |
| MeshFill.FillMeshIndices | Source/RendererToolkit/Private/AssetCompiler/MeshAssetCompiler.cpp:606-622 | the face loop writes the mesh's indices plus its start vertex and advances the count by its face-index count |
| MeshFill.LowByte | Source/RendererToolkit/Private/AssetCompiler/MeshAssetCompiler.cpp:587 | `static_cast<uint8_t>` keeps values below 256 |
| MeshAsset.BoneBytesDisjoint | Source/RendererToolkit/Private/AssetCompiler/MeshAssetCompiler.cpp:580-594 | the bone-index and bone-weight bytes of distinct (vertex, slot) pairs are distinct, and all lie in the skinned tail of their vertex |
| MeshFill.WriteSlotsAt | Source/RendererToolkit/Private/AssetCompiler/MeshAssetCompiler.cpp:572-599 | slot s of vertex v holds the weight of v arriving when s slots are taken. Slots taken before or never reached keep their byte |
| MeshFill.WriteSlotsFrame | Source/RendererToolkit/Private/AssetCompiler/MeshAssetCompiler.cpp:580-594 | the weight loop changes no byte outside the bone bytes of the covered vertices |
| MeshFill.FirstUnknownBoneMeaning | Source/RendererToolkit/Private/AssetCompiler/MeshAssetCompiler.cpp:561-568 | the scan finds the first bone the skeleton does not know, and nothing exactly when all are known |
| MeshFill.BoneWrites | Source/RendererToolkit/Private/AssetCompiler/MeshAssetCompiler.cpp:553-601 | the bone loop fails exactly when a bone is unknown, naming the first such bone |
| MeshFill.BoneWritesSlots | Source/RendererToolkit/Private/AssetCompiler/MeshAssetCompiler.cpp:553-601 | slot s of a vertex holds the s-th weight that arrives for it, in bone order and then weight order. Free slots keep their bytes, and a fifth weight and any later ones are dropped |
| MeshFill.PlacementsSlots | Source/RendererToolkit/Private/AssetCompiler/MeshAssetCompiler.cpp:564-587 | the written bone indices are skeleton slots, so they fit in 8 bits |
| MeshFill.FillBoneWeights | Source/RendererToolkit/Private/AssetCompiler/MeshAssetCompiler.cpp:572-599 | the weight loop of one bone performs its placements in place |
| MeshFill.FillBone | Source/RendererToolkit/Private/AssetCompiler/MeshAssetCompiler.cpp:561-600 | one bone: it is known iff the skeleton holds its ID, and then its weights are placed |
| MeshFill.FillBoneSlots | Source/RendererToolkit/Private/AssetCompiler/MeshAssetCompiler.cpp:553-601 | the bone loop, with slot counts starting at zero, computes the specified bone bytes or fails with their error |
| MeshFill.MeshStep | Source/RendererToolkit/Private/AssetCompiler/MeshAssetCompiler.cpp:447-601 | one mesh fails exactly when it has a first texture-coordinate channel and tangent generation fails, or it is skinned and has an unknown bone. Tangent failure is reported first. Bones are processed only when both the mesh and the skeleton have bones |
| MeshFill.BonesFromSucceeds | Source/RendererToolkit/Private/AssetCompiler/MeshAssetCompiler.cpp:447-568 | the pass succeeds exactly when no mesh fails its tangent generation and no skinned mesh has an unknown bone |
| MeshFill.BonesFromFailure | Source/RendererToolkit/Private/AssetCompiler/MeshAssetCompiler.cpp:447-568 | a failed pass gives the error of the first failing mesh: its tangent failure, or else its first unknown bone |
| MeshFill.FillMesh | Source/RendererToolkit/Private/AssetCompiler/MeshAssetCompiler.cpp:440-623 | one mesh fails as the mesh step does, tangent generation first. Otherwise it leaves its bone bytes, advances the vertex count past it and writes its indices at the index count |
| MeshFill.FillNodeMeshes | Source/RendererToolkit/Private/AssetCompiler/MeshAssetCompiler.cpp:440-623 | the mesh loop of a node continues the pass over its meshes |
| MeshFill.FillNode | Source/RendererToolkit/Private/AssetCompiler/MeshAssetCompiler.cpp:432-630 | the recursion over a node continues the pass over its own meshes, then its children's |
| MeshFill.FillChildren | Source/RendererToolkit/Private/AssetCompiler/MeshAssetCompiler.cpp:625-629 | the child loop continues the pass child after child |
| MeshFill.FillChild | Source/RendererToolkit/Private/AssetCompiler/MeshAssetCompiler.cpp:628 | one child subtree continues the pass |
| MeshFill.FillTree | Source/RendererToolkit/Private/AssetCompiler/MeshAssetCompiler.cpp:781-787 | the pass from the root fails as the first failing mesh of the walk does. Otherwise it leaves the walk's bone bytes and indices and counts exactly the counted totals, so the count check cannot fire |
| MeshCompiler.IndexDataRoundTrip | Source/RendererToolkit/Private/AssetCompiler/MeshAssetCompiler.cpp:819-836 | when every index fits the format, the written indices read back unchanged. The data is 16-bit iff there are indices and the format is short, and absent iff there are none |
| MeshCompiler.NarrowWrapsAbove | Source/RendererToolkit/Private/AssetCompiler/MeshAssetCompiler.cpp:832 | narrowing wraps 65536 to 0, so it is lossless only under the format bound |
| MeshCompiler.NarrowIndices | Source/RendererToolkit/Private/AssetCompiler/MeshAssetCompiler.cpp:829-834 | the loop narrows every index to its low 16 bits |
| MeshCompiler.CompileMeshSucceeds | Source/RendererToolkit/Private/AssetCompiler/MeshAssetCompiler.cpp:717-788 | a mesh compiles exactly when the conditions below all hold |
| MeshCompiler.CompileMeshFailure | Source/RendererToolkit/Private/AssetCompiler/MeshAssetCompiler.cpp:717-788 | a failure names the first failing check, in source order |
| MeshCompiler.AssembleSucceeds | Source/RendererToolkit/Private/AssetCompiler/MeshAssetCompiler.cpp:753-788 | after the counting pass, compilation succeeds iff there is a vertex, there are at most 65535 sub-meshes, no mesh fails tangent generation and no skinned mesh has an unknown bone |
| MeshCompiler.NoSubMeshesUnreachable | Source/RendererToolkit/Private/AssetCompiler/MeshAssetCompiler.cpp:753-760 | the empty-sub-mesh error never occurs, because no mesh references means no vertices, which is reported first |
| MeshCompiler.CompileMeshParts | Source/RendererToolkit/Private/AssetCompiler/MeshAssetCompiler.cpp:748-847 | a compiled mesh is made of the walk's counts, the built skeleton and the bone bytes of a zeroed vertex buffer |
| MeshCompiler.CompileMeshHeader | Source/RendererToolkit/Private/AssetCompiler/MeshAssetCompiler.cpp:765-815 | see the header and sub-mesh fields listed below |
| MeshCompiler.CompileMeshIndices | Source/RendererToolkit/Private/AssetCompiler/MeshAssetCompiler.cpp:765-837 | the stored indices are the walk's global indices, each below the vertex count. They are 16-bit iff there are indices and vertices ≤ 65535, and sub-mesh k's range holds mesh k's indices |
| MeshCompiler.CompileMeshUnskinned | Source/RendererToolkit/Private/AssetCompiler/MeshAssetCompiler.cpp:768-774 | without bones a mesh has the plain attributes, an all-zero modelled vertex buffer and an empty skeleton |
| MeshCompiler.CompileCounted | Source/RendererToolkit/Private/AssetCompiler/MeshAssetCompiler.cpp:753-837 | from the counts on, the method computes the specified output |
| MeshCompiler.Compile | Source/RendererToolkit/Private/AssetCompiler/MeshAssetCompiler.cpp:717-788 | the whole compile, step by step, computes the specified output or error |
| ExampleRunner.DefaultRendererAvailable | Example/Source/Examples/Private/ExampleRunner.cpp:78-95 | a build has a default renderer exactly when it has any renderer, and the default is one it can instance |
| ExampleRunner.ShaderModelLimits | Example/Source/Examples/Private/ExampleRunner.cpp:99-121 | the shader-model-5 examples never list Direct3D 9/10 or OpenGL ES 3. The geometry shader example lists Direct3D 10 but not 9; all others list every renderer |
| ExampleRunner.DefaultExampleAsWrittenUnregistered | Example/Source/Examples/Private/ExampleRunner.cpp:123-135 | as written, the default example is unregistered exactly in the builds with the renderer runtime but without ImGui |
| ExampleRunner.DefaultExampleRegistered | Example/Source/Examples/Private/ExampleRunner.cpp:104-135 | the corrected default example is registered in every build. It agrees with the constructor whenever ImGui is built in or the renderer runtime is not |
| ExampleRunner.Runner.constructor | Example/Source/Examples/Private/ExampleRunner.cpp:75-161 | the registry is the build's registry, with the corrected default example, and all four names start empty |
| ExampleRunner.ParseMeaning | Example/Source/Examples/Private/ExampleRunner.cpp:206-225 | the parse yields the last example argument and the renderer name after the last `-r`, which consumes the next argument whatever it is. It is incomplete iff a lone `-r` ends the line |
| ExampleRunner.Runner.ParseCommandLineArguments | Example/Source/Examples/Private/ExampleRunner.cpp:206-234 | returns whether the line is complete, sets the names the parse yields and, after a complete parse, replaces an empty renderer name by the default |
| ExampleRunner.SwitchedAllLast | Example/Source/Examples/Private/ExampleRunner.cpp:192-197 | of several switch requests the last one wins, a missing renderer name means the default, and the current names are untouched |
| ExampleRunner.Runner.SwitchExample | Example/Source/Examples/Private/ExampleRunner.cpp:192-197 | sets the pending renderer (the default when none is given) and the pending example |
| ExampleRunner.Find | Example/Source/Examples/Private/ExampleRunner.cpp:273 | `std::find` reports whether the renderer is in the list |
| ExampleRunner.RunExampleStepMeaning | Example/Source/Examples/Private/ExampleRunner.cpp:264-298 | an example is launched exactly when the selected name (the default for "") is registered, the renderer is available and the example's support list, if any, has it. Otherwise the step returns 0 and changes nothing |
| ExampleRunner.Runner.RunExample | Example/Source/Examples/Private/ExampleRunner.cpp:264-298 | the method computes that step, applying the launched example's switch requests |
| ExampleRunner.RunLoopStep | Example/Source/Examples/Private/ExampleRunner.cpp:172-186 | a non-zero result runs the same names again. A 0 result with both pending names set switches to them and clears them, and a 0 result without a switch ends the run |
| ExampleRunner.RunLoopInvariant | Example/Source/Examples/Private/ExampleRunner.cpp:172-186 | the loop exits only with 0 and with no complete switch pending. It keeps earlier launches and launches only examples on renderers they can run on |
| ExampleRunner.RunExitCode | Example/Source/Examples/Private/ExampleRunner.cpp:165-189 | `run` returns -1, launching nothing, exactly on a malformed line. Otherwise it only returns 0, and every launch was launchable |
| ExampleRunner.Runner.Run | Example/Source/Examples/Private/ExampleRunner.cpp:165-189 | the method's outcome and final names are those of the run specification |

The conditions in the `CompileMeshSucceeds` row are:

- every mapping entry is accepted;
- there are at most 255 bones;
- the skeleton builds;
- every referenced mesh's material resolves;
- there is a vertex;
- there are at most 65535 mesh references;
- no mesh with a first texture-coordinate channel fails tangent generation;
- no skinned mesh has an unknown bone.

The failure order stated by `CompileMeshFailure` is:

1. the first rejected mapping entry;
2. the bone limit;
3. the skeleton;
4. the first unresolved material;
5. no vertices;
6. too many sub-meshes;
7. the error of the first mesh whose fill fails: its tangent failure, or else its first unknown bone.

The header and sub-mesh fields stated by `CompileMeshHeader` are:

- the vertex and index totals of the walk;
- one sub-mesh per mesh reference;
- bytes per vertex, index format, attributes and bone count as the skeleton calls for;
- a vertex buffer of bytes-per-vertex times vertices;
- the skeleton its constructor built;
- sub-mesh k with mesh k's material, start and length.

## Left out

- Floating point: positions, normals, texture coordinates, tangent frames (mikktspace and QTangent), matrices, bounding boxes and spheres are not modelled. Only the discrete bytes of the vertex buffer, the bone indices and weights, are tracked; the others stay as the zeroed buffer leaves them. The local and offset bone matrices are not tracked.
- The weight-to-byte conversion `static_cast<uint8_t>(weight * 255)` is a given function `quantise`.
- Whether mikktspace generates the tangent space of a mesh (`genTangSpaceDefault`) is a given predicate `tangentSpaceGenerated`. Only its failure, and where that failure is reported, is modelled.
- Assimp's `aiString` names of materials, meshes and bones are taken as their `C_Str()` contents, which end at the first NUL.
- Loading the scene with Assimp, the import flags and `AssimpHelper::getNumberOfBones` are left out. The bone count is a parameter of the mesh compile.
- `MeshSkeleton.SkeletonContentsMeaning`: requires that the bone count covers the hierarchy (`HierarchyFits`). The source relies on the count that `getNumberOfBones` reports and writes past the arrays otherwise.
- The JSON helper readers, `JsonMaterialHelper`, `JsonMaterialBlueprintHelper`, `StringHelper` asset-ID resolution and `StringId`/FNV hashing are not modelled. Their source is not part of this model; they are function values, and bone IDs are opaque, so hash collisions are possible and are honoured.
- A rapidjson accessor applied to a value of the wrong kind reads as empty ("", no elements, no members). The source leaves that undefined.
- The sizes of the scene records are abstract positive constants. Byte-level struct layout and padding are not modelled; the scene output is a sequence of records.
- Cache change detection (`needsToBeCompiled`, `checkIfChanged`), LZ4 compression and file-system writes are not modelled. The scene compile is given the cache decision and whether the write succeeds; only the order of writing, then storing the cache entries, is modelled.
- The mesh compile's compressed write and cache store (MeshAssetCompiler.cpp lines 870-874) are not modelled; the mesh model stops at the output contents. Nor is the writing of the vertex attributes table, which is fixed data.
- Integer widths: vertex and index counters, the index buffer and sub-mesh fields are unbounded naturals, so 32-bit wrap-around of the counters is not modelled. The same holds for the scene's `uint32_t` counts: the node count, each node's item count, and the byte size in each item header. The explicit narrowings (16-bit indices, 8-bit bone indices, the 255-bone and 65535-sub-mesh limits) are modelled.
- `MeshFill.FillBoneSlots`: does not model writing `boneOffsetMatrices[boneIndex]`, because matrices are left out.
- `ExampleRunner.Runner.Run`: the run loop is bounded by a `fuel` count of launches, because the source loops for as long as examples ask. A run that is still going when the fuel runs out ends with `OutOfFuel`.
- Printing (`printUsage`, `showError`) and the launched examples themselves are left out. An example is an oracle that returns an `int` and the list of `switchExample` calls it makes.
- `SceneItems.ReadLightItemChecked`: reads the light type with the exact comparison of Finding 1, not with the source's `strncmp` prefix test. A value that is a proper prefix of a type name is rejected here but accepted by the source. `SceneItems.LightTypeAsWrittenAcceptsPrefixes` states the source's reader.
- `SceneCompiler.CompiledItemShape`: a light item is read by the corrected reader of Finding 1. What the source does with an abbreviated light type is not promised.
- `SceneCompiler.Compile`: light items go through the corrected reader of Finding 1, so a scene with an abbreviated light type fails here but compiles in the source.
- `SceneCompiler.WritePayload`: the light case reads through the corrected reader of Finding 1, so it fails on an abbreviated light type that the source accepts.
- `SceneCompiler.WriteItem`: writes the payload through `SceneCompiler.WritePayload`, with the same difference for abbreviated light types (Finding 1).
- `SceneCompiler.WriteItems`: writes every item through `SceneCompiler.WriteItem`, with the same difference for abbreviated light types (Finding 1).
- `SceneCompiler.WriteNode`: writes its items through `SceneCompiler.WriteItems`, with the same difference for abbreviated light types (Finding 1).
- `SceneCompiler.PayloadMatchesDeclaredBytes`: holds for what the corrected light reader of Finding 1 accepts. It says nothing about an abbreviated light type that only the source accepts.
- `SceneCompiler.CompiledItemsShape`: holds for what the corrected light reader of Finding 1 accepts. It says nothing about an abbreviated light type that only the source accepts.
- `SceneCompiler.CompiledNodeShape`: holds for what the corrected light reader of Finding 1 accepts. It says nothing about an abbreviated light type that only the source accepts.
- `SceneCompiler.CompiledNodesShape`: holds for what the corrected light reader of Finding 1 accepts. It says nothing about an abbreviated light type that only the source accepts.
- `SceneCompiler.CompiledSceneReadsBack`: holds for what the corrected light reader of Finding 1 accepts. It says nothing about an abbreviated light type that only the source accepts.
- `SceneCompiler.RejectedScenes`: holds for what the corrected light reader of Finding 1 accepts. It says nothing about an abbreviated light type that only the source accepts.
- `SceneCompiler.CompileAsset`: compiles through `SceneCompiler.Compile`, with the same difference for abbreviated light types (Finding 1).
- `MeshSkeleton.Skeleton.FillSkeletonRecursive`: the uniqueness test scans only the slots filled so far (Finding 2). The source also rejects a bone when an unfilled slot holds its ID; `MeshSkeleton.DuplicateAsWrittenRejectsUniqueBone` states that case.
- `MeshSkeleton.Skeleton.FillChildren`: fills through the corrected scan of Finding 2.
- `MeshSkeleton.Skeleton.FillSingleRootBone`: fills through the corrected scan of Finding 2.
- `MeshSkeleton.Skeleton.FillFromRoot`: fills through the corrected scan of Finding 2.
- `MeshSkeleton.FillBonesSucceeds`: success means "all bone IDs distinct" under the corrected scan of Finding 2. The source can also fail on distinct IDs, depending on uninitialised memory.
- `MeshSkeleton.FillBonesFailure`: names the first repeated ID under the corrected scan of Finding 2, not a bone rejected because of uninitialised memory.
- `MeshSkeleton.SkeletonContentsMeaning`: states the skeleton built with the corrected scan of Finding 2.
- `MeshCompiler.CompileMeshSucceeds`: the skeleton condition is the corrected one of Finding 2. A skeleton failure caused by leftover memory is not modelled.
- `MeshCompiler.CompileMeshFailure`: the skeleton error is that of the corrected scan of Finding 2.
- `MeshCompiler.NoSubMeshesUnreachable`: holds for the skeleton the corrected scan of Finding 2 builds. It says nothing about a mesh the source rejects because of leftover memory.
- `MeshCompiler.CompileMeshParts`: holds for the skeleton the corrected scan of Finding 2 builds. It says nothing about a mesh the source rejects because of leftover memory.
- `MeshCompiler.CompileMeshHeader`: holds for the skeleton the corrected scan of Finding 2 builds. It says nothing about a mesh the source rejects because of leftover memory.
- `MeshCompiler.CompileMeshIndices`: holds for the skeleton the corrected scan of Finding 2 builds. It says nothing about a mesh the source rejects because of leftover memory.
- `MeshCompiler.CompileMeshUnskinned`: holds for the skeleton the corrected scan of Finding 2 builds. It says nothing about a mesh the source rejects because of leftover memory.
- `MeshCompiler.Compile`: builds the skeleton with the corrected scan of Finding 2.
- `ExampleRunner.BuildRegistry`: uses the corrected default example of Finding 3.
- `ExampleRunner.Runner.constructor`: the default example is the corrected one of Finding 3, "FirstTriangle" in a build with the renderer runtime but without ImGui. The source sets "ImGuiExampleSelector" there. `ExampleRunner.DefaultExampleAsWrittenUnregistered` states what the source then does. `ExampleRunner.RunExampleStepMeaning` and `ExampleRunner.RunExitCode` hold for any registry, the source's included.
- `ExampleRunner.h` is not part of this model. `addExample` is modelled as inserting the example name and overwriting its support list.
- The examples themselves, the compositor passes, the grass item class and the graphics debugger interface are not modelled. They are GPU and renderer glue.

## Findings

| source | as written | input that shows it | evidently intended | confidence | as-written member | corrected member |
|---|---|---|---|---|---|---|
| Source/RendererToolkit/Private/AssetCompiler/SceneAssetCompiler.cpp:84-90 | `strncmp(value, "DIRECTIONAL", length-of-value)` compares only as many characters as the value has, so any prefix of a name is accepted | `"LightType": ""` yields DIRECTIONAL; `"LightType": "P"` yields POINT | only the exact names DIRECTIONAL, POINT and SPOT are accepted | not executed | SceneItems.LightTypeAsWrittenAcceptsAbbreviations | SceneItems.LightTypeNamesExact |
| Source/RendererToolkit/Private/AssetCompiler/MeshAssetCompiler.cpp:280-284 | the uniqueness check calls `getBoneIndexByBoneId`, which scans all `numberOfBones` slots, including those not yet filled. `new uint8_t[]` leaves those uninitialised | two bones, the second slot holding by chance the ID of the first bone's name: the first bone is rejected as not unique | only the slots filled so far are searched | not executed | MeshSkeleton.DuplicateAsWrittenRejectsUniqueBone | MeshSkeleton.DuplicateMeaning |
| Example/Source/Examples/Private/ExampleRunner.cpp:123-135 | with `RENDERER_RUNTIME` defined the default example is "ImGuiExampleSelector" even when `RENDERER_RUNTIME_IMGUI` is not, and then that example is never registered | a build with the renderer runtime, without ImGui, started without an example name: `runExample` finds no example and only prints usage | the selector is the default only when it is built in, otherwise "FirstTriangle" | not executed | ExampleRunner.DefaultExampleAsWrittenUnregistered | ExampleRunner.DefaultExampleRegistered |
