# M2 model loader — a verified model

This project models the M2 mesh loader of the client GUI in Dafny. The M2
format is a versioned binary 3D-model format. A file holds chunk references
`(num, ofs)` to its tables: vertices, view data, texture tables, animation
sequences and bones with keyframe tracks. From version 0x108 on, part of the
data lives in companion files. The view data is in `<stem>00.skin`, and the
keys of a sequence can be in `<stem><id:%04d>-<sub:%02d>.anim`.

The model covers three parts of the system:

- **The decoder** (`CM2MeshFileLoader.cpp`). Class `Loader.M2Loader` holds
  the loader's state: the header as a byte image, the current view, and the
  staging arrays (`M2MIndices`, `M2MTriangles`, `M2MSubmeshes`, ...) as one
  `Staged` record. Its methods are `ReadViewData`, `ReadVertices`,
  `ReadTextureDefinitions`, `ReadAnimationData`, `ReadBones`,
  `ReadBonesWOTLK`, `Load` and `CreateMesh`. Each method is proved against
  decoding functions on byte sequences (modules `Bytes`, `Records`,
  `Tracks`, `Timeline`, `CompanionNames`, `Decoder`), and each loop against
  its function (`Readers`).
- **The tail of `load()`**. It builds one joint per bone, one mesh buffer per
  submesh with rebased indices, the submesh's vertices and bone weights, and
  a material from the render flags (`MeshBuild`, `Assembly`, `Materials`).
- **The submesh ordering helpers** of `CM2MeshFileLoader.h`
  (`SubmeshOrder`) and the `FarthestToNearest` draw-order comparator of
  `CM2MeshSceneNode.h` (`SceneOrder`).

Modelling choices:

- A file is a `seq<byte>`.
- The files the device can open are a map from name to bytes.
- The texture names the driver can load are a set of names.
- Floats are kept as their raw 32-bit words. The only exception is the
  int16-quantised rotation components, which are exact reals.
- C++ unsigned arithmetic is written out: `ToU16` and `ToU32` wrap, and
  `ToS16` reinterprets the low 16 bits as two's complement.

The source reads every chunk without a bounds check. The model checks that
each table lies inside its file (`Bytes.Fits`) and fails the load when it
does not. Any other array index the source takes without a check (a parent
joint, a bone of a weight, a texture lookup) makes the assembly `None`.

The model follows the code on these points:

- Scaling keys are not remapped to Y-up (cpp:863). Only translation keys,
  rotations, positions, normals and pivots are.
- Nothing ties a track's timestamp count to its value count. The two tables
  have independent counts. A joint is only built when every timestamp finds
  its values (`MeshBuild.JointFits`), as the indexing at cpp:841-863 needs.
- A parent bone must be an earlier bone. A later one indexes past the joints
  created so far (cpp:831), and the model's assembly fails.
- The spatial partitioner (classification, bucketing into grid cells) is
  implemented outside the loader and its headers, and is not modelled. The
  ordering helpers it calls, in `CM2MeshFileLoader.h`, are modelled.
- Sequences are skipped by flag 0x20 and the presence of the `.anim` file
  alone. Flag 0x40 only changes the log message (cpp:282-298).

## Model

| member | source | states |
|---|---|---|
| Geometry.FixCoordSystemInvolution | src/Client/GUI/CM2MeshFileLoader.cpp:24-27 | fixCoordSystem maps (x,y,z) to (x,z,y); applying it twice gives back the vector |
| Geometry.FixQuaternionInvolution | src/Client/GUI/CM2MeshFileLoader.cpp:29-32 | fixQuaternion exchanges only Y and Z, keeps X and W, and is an involution |
| Geometry.FixQuaternionMatchesVector | src/Client/GUI/CM2MeshFileLoader.cpp:24-32 | the vector part of a quaternion is remapped exactly as fixCoordSystem remaps a vector |
| Bytes.ToU32 | src/Client/GUI/CM2MeshFileLoader.cpp:317 | u32 addition keeps the value modulo 2^32 and is exact when the sum fits |
| Bytes.U16RoundTrip | src/Client/GUI/CM2MeshFileLoader.cpp:87-92 | a u16 read from the two little-endian bytes of v is v, wherever they are placed |
| Bytes.U32RoundTrip | src/Client/GUI/CM2MeshFileLoader.cpp:174-177 | a u32 read from the four little-endian bytes of v is v |
| Bytes.S16RoundTrip | src/Client/GUI/CM2MeshFileLoader.cpp:353-356 | an s16 stored as its u16 bit pattern reads back as itself |
| Bytes.U16TableRoundTrip | src/Client/GUI/CM2MeshFileLoader.cpp:88-93 | reading num u16 values from ofs gives back exactly the list that was written there |
| Bytes.U32TableRoundTrip | src/Client/GUI/CM2MeshFileLoader.cpp:173-178 | reading num u32 values from ofs gives back exactly the list that was written there |
| Bytes.TableAt | src/Client/GUI/CM2MeshFileLoader.cpp:69-77 | record k of a table of num records of size bytes is decoded at ofs + k*size |
| Records.NumOfsRoundTrip | src/Client/GUI/CM2MeshFileLoader.h:19-22 | a chunk reference (num, ofs) survives being written and read back |
| Records.ModernHeader | src/Client/GUI/CM2MeshFileLoader.cpp:772-775 | the 0x108 header fills the structure from the file in four ranges at 0x14 (24 bytes), 0x34 (28), 0x54 (24) and 0x74..end; D, Views.ofs and I keep their previous bytes |
| Records.ModernHeaderRoundTrip | src/Client/GUI/CM2MeshFileLoader.h:25-76 | a header image laid out without D, Views.ofs and I and read back by the four ranges equals the image except in those three fields |
| Records.ModernHeaderRestores | src/Client/GUI/CM2MeshFileLoader.cpp:772-775 | when the previous image already holds the header, the four reads reproduce it exactly |
| Records.SubmeshStride | src/Client/GUI/CM2MeshFileLoader.cpp:116 | a submesh record is 32 bytes on version 0x100 and 48 bytes otherwise |
| Records.SubmeshAt | src/Client/GUI/CM2MeshFileLoader.h:104-114 | the vertex and triangle window fields are u16; a short read leaves BB and Radius as the reused temporary held them |
| Records.LegacyBonePrefix | src/Client/GUI/CM2MeshFileLoader.cpp:152 | the legacy bone prefix is 12 bytes on 0x100 and 16 otherwise |
| Records.LegacyBoneSize | src/Client/GUI/CM2MeshFileLoader.cpp:152-158 | a legacy bone record is the prefix, three 28-byte track headers and a 12-byte pivot |
| Records.LegacyBlockHeadAt | src/Client/GUI/CM2MeshFileLoader.h:168-174 | the legacy track header holds TimeStamp at +12 and Values at +20, after InterpolationRanges |
| Records.ModernBlockHeadAt | src/Client/GUI/CM2MeshFileLoader.cpp:253-261 | the 0x108 track header skips InterpolationRanges: TimeStamp at +4, Values at +12 |
| Records.ModernBoneAt | src/Client/GUI/CM2MeshFileLoader.cpp:251-264 | a 0x108 bone record starts with no keyframes in any track |
| Records.ModernBoneLocal | src/Client/GUI/CM2MeshFileLoader.cpp:251-263 | a 0x108 bone record reads only its own 88 bytes |
| Records.LegacyBoneLocal | src/Client/GUI/CM2MeshFileLoader.cpp:150-160 | a legacy bone record reads only its own 108- or 112-byte stride |
| Records.LegacyAnimationAt | src/Client/GUI/CM2MeshFileLoader.cpp:636-642 | a legacy sequence copies start and end verbatim |
| Records.FixedVertexAt | src/Client/GUI/CM2MeshFileLoader.cpp:73-76 | a vertex keeps its weights, bones and texture coordinates, and has position and normal remapped by fixCoordSystem |
| CompanionNames.Stem | src/Client/GUI/CM2MeshFileLoader.cpp:288 | substr(0, length-3) drops the last three characters; a shorter name is kept whole |
| CompanionNames.SkinNameOfM2 | src/Client/GUI/CM2MeshFileLoader.cpp:777-778 | the skin file of `<stem>.m2` is `<stem>00.skin` |
| CompanionNames.DecimalRoundTrip | src/Client/GUI/CM2MeshFileLoader.cpp:287 | the decimal digits of n read back as n |
| CompanionNames.ZeroPadRoundTrip | src/Client/GUI/CM2MeshFileLoader.cpp:287 | a zero-padded number (%04d, %02d) has at least the width and reads back as the number |
| CompanionNames.AnimSuffixFits | src/Client/GUI/CM2MeshFileLoader.cpp:286-287 | "%04d-%02d.anim" and its terminating zero fit the 13-byte buffer exactly when the animation id is below 10000 and the sub-id below 100; the suffix is then 12 characters |
| CompanionNames.AnimNameOfM2 | src/Client/GUI/CM2MeshFileLoader.cpp:285-288 | the anim file of `<stem>.m2` is the stem, 4 digits, "-", 2 digits, ".anim", and both ids read back |
| Timeline.StartIsIdeal | src/Client/GUI/CM2MeshFileLoader.cpp:652-654 | while the sum of lengths plus gaps fits a u32, laststart is that sum without wrap-around |
| Timeline.EndIsIdeal | src/Client/GUI/CM2MeshFileLoader.cpp:653 | sequence k ends exactly length after its start |
| Timeline.TimelineAdjacent | src/Client/GUI/CM2MeshFileLoader.cpp:625-655 | the first sequence starts at 0, end = start + length, and the next starts 1000 after the previous end |
| Timeline.TimelineDisjoint | src/Client/GUI/CM2MeshFileLoader.cpp:650-655 | the windows [start, end] of different sequences are ordered and disjoint |
| Timeline.TimelineWraps | src/Client/GUI/CM2MeshFileLoader.cpp:654 | the u32 laststart wraps: a first length of 2^32 - 1000 puts the second sequence at 0 |
| Tracks.Int16Numerator | src/Client/GUI/CM2MeshFileLoader.cpp:356 | the numerator v > 0 ? v - 32767 : v + 32767 lies in [-32766, 32767], non-positive for positive v |
| Tracks.DecodeInt16 | src/Client/GUI/CM2MeshFileLoader.cpp:356 | a decoded component lies in (-1, 1] and is 1.0 exactly for a stored 0 |
| Tracks.DecodeInt16Points | src/Client/GUI/CM2MeshFileLoader.cpp:216 | 0 decodes to 1.0, 32767 and -32767 to 0.0, and ±1 to ∓32766/32767 |
| Tracks.Int16RoundTrip | src/Client/GUI/CM2MeshFileLoader.cpp:353-357 | every numerator in range is produced by some stored s16 |
| Tracks.Int16Collisions | src/Client/GUI/CM2MeshFileLoader.cpp:356 | two stored values decode alike exactly for the pairs (-32767, 32767) and (-32768, 32766) |
| Tracks.RotationKind | src/Client/GUI/CM2MeshFileLoader.cpp:210-223 | rotations have four components per key, read as int16 exactly from version 0x104 on |
| Tracks.ComponentCount | src/Client/GUI/CM2MeshFileLoader.cpp:201 | num * components is computed in u32 and equals the product when it fits |
| Tracks.ValueTableAt | src/Client/GUI/CM2MeshFileLoader.cpp:198-233 | value k of a track's table is the k-th float or the k-th decoded int16 from ofs |
| Tracks.LegacyTrack | src/Client/GUI/CM2MeshFileLoader.cpp:171-233 | a legacy track gains exactly TimeStamp.num u32 timestamps and Values.num * components values, appended |
| Tracks.LegacyBone | src/Client/GUI/CM2MeshFileLoader.cpp:168-235 | each of a bone's three tracks gets its keys with its own value kind; the rest of the bone is unchanged |
| Tracks.Shift | src/Client/GUI/CM2MeshFileLoader.cpp:317 | every timestamp is shifted by start in u32 arithmetic, keeping the count |
| Tracks.ShiftedKeysAt | src/Client/GUI/CM2MeshFileLoader.cpp:314-318 | key k of a sequence is the k-th u32 at the entry's ofs in the source file plus start, wrapped |
| Tracks.SequenceTimestamps | src/Client/GUI/CM2MeshFileLoader.cpp:306-319 | when both tables have entry i, the track keeps its old timestamps and gains exactly num shifted timestamps |
| Tracks.SequenceValues | src/Client/GUI/CM2MeshFileLoader.cpp:321-331 | when both tables have entry i, the track keeps its old values and gains exactly num * components values |
| Tracks.SequenceTrackLength | src/Client/GUI/CM2MeshFileLoader.cpp:306 | a track without entry i in both tables gains nothing; one with it gains the entry's count |
| Tracks.SequencesTrack | src/Client/GUI/CM2MeshFileLoader.cpp:280-394 | after n sequences a track's timestamp count grows by exactly the keys of the sequences whose source opened and that the track has |
| Tracks.SequencesBoneNext | src/Client/GUI/CM2MeshFileLoader.cpp:289-303 | a sequence whose .anim file is missing leaves every bone as it was; otherwise it adds its keys |
| Readers.ReadTable | src/Client/GUI/CM2MeshFileLoader.cpp:69-77 | the seek-and-read loop produces exactly Table(s, ofs, num, size, f) |
| Readers.ReadValues | src/Client/GUI/CM2MeshFileLoader.cpp:207-224 | the value loop reads exactly the value table of num keys |
| Readers.ReadLegacyTrack | src/Client/GUI/CM2MeshFileLoader.cpp:171-206 | the fill step of one track produces LegacyTrack |
| Readers.ReadLegacyTracks | src/Client/GUI/CM2MeshFileLoader.cpp:168-235 | the fill loop gives every bone the keys of its three tracks |
| Readers.ReadShiftedKeys | src/Client/GUI/CM2MeshFileLoader.cpp:311-319 | the timestamp loop reads num keys, each plus the sequence start |
| Readers.ReadSequenceTrack | src/Client/GUI/CM2MeshFileLoader.cpp:306-331 | one track's reads for sequence i produce SequenceTrack |
| Readers.AddSequence | src/Client/GUI/CM2MeshFileLoader.cpp:304-388 | the loop over bones adds sequence i to every bone and keeps their number |
| Readers.ReadNames | src/Client/GUI/CM2MeshFileLoader.cpp:726-736 | the name loop through one reused buffer yields TextureNames |
| Readers.ReadNameInto | src/Client/GUI/CM2MeshFileLoader.cpp:730-732 | resize to len + 1 and a read of len bytes leave the buffer ReadName describes |
| Readers.PlaceSequences | src/Client/GUI/CM2MeshFileLoader.cpp:644-656 | the 0x108 animation loop with its laststart yields ModernAnimations |
| Decoder.ViewSubmeshes | src/Client/GUI/CM2MeshFileLoader.cpp:109-120 | num submesh records, record k at ofs + k * stride, read into one reused temporary |
| Decoder.LegacySubmeshesShareBounds | src/Client/GUI/CM2MeshFileLoader.cpp:116 | on 0x100 no submesh gets its own BB or Radius: all keep the temporary's values |
| Decoder.Vertices | src/Client/GUI/CM2MeshFileLoader.cpp:62-79 | exactly Vertices.num vertices are read |
| Decoder.RenderFlagsTable | src/Client/GUI/CM2MeshFileLoader.cpp:709-720 | exactly TexFlags.num render-flag entries, each with 16-bit flags |
| Decoder.Resize | src/Client/GUI/CM2MeshFileLoader.cpp:730 | std::string::resize keeps the prefix and pads with zero bytes |
| Decoder.CString | src/Client/GUI/CM2MeshFileLoader.cpp:734 | c_str() yields the bytes before the first zero byte |
| Decoder.ReadName | src/Client/GUI/CM2MeshFileLoader.cpp:730-734 | the buffer has len + 1 bytes, the first len from the file and byte len as before; the name is its c_str() |
| Decoder.TerminatedName | src/Client/GUI/CM2MeshFileLoader.cpp:732-734 | a name whose bytes contain a zero is what precedes that zero, whatever the buffer held |
| Decoder.UnterminatedName | src/Client/GUI/CM2MeshFileLoader.cpp:730-734 | a name without a zero byte is followed by the byte the buffer kept at index len |
| Decoder.UnterminatedNameExample | src/Client/GUI/CM2MeshFileLoader.cpp:726-736 | "abcd\0" then "xy" (no terminator) are read as "abcd" and "xyc" |
| Decoder.Animations | src/Client/GUI/CM2MeshFileLoader.cpp:631-658 | before 0x108 start and end are copied; from 0x108 on the sequences are laid on the unified timeline |
| Decoder.LegacyBones | src/Client/GUI/CM2MeshFileLoader.cpp:168-235 | every bone record with the keys of its three tracks |
| Decoder.AnimSource | src/Client/GUI/CM2MeshFileLoader.cpp:282-303 | flag 0x20 set reads from the model file; clear reads from the .anim file, missing exactly when no such file exists |
| Decoder.ModernBones | src/Client/GUI/CM2MeshFileLoader.cpp:280-394 | every bone with the keys of the first n sequences whose source opened |
| Materials.FlagsRoundTrip | src/Client/GUI/CM2MeshFileLoader.cpp:959-963 | Lighting, Fog and BackfaceCulling are on iff bits 0x01, 0x02, 0x04 are clear; ZBuffer and ZWriteEnable iff 0x10 is clear |
| Materials.OtherBitsIgnored | src/Client/GUI/CM2MeshFileLoader.cpp:959-963 | flag words that agree on bits 0x17 give the same switches |
| Materials.BlendOfInjective | src/Client/GUI/CM2MeshFileLoader.cpp:973-999 | blending modes 2 to 6 select five different blend functions |
| Materials.ApplyBlending | src/Client/GUI/CM2MeshFileLoader.cpp:964-1000 | 0 gives SOLID, 1 alpha-ref with 0.5, 2-6 one-texture blend with its factor pair, 7 and above leave the material unchanged |
| Materials.LastFlagsWin | src/Client/GUI/CM2MeshFileLoader.cpp:930-1001 | for two units the switches come from the last; the type comes from the last unless its blending is 7 or above, which keeps the earlier one |
| MeshBuild.JointParent | src/Client/GUI/CM2MeshFileLoader.cpp:825-832 | parent -1 is a root; 0..i-1 names an earlier joint; any other value indexes past the joints so far |
| MeshBuild.PositionKey | src/Client/GUI/CM2MeshFileLoader.cpp:837-842 | position key j has frame timestamps[j] and is values[3j..3j+2] remapped Y-up |
| MeshBuild.RotationKey | src/Client/GUI/CM2MeshFileLoader.cpp:846-854 | rotation key j has frame timestamps[j] and is values[4j..4j+3] through fixQuaternion |
| MeshBuild.ScaleKey | src/Client/GUI/CM2MeshFileLoader.cpp:859-864 | scale key j has frame timestamps[j] and is values[3j..3j+2] unremapped |
| MeshBuild.BuildJoint | src/Client/GUI/CM2MeshFileLoader.cpp:823-869 | joint i has one key per timestamp of each track, its parent, and the pivot as animated position |
| MeshBuild.JointsUpTo | src/Client/GUI/CM2MeshFileLoader.cpp:823-880 | the joints exist iff every bone fits, and joint i is built from bone i |
| MeshBuild.JointsParentsFirst | src/Client/GUI/CM2MeshFileLoader.cpp:825-833 | every parent joint was created before its child |
| MeshBuild.RootOf | src/Client/GUI/CM2MeshFileLoader.cpp:825-833 | following parents from any joint ends at a root at or before it |
| MeshBuild.RebaseWraps | src/Client/GUI/CM2MeshFileLoader.cpp:906-908 | an index at or past ofsVertex keeps its distance, one of the submesh's own vertices lands inside its buffer, and a smaller one (the logged case) wraps to 65536 less the distance |
| MeshBuild.BufferIndices | src/Client/GUI/CM2MeshFileLoader.cpp:904-909 | the buffer has exactly nTris indices; index k is M2MIndices[M2MTriangles[ofsTris+k]] - ofsVertex mod 2^16 |
| MeshBuild.BufferVertices | src/Client/GUI/CM2MeshFileLoader.cpp:911-913 | the buffer has exactly nVertex vertices |
| MeshBuild.VerticesSnoc | src/Client/GUI/CM2MeshFileLoader.cpp:911-913 | vertex n of the buffer is vertex ofsVertex + n of the table |
| MeshBuild.VertexWeightsAttached | src/Client/GUI/CM2MeshFileLoader.cpp:914-923 | every weight of a vertex is positive and names that vertex and buffer |
| MeshBuild.VertexWeightsComplete | src/Client/GUI/CM2MeshFileLoader.cpp:914-923 | every slot with a positive weight yields its weight |
| MeshBuild.WeightsFromSlots | src/Client/GUI/CM2MeshFileLoader.cpp:916-920 | every weight comes from one of the vertex's four slots |
| MeshBuild.BufferWeightsAttached | src/Client/GUI/CM2MeshFileLoader.cpp:911-926 | every weight of a buffer names a vertex of that buffer (its index in Vertices_Standard) and the buffer |
| MeshBuild.BufferWeightsNameJoints | src/Client/GUI/CM2MeshFileLoader.cpp:918-919 | when every weighted bone is below the joint count, every weight names an existing joint |
| MeshBuild.MaterialUpTo | src/Client/GUI/CM2MeshFileLoader.cpp:930-1001 | every texture set on a material is a non-empty name the driver can load |
| MeshBuild.UnboundBufferKeepsDefault | src/Client/GUI/CM2MeshFileLoader.cpp:930-932 | a buffer no texture unit points at keeps the default material |
| MeshBuild.BuildBuffer | src/Client/GUI/CM2MeshFileLoader.cpp:899-929 | buffer i has its submesh's meshpartId, nTris indices and nVertex vertices |
| MeshBuild.WeightsUpToResolve | src/Client/GUI/CM2MeshFileLoader.cpp:896-926 | the weights of the first n buffers name existing joints, buffers and vertices of those buffers |
| MeshBuild.Assemble | src/Client/GUI/CM2MeshFileLoader.cpp:816-1011 | the mesh exists iff every joint and buffer fits; it has the animations, one joint per bone, buffer i from submesh i, and weights that resolve |
| Assembly.MakeJoint | src/Client/GUI/CM2MeshFileLoader.cpp:823-869 | the joint loop builds BuildJoint, and fails exactly when the bone does not fit |
| Assembly.MakeJoints | src/Client/GUI/CM2MeshFileLoader.cpp:823-880 | the bone loop builds JointsUpTo |
| Assembly.MakeIndices | src/Client/GUI/CM2MeshFileLoader.cpp:904-909 | the triangle loop builds BufferIndices and fails exactly when a corner indexes past a table |
| Assembly.MakeVertices | src/Client/GUI/CM2MeshFileLoader.cpp:911-926 | the vertex loop builds the vertices and weights, and fails exactly when the run or a weighted bone is out of range |
| Assembly.VertexWeightsOf | src/Client/GUI/CM2MeshFileLoader.cpp:914-923 | the slot loop builds one weight per positive slot, and fails exactly when a bone is past the joints |
| Assembly.NotAllWeightsFit | src/Client/GUI/CM2MeshFileLoader.cpp:918-919 | one vertex with a bone past the joints makes the whole submesh fail |
| Assembly.MakeMaterial | src/Client/GUI/CM2MeshFileLoader.cpp:930-1001 | the texture-unit loop builds MaterialUpTo over all units |
| Assembly.NoMaterialAfter | src/Client/GUI/CM2MeshFileLoader.cpp:932 | once a unit indexes past a table, no later unit recovers the material |
| Assembly.MakeBuffer | src/Client/GUI/CM2MeshFileLoader.cpp:899-1009 | buffer i and its weights are built exactly when they fit |
| Assembly.MakeBuffers | src/Client/GUI/CM2MeshFileLoader.cpp:896-1011 | the submesh loop builds Buffers |
| Assembly.AssembleMesh | src/Client/GUI/CM2MeshFileLoader.cpp:816-1011 | the tail of load() builds Assemble |
| Loader.HeaderImage | src/Client/GUI/CM2MeshFileLoader.cpp:744-805 | the first 0x14 bytes are copied; only 0x100, 0x104-0x107 and 0x108 give an image |
| Loader.SwitchedHeader | src/Client/GUI/CM2MeshFileLoader.cpp:744-804 | the first 0x14 bytes (as many as the file has) always overwrite the previous image; a known version then gives HeaderImage's image, an unknown one keeps the previous bytes past the prefix |
| Loader.ImageVersion | src/Client/GUI/CM2MeshFileLoader.cpp:744-747 | the image holds the version the switch dispatched on |
| Loader.ViewSource | src/Client/GUI/CM2MeshFileLoader.cpp:756-787 | legacy views are read from the model file at Views.ofs; 0x108 views from the skin file at 4, missing exactly when the skin file is |
| Loader.ViewPlace | src/Client/GUI/CM2MeshFileLoader.cpp:747-805 | a view is found only for a known version and, on 0x108, an existing skin file |
| Loader.ReadAll | src/Client/GUI/CM2MeshFileLoader.cpp:740-805 | the readers succeed only for a known version (and skin file on 0x108), with one submesh per view submesh entry |
| Loader.LoadedMesh | src/Client/GUI/CM2MeshFileLoader.cpp:740-1027 | a loaded mesh has the file's animations and one buffer per submesh, its joints follow their parents, and its weights resolve |
| Loader.NoPlaceNoMesh | src/Client/GUI/CM2MeshFileLoader.cpp:800-804 | an unknown version or missing skin file reads nothing and yields no mesh |
| Loader.LoadFromPlace | src/Client/GUI/CM2MeshFileLoader.cpp:805-1027 | after the version switch the load reads the tables exactly when they fit, then assembles |
| Loader.M2Loader.constructor | src/Client/GUI/CM2MeshFileLoader.cpp:13-17 | a fresh loader has nothing staged and no mesh |
| Loader.M2Loader.ReadViewData | src/Client/GUI/CM2MeshFileLoader.cpp:81-138 | indices, triangles, submeshes and texture units of the current view replace the staged ones, exactly when they fit |
| Loader.M2Loader.ReadVertices | src/Client/GUI/CM2MeshFileLoader.cpp:62-79 | the staged vertices become Vertices, exactly when the table fits |
| Loader.M2Loader.ReadTextureDefinitions | src/Client/GUI/CM2MeshFileLoader.cpp:676-737 | lookup, definitions, render flags and names replace the staged ones, exactly when they fit |
| Loader.M2Loader.ReadAnimationData | src/Client/GUI/CM2MeshFileLoader.cpp:624-658 | the staged animations become Animations, exactly when the table fits |
| Loader.M2Loader.ReadBones | src/Client/GUI/CM2MeshFileLoader.cpp:140-238 | the staged bones become the legacy records with their keys |
| Loader.M2Loader.ReadBonesWOTLK | src/Client/GUI/CM2MeshFileLoader.cpp:240-397 | the staged bones become the 0x108 records with the keys of every sequence whose source opened |
| Loader.M2Loader.ReadTables | src/Client/GUI/CM2MeshFileLoader.cpp:758-797 | the readers in load() order stage StagedOf, exactly when every table fits |
| Loader.M2Loader.ReadHeaderAndView | src/Client/GUI/CM2MeshFileLoader.cpp:744-788 | the header becomes SwitchedHeader even when the switch fails; on success the view is the one ViewPlace describes and its file is returned, on failure the view is kept |
| Loader.M2Loader.Load | src/Client/GUI/CM2MeshFileLoader.cpp:740-1028 | load() succeeds exactly when LoadResult has a mesh, keeps it, and clears all staged arrays but animations and bones; success or not, the header is SwitchedHeader, and a failed switch leaves view and arrays as they were |
| Loader.M2Loader.KeepMesh | src/Client/GUI/CM2MeshFileLoader.cpp:1014-1027 | the staging arrays are cleared except the animations and bones |
| Loader.M2Loader.CreateMesh | src/Client/GUI/CM2MeshFileLoader.cpp:43-61 | no file gives no mesh and changes nothing; otherwise the mesh is the load's and is kept, or none (the dropped mesh) when the load fails; the header is what the version switch left |
| Loader.ReadSequenceTracks | src/Client/GUI/CM2MeshFileLoader.cpp:280-394 | the per-sequence pass yields ModernBones, and fails exactly when some table lies outside its file |
| Loader.NextSequence | src/Client/GUI/CM2MeshFileLoader.cpp:282-303 | one round adds sequence i to every bone, or skips it when its .anim file is missing |
| Loader.ReadTextureTables | src/Client/GUI/CM2MeshFileLoader.cpp:684-736 | the four reads of ReadTextureDefinitions yield WithTextures, exactly when they fit |
| Loader.SkippedStep | src/Client/GUI/CM2MeshFileLoader.cpp:290-297 | a sequence whose .anim file is missing leaves every bone unchanged |
| SubmeshOrder.Swap | src/Client/GUI/CM2MeshFileLoader.h:310-312 | the exchange through a temporary swaps two records and keeps the rest |
| SubmeshOrder.SortDistance | src/Client/GUI/CM2MeshFileLoader.h:301-316 | the result is a permutation in non-increasing Distance |
| SubmeshOrder.SortSizeBracketByMode | src/Client/GUI/CM2MeshFileLoader.h:359-382 | the result is a permutation in non-decreasing Textures[0].Mode |
| SubmeshOrder.SortModeByBlock | src/Client/GUI/CM2MeshFileLoader.h:385-408 | a permutation that keeps the Mode at every index, with same-Mode records in non-decreasing Block |
| SubmeshOrder.HighLowStep | src/Client/GUI/CM2MeshFileLoader.h:444-455 | one comparison of sortPointHighLow keeps the processed pairs ordered |
| SubmeshOrder.SortPointHighLow | src/Client/GUI/CM2MeshFileLoader.h:436-459 | always a permutation; when records sharing a spot share a SortPoint, non-increasing SortPoint and the higher block later within a spot |
| SubmeshOrder.SortRadius | src/Client/GUI/CM2MeshFileLoader.h:411-433 | a permutation of b..B only; index b holds the smallest Radius and b+1..B end up non-increasing |
| SubmeshOrder.RadiusRowStep | src/Client/GUI/CM2MeshFileLoader.h:419-424 | one comparison of sortRadius keeps the row invariant |
| SubmeshOrder.SortRadiusExample | src/Client/GUI/CM2MeshFileLoader.h:415-424 | radii 1, 2, 3 come out as 1, 3, 2 |
| SubmeshOrder.SortRadiusAscending | src/Client/GUI/CM2MeshFileLoader.h:411-433 | with the inner loop from i+1: a permutation of b..B into ascending Radius |
| SubmeshOrder.EraseUndoesInsert | src/Client/GUI/CM2MeshFileLoader.h:349-350 | erase(p) undoes insert(x, p) |
| SubmeshOrder.InsertAtPermutes | src/Client/GUI/CM2MeshFileLoader.h:350 | insert(x, p) adds x and keeps every other element |
| SubmeshOrder.EraseInsertPermutes | src/Client/GUI/CM2MeshFileLoader.h:348-350 | erasing a decal and inserting it again keeps the same elements |
| SubmeshOrder.FindBackdrop | src/Client/GUI/CM2MeshFileLoader.h:324-354 | the backward search finds the nearest preceding backdrop (BlendFlag < 2, centre of mass within the radius in Y and in X or Z), or -1 |
| SubmeshOrder.Relocate | src/Client/GUI/CM2MeshFileLoader.h:348-351 | erase(i) then insert at p: same multiset, decal at p, the records between shift up by one |
| SubmeshOrder.DecalStep | src/Client/GUI/CM2MeshFileLoader.h:322-355 | one outer pass keeps length and multiset and never touches later records |
| SubmeshOrder.DropDecalsToTheirBackdrops | src/Client/GUI/CM2MeshFileLoader.h:318-357 | the whole pass keeps length and multiset |
| SubmeshOrder.DropDecal | src/Client/GUI/CM2MeshFileLoader.h:322-355 | the search-and-move loop for one decal computes DecalStep |
| SubmeshOrder.DecalLandsAfterNearestBackdrop | src/Client/GUI/CM2MeshFileLoader.h:346-351 | a decal moves directly after its nearest preceding backdrop, and nothing before it moves |
| SubmeshOrder.DecalStaysWithoutBackdrop | src/Client/GUI/CM2MeshFileLoader.h:325-354 | a decal with no backdrop before it stays in place |
| SubmeshOrder.FindStart | src/Client/GUI/CM2MeshFileLoader.h:469-478 | the forward search stops one before the first record nearer than the overlay |
| SubmeshOrder.FindHost | src/Client/GUI/CM2MeshFileLoader.h:479-496 | the backward search finds the nearest record at or before d whose X/Y extents contain the overlay |
| SubmeshOrder.PlaceOnePermutes | src/Client/GUI/CM2MeshFileLoader.h:491 | placing one overlay adds it and keeps every record |
| SubmeshOrder.OverlaysFromPermutes | src/Client/GUI/CM2MeshFileLoader.h:465-497 | the placed overlays are exactly the processed ones, added to the destination |
| SubmeshOrder.OverlayLandsOnHost | src/Client/GUI/CM2MeshFileLoader.h:488-494 | an overlay lands directly after a covering record, and the records before it stay put |
| SubmeshOrder.SearchStart | src/Client/GUI/CM2MeshFileLoader.h:470-478 | the while loop computes StartFor; Position is searched once and then kept |
| SubmeshOrder.SearchHost | src/Client/GUI/CM2MeshFileLoader.h:481-496 | the backward loop computes FindHost |
| SubmeshOrder.PlaceOverlays | src/Client/GUI/CM2MeshFileLoader.h:465-497 | the overlay loop over the first n overlays computes OverlaysFrom |
| SubmeshOrder.InsertOverlaysSpec | src/Client/GUI/CM2MeshFileLoader.h:461-499 | an empty overlay list fails (size()-1 underflows); otherwise the result holds the destination plus the first size()-1 overlays |
| SubmeshOrder.InsertOverlays | src/Client/GUI/CM2MeshFileLoader.h:461-499 | the nested search loops compute InsertOverlaysSpec, so the result is the destination plus every overlay but the last |
| SubmeshOrder.LastOverlayDropped | src/Client/GUI/CM2MeshFileLoader.h:465 | with one overlay the loop runs zero times |
| SubmeshOrder.InsertAllOverlays | src/Client/GUI/CM2MeshFileLoader.h:465 | with the bound size(), the result holds the destination plus every overlay |
| SceneOrder.FarthestToNearest | src/Client/GUI/CM2MeshSceneNode.h:289-318 | no value is returned exactly on overlap with both tags containing the camera |
| SceneOrder.OverlapNeedsNearerA | src/Client/GUI/CM2MeshSceneNode.h:292 | the overlap test passes only when b.nearDist > a.nearDist |
| SceneOrder.Irreflexive | src/Client/GUI/CM2MeshSceneNode.h:289-318 | FarthestToNearest(a, a) is false |
| SceneOrder.FarEdgeFallback | src/Client/GUI/CM2MeshSceneNode.h:314-317 | when b.nearDist <= a.nearDist the result is a.farDist > b.farDist |
| SceneOrder.OverlapBranches | src/Client/GUI/CM2MeshSceneNode.h:295-311 | overlap without camera gives false; a alone: a.far > b.near; b alone: a.near < b.far; both: no value |
| SceneOrder.MissingReturnExample | src/Client/GUI/CM2MeshSceneNode.h:292-312 | two overlapping tags that both contain the camera get no return value |
| SceneOrder.OverlapMissedExample | src/Client/GUI/CM2MeshSceneNode.h:292 | a = [5, 10] inside b = [2, 12] is not an overlap for the test as written |
| SceneOrder.FarthestToNearestIntended | src/Client/GUI/CM2MeshSceneNode.h:291-317 | with the symmetric overlap test, the far edges decide when there is no overlap or both tags contain the camera |
| SceneOrder.IntendedIsAsymmetric | src/Client/GUI/CM2MeshSceneNode.h:294-298 | without the camera the corrected comparator is irreflexive and asymmetric, and orders overlapping tags by near edge |

## Left out

- Engine calls on float state are not modelled: addJoint, the key additions, addWeight, matrix products, quaternion normalize, recalculateBoundingBox, flipSurfaces and setHardwareMappingHint. Only the index, key and weight data passed to them is modelled.
- Texture file I/O is not modelled. MakeTextureFilename, findTexture, getTexture and IrrCreateIReadFileBasic become a set of texture names the driver can load.
- ReadColors, ReadColorsWOTLK, ReadLights and ReadLightsWOTLK are not modelled: their output is unused (the vertex-colour block is commented out).
- isALoadableFileExtension is not modelled. It is a string test outside the decoder.
- Float conversions are not modelled. The probability stays the stored integer (the source divides it by 32767.0f). The int16 decode divides exactly, over reals. MaterialTypeParam 0.5f and pack_texureBlendFunc become datatype values.
- Logging is not modelled, nor are the commented-out global-sequence and lookup readers.
- Everything in CM2MeshSceneNode.h except the comparator is left out: these are declarations with no visible logic.
- AnimatedMesh->BufferMap and M2MSkins belong to CM2Mesh, which is not part of this model. The sort helpers take them as an array or sequence parameter.
- The C++ header member starts uninitialised. The model's constructor zeroes it; every load reads over the previous image, as the source does.
- Loader.M2Loader.Load: reads past the end of a file are undefined in the source. Here they fail the load, as they do in every reader. A header read cut short by the end of the file is not modelled past the 0x14-byte prefix. After a failed load the staging arrays are left unspecified unless the version switch itself failed.
- Decoder.AnimSource: for an animation id of 10000 or more, or a sub-id of 100 or more, the source's sprintf writes past its 13-byte buffer (cpp:286-287), which is undefined behaviour. The model looks up the longer name instead. CompanionNames.AnimSuffixFits states exactly when the suffix fits.
- SubmeshOrder.SortDistance, SubmeshOrder.SortSizeBracketByMode, SubmeshOrder.SortModeByBlock: they require 1 to 0xFFFF records. size()-1 is unsigned, and the u16 inner index wraps on longer arrays.
- SubmeshOrder.SortRadius: it requires B < 0xFFFF, because the u16 index j would wrap and never pass B.
- SubmeshOrder.SortPointHighLow: the ordering is proved only when records that share a spot also share a SortPoint. Otherwise an exchange on the block test can undo SortPoint order.
- SubmeshOrder.DecalLandsAfterNearestBackdrop: proved for i <= 0x8000. Past that the s16 search index wraps; DecalStep models the wrap.
- SubmeshOrder.DropDecalsToTheirBackdrops: works on a sequence, not an array in place, because of erase and insert. The skin geometry is a separate parameter.
- SubmeshOrder.InsertOverlays: works on sequences, not in place. A search that runs off either end of the destination (undefined in the source) gives None.
- Timeline.TimelineAdjacent: proved while the total timeline fits in a u32. Past that the start wraps, as Timeline.TimelineWraps shows.

## Findings

| source | as written | input that shows it | evidently intended | confidence | as-written member | corrected member |
|---|---|---|---|---|---|---|
| src/Client/GUI/CM2MeshSceneNode.h:292 | both disjuncts of the overlap test require b.nearDist > a.nearDist | a = [5, 10], b = [2, 12], no camera: not an overlap, far edges decide (false) | the second disjunct tests a.nearDist > b.nearDist, so either interval may start first; near edges then decide (true) | medium, not executed | SceneOrder.OverlapMissedExample | SceneOrder.FarthestToNearestIntended |
| src/Client/GUI/CM2MeshSceneNode.h:292-312 | the overlap branch has no return when both tags contain the camera | a = [1, 10], b = [2, 8], both containing the camera | fall back to the far-edge comparison, as the comment at line 313 says for all other cases | high, not executed | SceneOrder.MissingReturnExample | SceneOrder.FarthestToNearestIntended |
| src/Client/GUI/CM2MeshFileLoader.h:417 | the inner loop of sortRadius starts at b+1 for every row | radii 1, 2, 3 over 0..2 come out as 1, 3, 2 | the inner loop starts at i+1, sorting b..B by ascending Radius | medium, not executed | SubmeshOrder.SortRadiusExample | SubmeshOrder.SortRadiusAscending |
| src/Client/GUI/CM2MeshFileLoader.h:465 | the overlay loop runs while O < size()-1 | one overlay: it is never inserted | the loop runs while O < size(), so every overlay is inserted | medium, not executed | SubmeshOrder.LastOverlayDropped | SubmeshOrder.InsertAllOverlays |
