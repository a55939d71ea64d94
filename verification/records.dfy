/**
 * The record layouts of the M2 format as the loader reads them: chunk
 * references, the file header (as the byte image of the C++ structure), views,
 * submeshes, texture units, texture definitions, render flags, vertices,
 * animation sequences and bones. Floats are kept as their raw 32-bit words.
 */
module Records {
  import opened Bytes
  import opened Geometry

  /** numofs: a table of `num` records at file offset `ofs`. */
  datatype NumOfs = NumOfs(num: nat, ofs: nat)

  const NUM_OFS_SIZE: nat := 8

  function NumOfsAt(s: seq<byte>, p: nat): (r: NumOfs)
    ensures r.num < U32_RANGE && r.ofs < U32_RANGE
  {
    NumOfs(U32At(s, p), U32At(s, p + 4))
  }

  /** The eight bytes of a chunk reference. */
  function EncodeNumOfs(r: NumOfs): (b: seq<byte>)
    requires r.num < U32_RANGE && r.ofs < U32_RANGE
    ensures |b| == NUM_OFS_SIZE
  {
    LeU32(r.num) + LeU32(r.ofs)
  }

  /** A chunk reference survives being written and read back. */
  lemma NumOfsRoundTrip(r: NumOfs, pre: seq<byte>, post: seq<byte>)
    requires r.num < U32_RANGE && r.ofs < U32_RANGE
    ensures NumOfsAt(pre + EncodeNumOfs(r) + post, |pre|) == r
  {
    var s := pre + EncodeNumOfs(r) + post;
    assert s == pre + LeU32(r.num) + (LeU32(r.ofs) + post);
    assert s == (pre + LeU32(r.num)) + LeU32(r.ofs) + post;
    U32RoundTrip(r.num, pre, LeU32(r.ofs) + post);
    U32RoundTrip(r.ofs, pre + LeU32(r.num), post);
  }

  /** A chunk reference inside a window reads the same as in the whole image. */
  lemma NumOfsLocal(s: seq<byte>, p: nat, w: seq<byte>, q: nat)
    requires p + |w| <= |s| && w == s[p..p + |w|] && q + NUM_OFS_SIZE <= |w|
    ensures NumOfsAt(w, q) == NumOfsAt(s, p + q)
  {
    U32Local(s, p, w, q);
    U32Local(s, p, w, q + 4);
  }

  /** Three float words. */
  function Vec3At(s: seq<byte>, p: nat): (r: Vec3<nat>)
    ensures r.x < U32_RANGE && r.y < U32_RANGE && r.z < U32_RANGE
  {
    Vec3(U32At(s, p), U32At(s, p + 4), U32At(s, p + 8))
  }

  /** Three float words inside a window read the same as in the whole image. */
  lemma Vec3Local(s: seq<byte>, p: nat, w: seq<byte>, q: nat)
    requires p + |w| <= |s| && w == s[p..p + |w|] && q + 12 <= |w|
    ensures Vec3At(w, q) == Vec3At(s, p + q)
  {
    U32Local(s, p, w, q);
    U32Local(s, p, w, q + 4);
    U32Local(s, p, w, q + 8);
  }

  // ---------------------------------------------------------------------------
  // ModelHeader, kept as the 0x144-byte image of the structure, so that a read
  // into a byte range of it is modelled exactly.
  // ---------------------------------------------------------------------------

  const HEADER_SIZE: nat := 0x144
  /** The part read before the version is known: id, version, name, type. */
  const HEADER_PREFIX: nat := 0x14
  /** The 0x108 header on disk: the structure without D, Views.ofs and I. */
  const MODERN_HEADER_SIZE: nat := 0x130

  const VERSION: nat := 0x04
  const GLOBAL_SEQUENCES: nat := 0x14
  const ANIMATIONS: nat := 0x1C
  const ANIMATION_LOOKUP: nat := 0x24
  const D: nat := 0x2C
  const BONES: nat := 0x34
  const VERTICES: nat := 0x44
  const VIEWS: nat := 0x4C
  const COLORS: nat := 0x54
  const TEXTURES: nat := 0x5C
  const I: nat := 0x6C
  const TEX_ANIMS: nat := 0x74
  const TEX_FLAGS: nat := 0x84
  const TEX_LOOKUP: nat := 0x94

  function Version(h: seq<byte>): (r: nat)
    ensures r < U32_RANGE
  {
    U32At(h, VERSION)
  }

  /** The chunk reference stored at byte `field` of the header image. */
  function HeaderRef(h: seq<byte>, field: nat): (r: NumOfs)
    ensures r.num < U32_RANGE && r.ofs < U32_RANGE
  {
    NumOfsAt(h, field)
  }

  /**
   * The 0x108 header: the first 0x14 bytes, then the file's bytes from 0x14 on
   * placed in four ranges of the structure (at 0x14, 0x34, 0x54 and 0x74).
   * The three gaps (D, Views.ofs, I) keep what `prev` held there.
   */
  function ModernHeader(file: seq<byte>, prev: seq<byte>): (r: seq<byte>)
    requires |file| >= MODERN_HEADER_SIZE && |prev| == HEADER_SIZE
    ensures |r| == HEADER_SIZE
    ensures forall k :: 0 <= k < 0x2C ==> r[k] == file[k]
    ensures forall k :: 0x34 <= k < 0x50 ==> r[k] == file[k - 0x08]
    ensures forall k :: 0x54 <= k < 0x6C ==> r[k] == file[k - 0x0C]
    ensures forall k :: 0x74 <= k < HEADER_SIZE ==> r[k] == file[k - 0x14]
    ensures forall k :: (0x2C <= k < 0x34 || 0x50 <= k < 0x54 || 0x6C <= k < 0x74) ==> r[k] == prev[k]
  {
    file[..0x2C] + prev[0x2C..0x34] + file[0x2C..0x48] + prev[0x50..0x54]
    + file[0x48..0x60] + prev[0x6C..0x74] + file[0x60..MODERN_HEADER_SIZE]
  }

  /** How a header image is laid out in a 0x108 file: D, Views.ofs and I are absent. */
  function CompactHeader(h: seq<byte>): (r: seq<byte>)
    requires |h| == HEADER_SIZE
    ensures |r| == MODERN_HEADER_SIZE
  {
    h[..0x2C] + h[0x34..0x50] + h[0x54..0x6C] + h[0x74..]
  }

  /** Reading a 0x108 header back gives the image, except the three absent fields, which keep prev. */
  lemma ModernHeaderRoundTrip(h: seq<byte>, prev: seq<byte>, rest: seq<byte>)
    requires |h| == HEADER_SIZE && |prev| == HEADER_SIZE
    ensures var r := ModernHeader(CompactHeader(h) + rest, prev);
            (forall k :: 0 <= k < HEADER_SIZE && !(0x2C <= k < 0x34 || 0x50 <= k < 0x54 || 0x6C <= k < 0x74) ==> r[k] == h[k])
            && r[0x2C..0x34] == prev[0x2C..0x34] && r[0x50..0x54] == prev[0x50..0x54] && r[0x6C..0x74] == prev[0x6C..0x74]
  {
  }

  /** When prev already holds the image, the 0x108 reads reproduce it exactly. */
  lemma ModernHeaderRestores(h: seq<byte>, rest: seq<byte>)
    requires |h| == HEADER_SIZE
    ensures ModernHeader(CompactHeader(h) + rest, h) == h
  {
    var r := ModernHeader(CompactHeader(h) + rest, h);
    ModernHeaderRoundTrip(h, h, rest);
    assert forall k :: 0 <= k < HEADER_SIZE ==> r[k] == h[k];
  }

  // ---------------------------------------------------------------------------
  // View data.
  // ---------------------------------------------------------------------------

  /** ModelView: the five tables of a view and its LOD word. */
  datatype ModelView = ModelView(index: NumOfs, triangle: NumOfs, properties: NumOfs,
                                 submesh: NumOfs, tex: NumOfs, lod: nat)

  const MODEL_VIEW_SIZE: nat := 44

  function ModelViewAt(s: seq<byte>, p: nat): (r: ModelView)
    ensures r.lod < U32_RANGE
  {
    ModelView(NumOfsAt(s, p), NumOfsAt(s, p + 8), NumOfsAt(s, p + 16),
              NumOfsAt(s, p + 24), NumOfsAt(s, p + 32), U32At(s, p + 40))
  }

  /** ModelViewSubmesh: the vertex and triangle window of one submesh and its bounds. */
  datatype ViewSubmesh = ViewSubmesh(meshpartId: nat, ofsVertex: nat, nVertex: nat, ofsTris: nat, nTris: nat,
                                     nBone: nat, ofsBone: nat, centerOfMass: Vec3<nat>, bb: Vec3<nat>, radius: nat)

  const SUBMESH_SIZE: nat := 48
  /** Version 0x100 submeshes end after CenterOfMass. */
  const LEGACY_SUBMESH_SIZE: nat := 32

  function SubmeshStride(version: nat): (r: nat)
    ensures r == LEGACY_SUBMESH_SIZE <==> version == 0x100
    ensures r == SUBMESH_SIZE <==> version != 0x100
  {
    if version == 0x100 then LEGACY_SUBMESH_SIZE else SUBMESH_SIZE
  }

  /**
   * A submesh record. A short (version 0x100) read does not reach BB and
   * Radius, so those keep the values of the reused temporary `stale`.
   */
  function SubmeshAt(s: seq<byte>, p: nat, stride: nat, stale: ViewSubmesh): (r: ViewSubmesh)
    ensures r.ofsVertex < U16_RANGE && r.nVertex < U16_RANGE && r.ofsTris < U16_RANGE && r.nTris < U16_RANGE
    ensures stride < SUBMESH_SIZE ==> r.bb == stale.bb && r.radius == stale.radius
  {
    var center := Vec3At(s, p + 20);
    var head := ViewSubmesh(U32At(s, p), U16At(s, p + 4), U16At(s, p + 6), U16At(s, p + 8), U16At(s, p + 10),
                            U16At(s, p + 12), U16At(s, p + 14), center, stale.bb, stale.radius);
    if stride < SUBMESH_SIZE then head
    else head.(bb := Vec3At(s, p + 32), radius := U32At(s, p + 44))
  }

  /** A submesh record reads only the bytes of its own stride. */
  lemma SubmeshStrideLocal(s: seq<byte>, p: nat, version: nat, stale: ViewSubmesh)
    requires p + SubmeshStride(version) <= |s|
    ensures var n := SubmeshStride(version);
            SubmeshAt(s, p, n, stale) == SubmeshAt(s[p..p + n], 0, n, stale)
  {
    var n := SubmeshStride(version);
    var w := s[p..p + n];
    Window(s, p, w);
    Vec3Local(s, p, w, 20);
    if n == SUBMESH_SIZE {
      Vec3Local(s, p, w, 32);
      U32Local(s, p, w, 44);
    }
  }

  /** TextureUnit: which submesh, texture, render flags and texture slot a unit binds. */
  datatype TextureUnit = TextureUnit(flags: nat, renderOrder: int, submeshIndex1: nat, submeshIndex2: nat,
                                     colorIndex: int, renderFlagsIndex: nat, textureUnitNumber: nat, mode: nat,
                                     textureIndex: nat, textureUnitNumber2: nat, transparencyIndex: nat,
                                     texAnimIndex: nat)

  const TEXTURE_UNIT_SIZE: nat := 24

  function TextureUnitAt(s: seq<byte>, p: nat): (r: TextureUnit)
    ensures r.submeshIndex1 < U16_RANGE && r.renderFlagsIndex < U16_RANGE && r.textureIndex < U16_RANGE
    ensures -0x8000 <= r.renderOrder < 0x8000 && -0x8000 <= r.colorIndex < 0x8000
  {
    TextureUnit(U16At(s, p), S16At(s, p + 2), U16At(s, p + 4), U16At(s, p + 6), S16At(s, p + 8),
                U16At(s, p + 10), U16At(s, p + 12), U16At(s, p + 14), U16At(s, p + 16), U16At(s, p + 18),
                U16At(s, p + 20), U16At(s, p + 22))
  }

  /** A texture unit record reads only its own 24 bytes. */
  lemma TextureUnitLocal(s: seq<byte>, p: nat)
    requires p + TEXTURE_UNIT_SIZE <= |s|
    ensures TextureUnitAt(s, p) == TextureUnitAt(s[p..p + TEXTURE_UNIT_SIZE], 0)
  {
    Window(s, p, s[p..p + TEXTURE_UNIT_SIZE]);
  }

  /** TextureDefinition: type, flags and where the file name is. */
  datatype TextureDefinition = TextureDefinition(texType: nat, unk: nat, texFlags: nat, texFileLen: nat, texFileOfs: nat)

  const TEXTURE_DEFINITION_SIZE: nat := 16

  function TextureDefinitionAt(s: seq<byte>, p: nat): (r: TextureDefinition)
    ensures r.texFileLen < U32_RANGE && r.texFileOfs < U32_RANGE
  {
    TextureDefinition(U32At(s, p), U16At(s, p + 4), U16At(s, p + 6), U32At(s, p + 8), U32At(s, p + 12))
  }

  /** RenderFlags: the flag bits and the blending mode of a material. */
  datatype RenderFlags = RenderFlags(flags: nat, blending: nat)

  const RENDER_FLAGS_SIZE: nat := 4

  function RenderFlagsAt(s: seq<byte>, p: nat): (r: RenderFlags)
    ensures r.flags < U16_RANGE && r.blending < U16_RANGE
  {
    RenderFlags(U16At(s, p), U16At(s, p + 2))
  }

  /** The four bone slots of a vertex record (u8 weights[4] or u8 bones[4]). */
  type Slots = s: seq<nat> | |s| == 4 witness [0, 0, 0, 0]

  /** ModelVertex: position, four bone weights and indices, normal and texture coordinates. */
  datatype ModelVertex = ModelVertex(pos: Vec3<nat>, weights: Slots, bones: Slots, normal: Vec3<nat>,
                                     texU: nat, texV: nat)

  const MODEL_VERTEX_SIZE: nat := 48

  /** A vertex record as stored, Z-up. */
  function ModelVertexAt(s: seq<byte>, p: nat): (r: ModelVertex)
    ensures forall k :: 0 <= k < 4 ==> r.weights[k] < 0x100 && r.bones[k] < 0x100
  {
    ModelVertex(Vec3At(s, p),
                [ByteAt(s, p + 12), ByteAt(s, p + 13), ByteAt(s, p + 14), ByteAt(s, p + 15)],
                [ByteAt(s, p + 16), ByteAt(s, p + 17), ByteAt(s, p + 18), ByteAt(s, p + 19)],
                Vec3At(s, p + 20), U32At(s, p + 32), U32At(s, p + 36))
  }

  /** A vertex as ReadVertices keeps it: position and normal turned Y-up. */
  function FixedVertexAt(s: seq<byte>, p: nat): (r: ModelVertex)
    ensures var v := ModelVertexAt(s, p);
            r.pos == FixCoordSystem(v.pos) && r.normal == FixCoordSystem(v.normal)
            && r.weights == v.weights && r.bones == v.bones && r.texU == v.texU && r.texV == v.texV
  {
    var v := ModelVertexAt(s, p);
    v.(pos := FixCoordSystem(v.pos), normal := FixCoordSystem(v.normal))
  }

  /** A vertex record reads only its own 48 bytes. */
  lemma ModelVertexLocal(s: seq<byte>, p: nat)
    requires p + MODEL_VERTEX_SIZE <= |s|
    ensures ModelVertexAt(s, p) == ModelVertexAt(s[p..p + MODEL_VERTEX_SIZE], 0)
  {
    var w := s[p..p + MODEL_VERTEX_SIZE];
    Window(s, p, w);
    Vec3Local(s, p, w, 0);
    Vec3Local(s, p, w, 20);
    U32Local(s, p, w, 32);
    U32Local(s, p, w, 36);
  }

  // ---------------------------------------------------------------------------
  // Animation sequences.
  // ---------------------------------------------------------------------------

  /**
   * Animation as the loader keeps it. `probability` is the stored integer; the
   * source divides it by 32767 into a float.
   */
  datatype Animation = Animation(animationID: nat, subanimationID: nat, start: nat, end: nat, flags: nat, probability: nat)

  const RAW_ANIMATION_SIZE: nat := 68
  const RAW_ANIMATION_MODERN_SIZE: nat := 64

  /** RawAnimation (before 0x108): start and end are stored. */
  function LegacyAnimationAt(s: seq<byte>, p: nat): (r: Animation)
    ensures r.start == U32At(s, p + 4) && r.end == U32At(s, p + 8)
    ensures r.subanimationID == 0 && r.flags == 0
  {
    Animation(U32At(s, p), 0, U32At(s, p + 4), U32At(s, p + 8), 0, U32At(s, p + 20))
  }

  /** The fields of a RawAnimationWOTLK the loader uses. */
  datatype RawSequence = RawSequence(animationID: nat, subanimationID: nat, length: nat, flags: nat, probability: nat)

  function RawSequenceAt(s: seq<byte>, p: nat): (r: RawSequence)
    ensures r.animationID < U16_RANGE && r.subanimationID < U16_RANGE && r.length < U32_RANGE
  {
    RawSequence(U16At(s, p), U16At(s, p + 2), U32At(s, p + 4), U32At(s, p + 12), U16At(s, p + 16))
  }

  // ---------------------------------------------------------------------------
  // Bones.
  // ---------------------------------------------------------------------------

  /** AnimBlockHead without InterpolationRanges, which the loader never uses. */
  datatype AnimBlockHead = AnimBlockHead(interpolationType: int, globalSequence: int, timestamps: NumOfs, values: NumOfs)

  const LEGACY_BLOCK_HEAD_SIZE: nat := 28
  const MODERN_BLOCK_HEAD_SIZE: nat := 20

  /** The legacy header: the two s16 words, InterpolationRanges, TimeStamp, Values. */
  function LegacyBlockHeadAt(s: seq<byte>, p: nat): (r: AnimBlockHead)
    ensures r.timestamps == NumOfsAt(s, p + 12) && r.values == NumOfsAt(s, p + 20)
  {
    AnimBlockHead(S16At(s, p), S16At(s, p + 2), NumOfsAt(s, p + 12), NumOfsAt(s, p + 20))
  }

  /** The 0x108 header: the two s16 words, then TimeStamp and Values directly. */
  function ModernBlockHeadAt(s: seq<byte>, p: nat): (r: AnimBlockHead)
    ensures r.timestamps == NumOfsAt(s, p + 4) && r.values == NumOfsAt(s, p + 12)
  {
    AnimBlockHead(S16At(s, p), S16At(s, p + 2), NumOfsAt(s, p + 4), NumOfsAt(s, p + 12))
  }

  /** A keyframe value: a raw float word, or an int16-quantised component decoded to a real. */
  datatype TrackValue = Float(bits: nat) | Unit(value: real)

  /** AnimBlock: a track header and the keyframes gathered for it. */
  datatype Track = Track(head: AnimBlockHead, timestamps: seq<nat>, values: seq<TrackValue>)

  /** Bone: parent, the three tracks and the pivot point (already Y-up). */
  datatype Bone = Bone(skelBoneIndex: int, flags: nat, parentBone: int,
                       translation: Track, rotation: Track, scaling: Track, pivot: Vec3<nat>)

  /** The legacy bone prefix: 12 bytes on 0x100, 16 otherwise. */
  function LegacyBonePrefix(version: nat): (r: nat)
    ensures r == (if version == 0x100 then 12 else 16)
  {
    if version == 0x100 then 12 else 16
  }

  const MODERN_BONE_SIZE: nat := 88

  function LegacyBoneSize(version: nat): (r: nat)
    ensures r == LegacyBonePrefix(version) + 3 * LEGACY_BLOCK_HEAD_SIZE + 12
  {
    LegacyBonePrefix(version) + 3 * LEGACY_BLOCK_HEAD_SIZE + 12
  }

  /** A legacy bone record; the tracks start with no keyframes. */
  function LegacyBoneAt(s: seq<byte>, p: nat, version: nat): (r: Bone)
    ensures -0x8000 <= r.parentBone < 0x8000
    ensures r.translation.timestamps == [] && r.rotation.timestamps == [] && r.scaling.timestamps == []
    ensures r.translation.values == [] && r.rotation.values == [] && r.scaling.values == []
  {
    var h := p + LegacyBonePrefix(version);
    Bone(S32At(s, p), U32At(s, p + 4), S16At(s, p + 8),
         Track(LegacyBlockHeadAt(s, h), [], []),
         Track(LegacyBlockHeadAt(s, h + LEGACY_BLOCK_HEAD_SIZE), [], []),
         Track(LegacyBlockHeadAt(s, h + 2 * LEGACY_BLOCK_HEAD_SIZE), [], []),
         FixCoordSystem(Vec3At(s, h + 3 * LEGACY_BLOCK_HEAD_SIZE)))
  }

  /** A 0x108 bone record; the tracks start with no keyframes. */
  function ModernBoneAt(s: seq<byte>, p: nat): (r: Bone)
    ensures -0x8000 <= r.parentBone < 0x8000
    ensures r.translation.timestamps == [] && r.rotation.timestamps == [] && r.scaling.timestamps == []
    ensures r.translation.values == [] && r.rotation.values == [] && r.scaling.values == []
  {
    Bone(S32At(s, p), U32At(s, p + 4), S16At(s, p + 8),
         Track(ModernBlockHeadAt(s, p + 16), [], []),
         Track(ModernBlockHeadAt(s, p + 36), [], []),
         Track(ModernBlockHeadAt(s, p + 56), [], []),
         FixCoordSystem(Vec3At(s, p + 76)))
  }

  /** A legacy bone record reads only its own stride (108 or 112 bytes). */
  lemma LegacyBoneLocal(s: seq<byte>, p: nat, version: nat)
    requires p + LegacyBoneSize(version) <= |s|
    ensures var n := LegacyBoneSize(version);
            LegacyBoneAt(s, p, version) == LegacyBoneAt(s[p..p + n], 0, version)
  {
    var n := LegacyBoneSize(version);
    var h := LegacyBonePrefix(version);
    var w := s[p..p + n];
    Window(s, p, w);
    U32Local(s, p, w, 0);
    U32Local(s, p, w, 4);
    U32Local(s, p, w, 8);
    LegacyBlockHeadLocal(s, p, w, h);
    LegacyBlockHeadLocal(s, p, w, h + LEGACY_BLOCK_HEAD_SIZE);
    LegacyBlockHeadLocal(s, p, w, h + 2 * LEGACY_BLOCK_HEAD_SIZE);
    Vec3Local(s, p, w, h + 3 * LEGACY_BLOCK_HEAD_SIZE);
  }

  lemma LegacyBlockHeadLocal(s: seq<byte>, p: nat, w: seq<byte>, q: nat)
    requires p + |w| <= |s| && w == s[p..p + |w|] && q + LEGACY_BLOCK_HEAD_SIZE <= |w|
    ensures LegacyBlockHeadAt(w, q) == LegacyBlockHeadAt(s, p + q)
  {
    U32Local(s, p, w, q);
    NumOfsLocal(s, p, w, q + 12);
    NumOfsLocal(s, p, w, q + 20);
  }

  lemma ModernBlockHeadLocal(s: seq<byte>, p: nat, w: seq<byte>, q: nat)
    requires p + |w| <= |s| && w == s[p..p + |w|] && q + MODERN_BLOCK_HEAD_SIZE <= |w|
    ensures ModernBlockHeadAt(w, q) == ModernBlockHeadAt(s, p + q)
  {
    U32Local(s, p, w, q);
    NumOfsLocal(s, p, w, q + 4);
    NumOfsLocal(s, p, w, q + 12);
  }

  /** A 0x108 bone record reads only its own 88 bytes. */
  lemma ModernBoneLocal(s: seq<byte>, p: nat)
    requires p + MODERN_BONE_SIZE <= |s|
    ensures ModernBoneAt(s, p) == ModernBoneAt(s[p..p + MODERN_BONE_SIZE], 0)
  {
    var w := s[p..p + MODERN_BONE_SIZE];
    U32Local(s, p, w, 0);
    U32Local(s, p, w, 4);
    U32Local(s, p, w, 8);
    ModernBlockHeadLocal(s, p, w, 16);
    ModernBlockHeadLocal(s, p, w, 36);
    ModernBlockHeadLocal(s, p, w, 56);
    Vec3Local(s, p, w, 76);
  }
}
