/**
 * What each reader of the loader produces from the file bytes: one function
 * per table, and one predicate per reader saying that every table it reads
 * lies inside its file. The loader's methods are proved against these.
 */
module Decoder {
  import opened Common
  import opened Bytes
  import opened Geometry
  import opened Records
  import opened Timeline
  import opened Tracks
  import opened CompanionNames

  // ---------------------------------------------------------------------------
  // ReadViewData: indices, triangles, submeshes and texture units of a view,
  // read from the model file (before 0x108) or the skin file (0x108).
  // ---------------------------------------------------------------------------

  /** The temporary the submesh records are read into starts out zeroed. */
  const STALE_SUBMESH: ViewSubmesh := ViewSubmesh(0, 0, 0, 0, 0, 0, 0, Vec3(0, 0, 0), Vec3(0, 0, 0), 0)

  predicate ViewDataFits(file: seq<byte>, v: ModelView, version: nat)
  {
    Fits(file, v.index.ofs, v.index.num, 2) && Fits(file, v.triangle.ofs, v.triangle.num, 2)
    && Fits(file, v.submesh.ofs, v.submesh.num, SubmeshStride(version))
    && Fits(file, v.tex.ofs, v.tex.num, TEXTURE_UNIT_SIZE)
  }

  /** The submesh record decoder of a version, with its stride. */
  function SubmeshDecoder(version: nat): (f: (seq<byte>, nat) -> ViewSubmesh)
  {
    (s: seq<byte>, p: nat) => SubmeshAt(s, p, SubmeshStride(version), STALE_SUBMESH)
  }

  function ViewSubmeshes(file: seq<byte>, v: ModelView, version: nat): (r: seq<ViewSubmesh>)
    ensures |r| == v.submesh.num
    ensures forall k :: 0 <= k < |r| ==> r[k] == SubmeshAt(file, v.submesh.ofs + k * SubmeshStride(version), SubmeshStride(version), STALE_SUBMESH)
  {
    Table(file, v.submesh.ofs, v.submesh.num, SubmeshStride(version), SubmeshDecoder(version))
  }

  /** On version 0x100 no submesh gets a bounding box or radius of its own. */
  lemma LegacySubmeshesShareBounds(file: seq<byte>, v: ModelView)
    ensures forall k :: 0 <= k < v.submesh.num ==>
              ViewSubmeshes(file, v, 0x100)[k].bb == STALE_SUBMESH.bb && ViewSubmeshes(file, v, 0x100)[k].radius == 0
  {
  }

  // ---------------------------------------------------------------------------
  // ReadVertices.
  // ---------------------------------------------------------------------------

  predicate VerticesFit(mesh: seq<byte>, h: seq<byte>)
  {
    Fits(mesh, HeaderRef(h, VERTICES).ofs, HeaderRef(h, VERTICES).num, MODEL_VERTEX_SIZE)
  }

  /** The vertices, with position and normal turned Y-up. */
  function Vertices(mesh: seq<byte>, h: seq<byte>): (r: seq<ModelVertex>)
    ensures |r| == HeaderRef(h, VERTICES).num
  {
    Table(mesh, HeaderRef(h, VERTICES).ofs, HeaderRef(h, VERTICES).num, MODEL_VERTEX_SIZE, FixedVertexAt)
  }

  // ---------------------------------------------------------------------------
  // ReadTextureDefinitions: the lookup table, the definitions, the render
  // flags and the texture file names.
  // ---------------------------------------------------------------------------

  predicate TextureTablesFit(mesh: seq<byte>, h: seq<byte>)
  {
    Fits(mesh, HeaderRef(h, TEX_LOOKUP).ofs, HeaderRef(h, TEX_LOOKUP).num, 2)
    && Fits(mesh, HeaderRef(h, TEXTURES).ofs, HeaderRef(h, TEXTURES).num, TEXTURE_DEFINITION_SIZE)
    && Fits(mesh, HeaderRef(h, TEX_FLAGS).ofs, HeaderRef(h, TEX_FLAGS).num, RENDER_FLAGS_SIZE)
  }

  function TextureLookup(mesh: seq<byte>, h: seq<byte>): (r: seq<nat>)
    ensures |r| == HeaderRef(h, TEX_LOOKUP).num
  {
    Table(mesh, HeaderRef(h, TEX_LOOKUP).ofs, HeaderRef(h, TEX_LOOKUP).num, 2, U16At)
  }

  function TextureDefinitions(mesh: seq<byte>, h: seq<byte>): (r: seq<TextureDefinition>)
    ensures |r| == HeaderRef(h, TEXTURES).num
  {
    Table(mesh, HeaderRef(h, TEXTURES).ofs, HeaderRef(h, TEXTURES).num, TEXTURE_DEFINITION_SIZE, TextureDefinitionAt)
  }

  function RenderFlagsTable(mesh: seq<byte>, h: seq<byte>): (r: seq<RenderFlags>)
    ensures |r| == HeaderRef(h, TEX_FLAGS).num
    ensures forall k :: 0 <= k < |r| ==> r[k].flags < U16_RANGE
  {
    Table(mesh, HeaderRef(h, TEX_FLAGS).ofs, HeaderRef(h, TEX_FLAGS).num, RENDER_FLAGS_SIZE, RenderFlagsAt)
  }

  /** The file name bytes of every definition lie inside the file. */
  predicate NamesFit(mesh: seq<byte>, defs: seq<TextureDefinition>)
  {
    forall k :: 0 <= k < |defs| ==> Fits(mesh, defs[k].texFileOfs, defs[k].texFileLen, 1)
  }

  /** std::string::resize: truncate, or pad with zero bytes. */
  function Resize(buf: seq<byte>, n: nat): (r: seq<byte>)
    ensures |r| == n
    ensures forall k :: 0 <= k < n ==> r[k] == (if k < |buf| then buf[k] else 0)
  {
    if n <= |buf| then buf[..n] else buf + seq(n - |buf|, _ => 0)
  }

  /** c_str(): the bytes before the first zero byte, as characters. */
  function CString(buf: seq<byte>): (r: string)
    ensures |r| <= |buf|
    ensures forall k :: 0 <= k < |r| ==> buf[k] != 0 && r[k] == (buf[k] as int) as char
    ensures |r| < |buf| ==> buf[|r|] == 0
    decreases |buf|
  {
    if buf == [] || buf[0] == 0 then [] else [(buf[0] as int) as char] + CString(buf[1..])
  }

  /** Byte k of a definition's file name. */
  function NameByte(mesh: seq<byte>, d: TextureDefinition, k: nat): (r: nat)
    ensures r == ByteAt(mesh, d.texFileOfs + k) && r < 0x100
  {
    ByteAt(mesh, d.texFileOfs + k)
  }

  /**
   * Reading one name through the reused buffer: resize to len + 1, overwrite
   * the first len bytes with the file's bytes, take c_str(). Returns the name
   * and the buffer as it is left.
   */
  function ReadName(mesh: seq<byte>, d: TextureDefinition, buf: seq<byte>): (r: (string, seq<byte>))
    ensures |r.1| == d.texFileLen + 1
    ensures r.0 == CString(r.1)
    ensures forall k :: 0 <= k < d.texFileLen ==> r.1[k] as nat == NameByte(mesh, d, k)
    ensures r.1[d.texFileLen] == (if d.texFileLen < |buf| then buf[d.texFileLen] else 0)
  {
    var sized := Resize(buf, d.texFileLen + 1);
    var b := seq(d.texFileLen + 1, k requires 0 <= k <= d.texFileLen =>
                 if k < d.texFileLen then NameByte(mesh, d, k) as byte else sized[k]);
    (CString(b), b)
  }

  /**
   * A name whose bytes hold a zero is what precedes the first zero, whatever
   * the buffer held before.
   */
  lemma TerminatedName(mesh: seq<byte>, d: TextureDefinition, buf: seq<byte>, z: nat)
    requires z < d.texFileLen && NameByte(mesh, d, z) == 0
    requires forall k :: 0 <= k < z ==> NameByte(mesh, d, k) != 0
    ensures ReadName(mesh, d, buf).0 == seq(z, k requires 0 <= k < z => (NameByte(mesh, d, k) as int) as char)
  {
  }

  /** The names of the first n definitions, and the buffer after them. */
  function NamesUpTo(mesh: seq<byte>, defs: seq<TextureDefinition>, n: nat): (r: (seq<string>, seq<byte>))
    requires n <= |defs|
    ensures |r.0| == n
    decreases n
  {
    if n == 0 then ([], [])
    else
      var prev := NamesUpTo(mesh, defs, n - 1);
      var next := ReadName(mesh, defs[n - 1], prev.1);
      (prev.0 + [next.0], next.1)
  }

  function TextureNames(mesh: seq<byte>, defs: seq<TextureDefinition>): (r: seq<string>)
    ensures |r| == |defs|
  {
    NamesUpTo(mesh, defs, |defs|).0
  }

  /**
   * Without a zero among its bytes, a name is followed by whatever byte the
   * buffer kept at index len: a byte of a longer earlier name, or nothing.
   */
  lemma UnterminatedName(mesh: seq<byte>, d: TextureDefinition, buf: seq<byte>)
    requires forall k :: 0 <= k < d.texFileLen ==> NameByte(mesh, d, k) != 0
    ensures var stale := if d.texFileLen < |buf| then buf[d.texFileLen] else 0;
            ReadName(mesh, d, buf).0
            == seq(d.texFileLen, k requires 0 <= k < d.texFileLen => (NameByte(mesh, d, k) as int) as char)
               + (if stale != 0 then [(stale as int) as char] else [])
  {
  }

  /** "abcd" with its terminator, then "xy" without one, read as "abcd" and "xyc". */
  lemma UnterminatedNameExample(mesh: seq<byte>)
    requires mesh == [0x61, 0x62, 0x63, 0x64, 0x00, 0x78, 0x79]
    ensures TextureNames(mesh, [TextureDefinition(0, 0, 0, 5, 0), TextureDefinition(0, 0, 0, 2, 5)]) == ["abcd", "xyc"]
  {
    var defs := [TextureDefinition(0, 0, 0, 5, 0), TextureDefinition(0, 0, 0, 2, 5)];
    var first := ReadName(mesh, defs[0], []);
    FirstExampleName(mesh, defs[0]);
    SecondExampleName(mesh, defs[1], first.1);
    TwoNames(mesh, defs);
  }

  lemma FirstExampleName(mesh: seq<byte>, d: TextureDefinition)
    requires mesh == [0x61, 0x62, 0x63, 0x64, 0x00, 0x78, 0x79] && d == TextureDefinition(0, 0, 0, 5, 0)
    ensures ReadName(mesh, d, []).0 == "abcd" && ReadName(mesh, d, []).1[2] == 0x63
  {
    TerminatedName(mesh, d, [], 4);
  }

  lemma SecondExampleName(mesh: seq<byte>, d: TextureDefinition, buf: seq<byte>)
    requires mesh == [0x61, 0x62, 0x63, 0x64, 0x00, 0x78, 0x79] && d == TextureDefinition(0, 0, 0, 2, 5)
    requires |buf| > 2 && buf[2] == 0x63
    ensures ReadName(mesh, d, buf).0 == "xyc"
  {
    UnterminatedName(mesh, d, buf);
  }

  /** The names of two definitions, in terms of ReadName. */
  lemma TwoNames(mesh: seq<byte>, defs: seq<TextureDefinition>)
    requires |defs| == 2
    ensures var first := ReadName(mesh, defs[0], []);
            TextureNames(mesh, defs) == [first.0, ReadName(mesh, defs[1], first.1).0]
  {
    var n0 := NamesUpTo(mesh, defs, 0);
    assert n0.0 + [ReadName(mesh, defs[0], []).0] == [ReadName(mesh, defs[0], []).0];
  }

  // ---------------------------------------------------------------------------
  // ReadAnimationData.
  // ---------------------------------------------------------------------------

  function AnimationStride(version: nat): (r: nat)
    ensures r == if version < 0x108 then RAW_ANIMATION_SIZE else RAW_ANIMATION_MODERN_SIZE
  {
    if version < 0x108 then RAW_ANIMATION_SIZE else RAW_ANIMATION_MODERN_SIZE
  }

  predicate AnimationsFit(mesh: seq<byte>, h: seq<byte>)
  {
    Fits(mesh, HeaderRef(h, ANIMATIONS).ofs, HeaderRef(h, ANIMATIONS).num, AnimationStride(Version(h)))
  }

  function RawSequences(mesh: seq<byte>, h: seq<byte>): (r: seq<RawSequence>)
    ensures |r| == HeaderRef(h, ANIMATIONS).num
  {
    Table(mesh, HeaderRef(h, ANIMATIONS).ofs, HeaderRef(h, ANIMATIONS).num, RAW_ANIMATION_MODERN_SIZE, RawSequenceAt)
  }

  /** Before 0x108 start and end are copied; from 0x108 on the sequences are laid on one timeline. */
  function Animations(mesh: seq<byte>, h: seq<byte>): (r: seq<Animation>)
    ensures |r| == HeaderRef(h, ANIMATIONS).num
    ensures Version(h) >= 0x108 ==> r == ModernAnimations(RawSequences(mesh, h))
    ensures Version(h) < 0x108 ==> forall k :: 0 <= k < |r| ==>
              r[k].start == U32At(mesh, HeaderRef(h, ANIMATIONS).ofs + k * RAW_ANIMATION_SIZE + 4)
              && r[k].end == U32At(mesh, HeaderRef(h, ANIMATIONS).ofs + k * RAW_ANIMATION_SIZE + 8)
  {
    if Version(h) < 0x108 then Table(mesh, HeaderRef(h, ANIMATIONS).ofs, HeaderRef(h, ANIMATIONS).num, RAW_ANIMATION_SIZE, LegacyAnimationAt)
    else ModernAnimations(RawSequences(mesh, h))
  }

  // ---------------------------------------------------------------------------
  // ReadBones (before 0x108).
  // ---------------------------------------------------------------------------

  function LegacyBoneDecoder(version: nat): (f: (seq<byte>, nat) -> Bone)
  {
    (s: seq<byte>, p: nat) => LegacyBoneAt(s, p, version)
  }

  predicate LegacyBoneRecordsFit(mesh: seq<byte>, h: seq<byte>)
  {
    Fits(mesh, HeaderRef(h, BONES).ofs, HeaderRef(h, BONES).num, LegacyBoneSize(Version(h)))
  }

  function LegacyBoneRecords(mesh: seq<byte>, h: seq<byte>): (r: seq<Bone>)
    ensures |r| == HeaderRef(h, BONES).num
  {
    Table(mesh, HeaderRef(h, BONES).ofs, HeaderRef(h, BONES).num, LegacyBoneSize(Version(h)), LegacyBoneDecoder(Version(h)))
  }

  predicate LegacyTracksFit(mesh: seq<byte>, recs: seq<Bone>, version: nat)
  {
    forall j :: 0 <= j < |recs| ==> LegacyBoneFits(mesh, recs[j], version)
  }

  /** Every bone with the keys of its three tracks. */
  function LegacyBones(mesh: seq<byte>, recs: seq<Bone>, version: nat): (r: seq<Bone>)
    ensures |r| == |recs| && forall j :: 0 <= j < |r| ==> r[j] == LegacyBone(mesh, recs[j], version)
  {
    seq(|recs|, j requires 0 <= j < |recs| => LegacyBone(mesh, recs[j], version))
  }

  // ---------------------------------------------------------------------------
  // ReadBonesWOTLK (0x108).
  // ---------------------------------------------------------------------------

  predicate ModernBoneRecordsFit(mesh: seq<byte>, h: seq<byte>)
  {
    Fits(mesh, HeaderRef(h, BONES).ofs, HeaderRef(h, BONES).num, MODERN_BONE_SIZE)
  }

  function ModernBoneRecords(mesh: seq<byte>, h: seq<byte>): (r: seq<Bone>)
    ensures |r| == HeaderRef(h, BONES).num
  {
    Table(mesh, HeaderRef(h, BONES).ofs, HeaderRef(h, BONES).num, MODERN_BONE_SIZE, ModernBoneAt)
  }

  /** Flag 0x20 clear: the sequence's keys are in its own .anim file. */
  predicate UsesAnimFile(a: Animation)
  {
    (a.flags / 0x20) % 2 == 0
  }

  /** Where sequence a's keys are read from: its .anim file (None when missing) or the model file. */
  function AnimSource(mesh: seq<byte>, meshName: string, files: map<string, seq<byte>>, a: Animation): (r: Option<seq<byte>>)
    ensures !UsesAnimFile(a) ==> r == Some(mesh)
    ensures UsesAnimFile(a) ==> (r.None? <==> AnimName(meshName, a.animationID, a.subanimationID) !in files)
  {
    if !UsesAnimFile(a) then Some(mesh)
    else
      var name := AnimName(meshName, a.animationID, a.subanimationID);
      if name in files then Some(files[name]) else None
  }

  function AnimSources(mesh: seq<byte>, meshName: string, files: map<string, seq<byte>>, anims: seq<Animation>): (r: seq<Option<seq<byte>>>)
    ensures |r| == |anims| && forall i :: 0 <= i < |anims| ==> r[i] == AnimSource(mesh, meshName, files, anims[i])
  {
    seq(|anims|, i requires 0 <= i < |anims| => AnimSource(mesh, meshName, files, anims[i]))
  }

  function Starts(anims: seq<Animation>): (r: seq<nat>)
    ensures |r| == |anims| && forall i :: 0 <= i < |anims| ==> r[i] == anims[i].start
  {
    seq(|anims|, i requires 0 <= i < |anims| => anims[i].start)
  }

  /** Every per-sequence table the bones refer to lies inside its file. */
  predicate ModernTracksFit(mesh: seq<byte>, sources: seq<Option<seq<byte>>>, recs: seq<Bone>)
  {
    forall i, j :: 0 <= i < |sources| && 0 <= j < |recs| && sources[i].Some? ==>
      SequenceBoneFits(mesh, sources[i].value, recs[j], i)
  }

  /** Every bone with the keys of every sequence whose source could be opened. */
  function ModernBones(mesh: seq<byte>, sources: seq<Option<seq<byte>>>, starts: seq<nat>, recs: seq<Bone>, n: nat): (r: seq<Bone>)
    requires n <= |sources| == |starts|
    ensures |r| == |recs| && forall j :: 0 <= j < |r| ==> r[j] == SequencesBone(mesh, sources, starts, recs[j], n)
  {
    seq(|recs|, j requires 0 <= j < |recs| => SequencesBone(mesh, sources, starts, recs[j], n))
  }
}
