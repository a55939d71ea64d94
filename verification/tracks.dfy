/**
 * The keyframe data of the bone tracks. Each track (translation, rotation,
 * scaling) has a header with a timestamp table and a value table. Translation
 * and scaling values are three floats per key; rotation values are four
 * components per key, stored as floats before version 0x104 and as int16
 * quantised components from 0x104 on.
 *
 * Before 0x108 the tables hold the keys directly. From 0x108 on they hold one
 * chunk reference per animation sequence, and sequence i's keys are read from
 * the sequence's source (the model file or its .anim file), their timestamps
 * shifted by the start of sequence i on the unified timeline.
 */
module Tracks {
  import opened Common
  import opened Bytes
  import opened Records

  // ---------------------------------------------------------------------------
  // int16 quantised rotation components.
  // ---------------------------------------------------------------------------

  /** The numerator of the decode: v > 0 ? v - 32767 : v + 32767. */
  function Int16Numerator(v: int): (n: int)
    requires -0x8000 <= v < 0x8000
    ensures -32766 <= n <= 32767
    ensures v > 0 ==> n <= 0
    ensures v <= 0 ==> n >= -1
  {
    if v > 0 then v - 32767 else v + 32767
  }

  /** The decoded component: the numerator divided by 32767. */
  function DecodeInt16(v: int): (r: real)
    requires -0x8000 <= v < 0x8000
    ensures -1.0 < r <= 1.0
    ensures r == 1.0 <==> v == 0
  {
    Int16Numerator(v) as real / 32767.0
  }

  /** The fixed points the decode is known by: 0 is 1.0, and +-32767 are 0.0. */
  lemma DecodeInt16Points()
    ensures DecodeInt16(0) == 1.0
    ensures DecodeInt16(32767) == 0.0 && DecodeInt16(-32767) == 0.0
    ensures DecodeInt16(1) == -32766.0 / 32767.0 && DecodeInt16(-1) == 32766.0 / 32767.0
  {
  }

  /** A stored value that decodes to the numerator n. */
  function EncodeInt16(n: int): (v: int)
    requires -32766 <= n <= 32767
    ensures -0x8000 <= v < 0x8000
  {
    if n >= 0 then n - 32767 else n + 32767
  }

  /** Every numerator the decode can produce is produced by its encoding. */
  lemma Int16RoundTrip(n: int)
    requires -32766 <= n <= 32767
    ensures Int16Numerator(EncodeInt16(n)) == n
  {
  }

  /** The decode is injective except for two pairs of stored values. */
  lemma Int16Collisions(v: int, w: int)
    requires -0x8000 <= v < 0x8000 && -0x8000 <= w < 0x8000 && v < w
    ensures Int16Numerator(v) == Int16Numerator(w) <==> (v == -32767 && w == 32767) || (v == -32768 && w == 32766)
  {
  }

  // ---------------------------------------------------------------------------
  // Value tables.
  // ---------------------------------------------------------------------------

  /** A float keyframe component. */
  function FloatAt(s: seq<byte>, p: nat): (r: TrackValue)
    ensures r.Float? && r.bits < U32_RANGE
  {
    Float(U32At(s, p))
  }

  /** An int16 quantised keyframe component. */
  function ShortAt(s: seq<byte>, p: nat): (r: TrackValue)
    ensures r.Unit? && -1.0 < r.value <= 1.0
  {
    Unit(DecodeInt16(S16At(s, p)))
  }

  /** How a track's values are stored: components per key, and whether they are int16. */
  datatype ValueKind = ValueKind(components: nat, short: bool)

  function ComponentSize(kind: ValueKind): (r: nat)
    ensures r == (if kind.short then 2 else 4)
  {
    if kind.short then 2 else 4
  }

  /** num * components, computed in u32 as in the source. */
  function ComponentCount(num: nat, kind: ValueKind): (r: nat)
    ensures r < U32_RANGE
    ensures num * kind.components < U32_RANGE ==> r == num * kind.components
  {
    ToU32(num * kind.components)
  }

  /** The values of `num` keys from offset ofs. */
  function ValueTable(s: seq<byte>, ofs: nat, num: nat, kind: ValueKind): (r: seq<TrackValue>)
    ensures |r| == ComponentCount(num, kind)
  {
    if kind.short then Table(s, ofs, ComponentCount(num, kind), 2, ShortAt)
    else Table(s, ofs, ComponentCount(num, kind), 4, FloatAt)
  }

  /** Value k of a table is the k-th packed short or the k-th float. */
  lemma ValueTableAt(s: seq<byte>, ofs: nat, num: nat, kind: ValueKind)
    ensures forall k :: 0 <= k < ComponentCount(num, kind) ==>
              ValueTable(s, ofs, num, kind)[k] == (if kind.short then ShortAt(s, ofs + k * 2) else FloatAt(s, ofs + k * 4))
  {
    TableAt(s, ofs, ComponentCount(num, kind), 2, ShortAt);
    TableAt(s, ofs, ComponentCount(num, kind), 4, FloatAt);
  }

  /** The value tables fit in the file. */
  predicate ValuesFit(s: seq<byte>, ofs: nat, num: nat, kind: ValueKind)
  {
    Fits(s, ofs, ComponentCount(num, kind), ComponentSize(kind))
  }

  const TRANSLATION: ValueKind := ValueKind(3, false)
  const SCALING: ValueKind := ValueKind(3, false)

  /** Rotation components are int16 from version 0x104 on. */
  function RotationKind(version: nat): (r: ValueKind)
    ensures r.components == 4 && (r.short <==> version >= 0x104)
  {
    ValueKind(4, version >= 0x104)
  }

  // ---------------------------------------------------------------------------
  // Tracks before 0x108: the header's tables hold the keys.
  // ---------------------------------------------------------------------------

  /** The tables of a legacy track lie inside the file. */
  predicate LegacyTrackFits(s: seq<byte>, t: Track, kind: ValueKind)
  {
    Fits(s, t.head.timestamps.ofs, t.head.timestamps.num, 4)
    && ValuesFit(s, t.head.values.ofs, t.head.values.num, kind)
  }

  /** A legacy track with its keys read: num timestamps and num * components values. */
  function LegacyTrack(s: seq<byte>, t: Track, kind: ValueKind): (r: Track)
    ensures r.head == t.head
    ensures r.timestamps == t.timestamps + Table(s, t.head.timestamps.ofs, t.head.timestamps.num, 4, U32At)
    ensures r.values == t.values + ValueTable(s, t.head.values.ofs, t.head.values.num, kind)
    ensures |r.timestamps| == |t.timestamps| + t.head.timestamps.num
  {
    t.(timestamps := t.timestamps + Table(s, t.head.timestamps.ofs, t.head.timestamps.num, 4, U32At),
       values := t.values + ValueTable(s, t.head.values.ofs, t.head.values.num, kind))
  }

  predicate LegacyBoneFits(s: seq<byte>, b: Bone, version: nat)
  {
    LegacyTrackFits(s, b.translation, TRANSLATION)
    && LegacyTrackFits(s, b.rotation, RotationKind(version))
    && LegacyTrackFits(s, b.scaling, SCALING)
  }

  /** A legacy bone with the keys of its three tracks read. */
  function LegacyBone(s: seq<byte>, b: Bone, version: nat): (r: Bone)
    ensures r.translation == LegacyTrack(s, b.translation, TRANSLATION)
    ensures r.rotation == LegacyTrack(s, b.rotation, RotationKind(version))
    ensures r.scaling == LegacyTrack(s, b.scaling, SCALING)
    ensures r.skelBoneIndex == b.skelBoneIndex && r.flags == b.flags && r.parentBone == b.parentBone && r.pivot == b.pivot
  {
    b.(translation := LegacyTrack(s, b.translation, TRANSLATION),
       rotation := LegacyTrack(s, b.rotation, RotationKind(version)),
       scaling := LegacyTrack(s, b.scaling, SCALING))
  }

  // ---------------------------------------------------------------------------
  // Tracks from 0x108 on: one chunk reference per sequence.
  // ---------------------------------------------------------------------------

  /** Sequence i has data in this track when both tables have an entry for it. */
  predicate HasSequence(t: Track, i: nat)
  {
    t.head.timestamps.num > i && t.head.values.num > i
  }

  /** The i-th chunk reference of a per-sequence table, read from the model file. */
  function SequenceEntry(mesh: seq<byte>, table: NumOfs, i: nat): NumOfs
  {
    NumOfsAt(mesh, ToU32(table.ofs + 8 * i))
  }

  /** Timestamps shifted by `start`, in u32 arithmetic. */
  function Shift(ts: seq<nat>, start: nat): (r: seq<nat>)
    ensures |r| == |ts| && forall k :: 0 <= k < |ts| ==> r[k] == ToU32(ts[k] + start)
  {
    seq(|ts|, k requires 0 <= k < |ts| => ToU32(ts[k] + start))
  }

  /** Everything a track reads for sequence i lies inside the model file and the source. */
  predicate SequenceFits(mesh: seq<byte>, src: seq<byte>, t: Track, i: nat, kind: ValueKind)
  {
    HasSequence(t, i) ==>
      var te := SequenceEntry(mesh, t.head.timestamps, i);
      var ve := SequenceEntry(mesh, t.head.values, i);
      Fits(mesh, ToU32(t.head.timestamps.ofs + 8 * i), 1, NUM_OFS_SIZE) && Fits(src, te.ofs, te.num, 4)
      && Fits(mesh, ToU32(t.head.values.ofs + 8 * i), 1, NUM_OFS_SIZE) && ValuesFit(src, ve.ofs, ve.num, kind)
  }

  /** The keys of one sequence: `e.num` timestamps read from src, each shifted by start. */
  function ShiftedKeys(src: seq<byte>, e: NumOfs, start: nat): (r: seq<nat>)
    ensures |r| == e.num
  {
    Shift(Table(src, e.ofs, e.num, 4, U32At), start)
  }

  /** Key k of a sequence is the k-th u32 timestamp of src plus start, wrapped to u32. */
  lemma ShiftedKeysAt(src: seq<byte>, e: NumOfs, start: nat)
    ensures forall k :: 0 <= k < e.num ==> ShiftedKeys(src, e, start)[k] == ToU32(U32At(src, e.ofs + k * 4) + start)
  {
  }

  /**
   * A track after sequence i (read from src, starting at `start`): when the
   * sequence has data, its shifted timestamps and its values are appended;
   * otherwise the track is unchanged.
   */
  function SequenceTrack(mesh: seq<byte>, src: seq<byte>, t: Track, i: nat, start: nat, kind: ValueKind): (r: Track)
    ensures r.head == t.head
  {
    if !HasSequence(t, i) then t
    else
      var te := SequenceEntry(mesh, t.head.timestamps, i);
      var ve := SequenceEntry(mesh, t.head.values, i);
      t.(timestamps := t.timestamps + ShiftedKeys(src, te, start),
         values := t.values + ValueTable(src, ve.ofs, ve.num, kind))
  }

  /** Sequence i appends exactly num timestamps to a track that has it, each shifted by start. */
  lemma SequenceTimestamps(mesh: seq<byte>, src: seq<byte>, t: Track, i: nat, start: nat, kind: ValueKind,
                           te: NumOfs, r: Track)
    requires HasSequence(t, i) && te == SequenceEntry(mesh, t.head.timestamps, i)
    requires r == SequenceTrack(mesh, src, t, i, start, kind)
    ensures |r.timestamps| == |t.timestamps| + te.num && r.timestamps[..|t.timestamps|] == t.timestamps
    ensures forall k :: 0 <= k < te.num ==> r.timestamps[|t.timestamps| + k] == ToU32(U32At(src, te.ofs + k * 4) + start)
  {
    var keys := ShiftedKeys(src, te, start);
    assert r.timestamps == t.timestamps + keys;
    AppendedAt(t.timestamps, keys);
    ShiftedKeysAt(src, te, start);
  }

  /** A track gains the sequence's key count when it has the sequence, and nothing otherwise. */
  lemma SequenceTrackLength(mesh: seq<byte>, src: seq<byte>, t: Track, i: nat, start: nat, kind: ValueKind)
    ensures |SequenceTrack(mesh, src, t, i, start, kind).timestamps|
            == |t.timestamps| + (if HasSequence(t, i) then SequenceEntry(mesh, t.head.timestamps, i).num else 0)
  {
  }

  /** Indices into a + b: a is its prefix, and b[k] sits at |a| + k. */
  lemma AppendedAt<T>(a: seq<T>, b: seq<T>)
    ensures (a + b)[..|a|] == a
    ensures forall k :: 0 <= k < |b| ==> (a + b)[|a| + k] == b[k]
  {
  }

  /** Sequence i appends exactly num * components values to a track that has it. */
  lemma SequenceValues(mesh: seq<byte>, src: seq<byte>, t: Track, i: nat, start: nat, kind: ValueKind,
                       ve: NumOfs, r: Track)
    requires HasSequence(t, i) && ve == SequenceEntry(mesh, t.head.values, i)
    requires r == SequenceTrack(mesh, src, t, i, start, kind)
    ensures |r.values| == |t.values| + ComponentCount(ve.num, kind) && r.values[..|t.values|] == t.values
  {
    assert r.values == t.values + ValueTable(src, ve.ofs, ve.num, kind);
  }

  predicate SequenceBoneFits(mesh: seq<byte>, src: seq<byte>, b: Bone, i: nat)
  {
    SequenceFits(mesh, src, b.translation, i, TRANSLATION)
    && SequenceFits(mesh, src, b.rotation, i, RotationKind(0x108))
    && SequenceFits(mesh, src, b.scaling, i, SCALING)
  }

  /** A bone after sequence i: each of its three tracks after sequence i. */
  function SequenceBone(mesh: seq<byte>, src: seq<byte>, b: Bone, i: nat, start: nat): Bone
  {
    b.(translation := SequenceTrack(mesh, src, b.translation, i, start, TRANSLATION),
       rotation := SequenceTrack(mesh, src, b.rotation, i, start, RotationKind(0x108)),
       scaling := SequenceTrack(mesh, src, b.scaling, i, start, SCALING))
  }

  /**
   * A track after the first n sequences. sources[i] is where sequence i's keys
   * are read from; None is a missing .anim file, and the sequence is skipped.
   */
  function SequencesTrack(mesh: seq<byte>, sources: seq<Option<seq<byte>>>, starts: seq<nat>, t: Track, n: nat,
                          kind: ValueKind): (r: Track)
    requires n <= |sources| == |starts|
    ensures r.head == t.head
    ensures |r.timestamps| == |t.timestamps| + CountedKeys(mesh, sources, t, n)
    decreases n
  {
    if n == 0 then t
    else
      var prev := SequencesTrack(mesh, sources, starts, t, n - 1, kind);
      match sources[n - 1]
      case None => prev
      case Some(src) =>
        SequenceTrackLength(mesh, src, prev, n - 1, starts[n - 1], kind);
        SequenceTrack(mesh, src, prev, n - 1, starts[n - 1], kind)
  }

  /** A bone after the first n sequences: each of its three tracks after them. */
  function SequencesBone(mesh: seq<byte>, sources: seq<Option<seq<byte>>>, starts: seq<nat>, b: Bone, n: nat): Bone
    requires n <= |sources| == |starts|
  {
    b.(translation := SequencesTrack(mesh, sources, starts, b.translation, n, TRANSLATION),
       rotation := SequencesTrack(mesh, sources, starts, b.rotation, n, RotationKind(0x108)),
       scaling := SequencesTrack(mesh, sources, starts, b.scaling, n, SCALING))
  }

  /**
   * The bone after n + 1 sequences is the bone after n with sequence n added,
   * or left as it is when sequence n's source is missing.
   */
  lemma SequencesBoneNext(mesh: seq<byte>, sources: seq<Option<seq<byte>>>, starts: seq<nat>, b: Bone, n: nat)
    requires n < |sources| == |starts|
    ensures SequencesBone(mesh, sources, starts, b, n + 1)
            == match sources[n]
               case None => SequencesBone(mesh, sources, starts, b, n)
               case Some(src) => SequenceBone(mesh, src, SequencesBone(mesh, sources, starts, b, n), n, starts[n])
  {
  }

  /** The number of keys the first n sequences contribute to track t. */
  function CountedKeys(mesh: seq<byte>, sources: seq<Option<seq<byte>>>, t: Track, n: nat): (r: nat)
    requires n <= |sources|
    ensures n == 0 ==> r == 0
    decreases n
  {
    if n == 0 then 0
    else
      CountedKeys(mesh, sources, t, n - 1)
      + (if sources[n - 1].Some? && HasSequence(t, n - 1) then SequenceEntry(mesh, t.head.timestamps, n - 1).num else 0)
  }
}
