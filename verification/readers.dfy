/**
 * The reading loops of the loader, each proved to produce what the decoding
 * functions say: a table read record by record from a seek position, the
 * keys and values of a bone track, the names read through the reused
 * buffer, and the 0x108 sequences laid on one timeline.
 */
module Readers {
  import opened Bytes
  import opened Records
  import opened Timeline
  import opened Tracks
  import opened Decoder

  /** Seek to ofs and read num records of `size` bytes, decoding each with f. */
  method ReadTable<T>(s: seq<byte>, ofs: nat, num: nat, size: nat, f: (seq<byte>, nat) -> T) returns (xs: seq<T>)
    ensures xs == Table(s, ofs, num, size, f)
  {
    xs := [];
    var i := 0;
    while i < num
      invariant 0 <= i <= num && xs == Table(s, ofs, i, size, f)
    {
      TableSnoc(s, ofs, i, size, f);
      xs := xs + [f(s, ofs + i * size)];
      i := i + 1;
    }
  }

  /** The values of num keys: num * components floats or int16s (the count in u32). */
  method ReadValues(s: seq<byte>, ofs: nat, num: nat, kind: ValueKind) returns (vs: seq<TrackValue>)
    ensures vs == ValueTable(s, ofs, num, kind)
  {
    var count := ComponentCount(num, kind);
    if kind.short {
      vs := ReadTable(s, ofs, count, 2, ShortAt);
    } else {
      vs := ReadTable(s, ofs, count, 4, FloatAt);
    }
  }

  /** ReadBones' fill step for one track of a bone before 0x108. */
  method ReadLegacyTrack(s: seq<byte>, t: Track, kind: ValueKind) returns (r: Track)
    ensures r == LegacyTrack(s, t, kind)
  {
    var ts := ReadTable(s, t.head.timestamps.ofs, t.head.timestamps.num, 4, U32At);
    var vs := ReadValues(s, t.head.values.ofs, t.head.values.num, kind);
    r := t.(timestamps := t.timestamps + ts, values := t.values + vs);
  }

  /** ReadBones' fill loop: the keys of every track of every bone. */
  method ReadLegacyTracks(s: seq<byte>, recs: seq<Bone>, version: nat) returns (bones: seq<Bone>)
    ensures bones == LegacyBones(s, recs, version)
  {
    bones := recs;
    var i := 0;
    while i < |bones|
      invariant 0 <= i <= |bones| == |recs|
      invariant forall m :: 0 <= m < i ==> bones[m] == LegacyBone(s, recs[m], version)
      invariant forall m :: i <= m < |bones| ==> bones[m] == recs[m]
    {
      var b := bones[i];
      var translation := ReadLegacyTrack(s, b.translation, TRANSLATION);
      var rotation := ReadLegacyTrack(s, b.rotation, RotationKind(version));
      var scaling := ReadLegacyTrack(s, b.scaling, SCALING);
      bones := bones[i := b.(translation := translation, rotation := rotation, scaling := scaling)];
      i := i + 1;
    }
  }

  /** Read e.num timestamps from src, adding start to each in u32. */
  method ReadShiftedKeys(src: seq<byte>, e: NumOfs, start: nat) returns (keys: seq<nat>)
    ensures keys == ShiftedKeys(src, e, start)
  {
    keys := [];
    var k := 0;
    while k < e.num
      invariant 0 <= k <= e.num && |keys| == k
      invariant forall m :: 0 <= m < k ==> keys[m] == ToU32(U32At(src, e.ofs + m * 4) + start)
    {
      keys := keys + [ToU32(U32At(src, e.ofs + k * 4) + start)];
      k := k + 1;
    }
    ShiftedKeysAt(src, e, start);
  }

  /** The keys sequence i adds to one track, read from src. */
  method ReadSequenceTrack(mesh: seq<byte>, src: seq<byte>, t: Track, i: nat, start: nat, kind: ValueKind) returns (r: Track)
    ensures r == SequenceTrack(mesh, src, t, i, start, kind)
  {
    r := t;
    if t.head.timestamps.num > i && t.head.values.num > i {
      var te := NumOfsAt(mesh, ToU32(t.head.timestamps.ofs + 8 * i));
      var keys := ReadShiftedKeys(src, te, start);
      var ve := NumOfsAt(mesh, ToU32(t.head.values.ofs + 8 * i));
      var vs := ReadValues(src, ve.ofs, ve.num, kind);
      assert te == SequenceEntry(mesh, t.head.timestamps, i) && ve == SequenceEntry(mesh, t.head.values, i);
      r := t.(timestamps := t.timestamps + keys, values := t.values + vs);
    }
  }

  /** ReadBonesWOTLK's inner loop: sequence i's keys added to every bone. */
  method AddSequence(mesh: seq<byte>, src: seq<byte>, bones: seq<Bone>, i: nat, start: nat) returns (r: seq<Bone>)
    ensures |r| == |bones|
    ensures forall j :: 0 <= j < |r| ==> r[j] == SequenceBone(mesh, src, bones[j], i, start)
  {
    r := bones;
    var j := 0;
    while j < |r|
      invariant 0 <= j <= |r| == |bones|
      invariant forall m :: 0 <= m < j ==> r[m] == SequenceBone(mesh, src, bones[m], i, start)
      invariant forall m :: j <= m < |r| ==> r[m] == bones[m]
    {
      var b := r[j];
      var translation := ReadSequenceTrack(mesh, src, b.translation, i, start, TRANSLATION);
      var rotation := ReadSequenceTrack(mesh, src, b.rotation, i, start, RotationKind(0x108));
      var scaling := ReadSequenceTrack(mesh, src, b.scaling, i, start, SCALING);
      r := r[j := b.(translation := translation, rotation := rotation, scaling := scaling)];
      j := j + 1;
    }
  }

  /** ReadTextureDefinitions' name loop, through one reused buffer. */
  method ReadNames(mesh: seq<byte>, defs: seq<TextureDefinition>) returns (names: seq<string>)
    ensures names == TextureNames(mesh, defs)
  {
    names := [];
    var buf: seq<byte> := [];
    var i := 0;
    while i < |defs|
      invariant 0 <= i <= |defs|
      invariant names == NamesUpTo(mesh, defs, i).0 && buf == NamesUpTo(mesh, defs, i).1
    {
      NamesStep(mesh, defs, i);
      buf := ReadNameInto(mesh, defs[i], buf);
      names := names + [CString(buf)];
      i := i + 1;
    }
  }

  /** One more name: c_str() of the buffer as the next read leaves it. */
  lemma NamesStep(mesh: seq<byte>, defs: seq<TextureDefinition>, i: nat)
    requires i < |defs|
    ensures NamesUpTo(mesh, defs, i + 1).1 == ReadName(mesh, defs[i], NamesUpTo(mesh, defs, i).1).1
    ensures NamesUpTo(mesh, defs, i + 1).0 == NamesUpTo(mesh, defs, i).0 + [CString(NamesUpTo(mesh, defs, i + 1).1)]
  {
  }

  /** Resize the buffer to len + 1 and read the name's len bytes over its start. */
  method ReadNameInto(mesh: seq<byte>, d: TextureDefinition, buf: seq<byte>) returns (next: seq<byte>)
    ensures next == ReadName(mesh, d, buf).1
  {
    var sized := Resize(buf, d.texFileLen + 1);
    next := sized;
    var k := 0;
    while k < d.texFileLen
      invariant 0 <= k <= d.texFileLen && |next| == d.texFileLen + 1
      invariant forall m :: 0 <= m < k ==> next[m] as nat == NameByte(mesh, d, m)
      invariant forall m :: k <= m <= d.texFileLen ==> next[m] == sized[m]
    {
      next := next[k := NameByte(mesh, d, k) as byte];
      k := k + 1;
    }
    NameBuffer(mesh, d, buf, next);
  }

  /** A buffer that holds the name bytes and, at index len, what Resize left there is ReadName's buffer. */
  lemma NameBuffer(mesh: seq<byte>, d: TextureDefinition, buf: seq<byte>, next: seq<byte>)
    requires |next| == d.texFileLen + 1
    requires forall m :: 0 <= m < d.texFileLen ==> next[m] as nat == NameByte(mesh, d, m)
    requires next[d.texFileLen] == Resize(buf, d.texFileLen + 1)[d.texFileLen]
    ensures next == ReadName(mesh, d, buf).1
  {
    var b := ReadName(mesh, d, buf).1;
    forall m | 0 <= m < |next|
      ensures next[m] == b[m]
    {
      if m < d.texFileLen {
        assert next[m] as nat == b[m] as nat;
      }
    }
  }

  /** ReadAnimationData from 0x108 on: lay the sequences on one timeline. */
  method PlaceSequences(raws: seq<RawSequence>) returns (anims: seq<Animation>)
    ensures anims == ModernAnimations(raws)
  {
    anims := [];
    var laststart := 0;
    var i := 0;
    while i < |raws|
      invariant 0 <= i <= |raws| && |anims| == i && laststart == Start(raws, i)
      invariant forall m :: 0 <= m < i ==> anims[m] == Placed(raws, m)
    {
      var raw := raws[i];
      anims := anims + [Animation(raw.animationID, raw.subanimationID, laststart, ToU32(laststart + raw.length),
                                  raw.flags, raw.probability)];
      laststart := ToU32(laststart + raw.length + GAP);
      i := i + 1;
    }
  }
}
