/**
 * The M2 loader object: the header image, the current view and the staging
 * arrays it fills reader by reader, and the mesh it assembles from them.
 * ReadAll says what one load reads from a model file (and, from version 0x108
 * on, its skin and .anim companions); every reader and Load itself are proved
 * against it.
 */
module Loader {
  import opened Common
  import opened Bytes
  import opened Records
  import opened Tracks
  import opened CompanionNames
  import opened Decoder
  import opened Readers
  import opened MeshBuild
  import opened Assembly

  // ---------------------------------------------------------------------------
  // What a load reads.
  // ---------------------------------------------------------------------------

  /** The versions the loader knows: 0x100 and 0x104-0x107 share a layout; 0x108 splits the file. */
  predicate LegacyVersion(v: nat)
  {
    v == 0x100 || 0x104 <= v <= 0x107
  }

  /**
   * The header image after the version switch: the first 0x14 bytes are read
   * over the previous image; a legacy file then fills the whole image, a
   * 0x108 file fills all of it but D, Views.ofs and I. None for any other
   * version, or when the file is shorter than what is read.
   */
  function HeaderImage(mesh: seq<byte>, prev: seq<byte>): (r: Option<seq<byte>>)
    requires |prev| == HEADER_SIZE
    ensures r.Some? <==> |mesh| >= HEADER_PREFIX
                         && ((LegacyVersion(Version(mesh)) && |mesh| >= HEADER_SIZE)
                             || (Version(mesh) == 0x108 && |mesh| >= MODERN_HEADER_SIZE))
    ensures r.Some? ==> |r.value| == HEADER_SIZE && r.value[..HEADER_PREFIX] == mesh[..HEADER_PREFIX]
  {
    if |mesh| < HEADER_PREFIX then None
    else if LegacyVersion(Version(mesh)) then
      if |mesh| >= HEADER_SIZE then Some(mesh[..HEADER_SIZE]) else None
    else if Version(mesh) == 0x108 then
      if |mesh| >= MODERN_HEADER_SIZE then Some(ModernHeader(mesh, prev)) else None
    else None
  }

  /**
   * The header image load() leaves, whether or not its switch succeeds: the
   * first 0x14 bytes (as many as the file has) are always read over the
   * previous image; a known version then fills the image as HeaderImage says,
   * and anything else keeps the previous bytes past the prefix.
   */
  function SwitchedHeader(mesh: seq<byte>, prev: seq<byte>): (r: seq<byte>)
    requires |prev| == HEADER_SIZE
    ensures |r| == HEADER_SIZE
    ensures var n := if |mesh| < HEADER_PREFIX then |mesh| else HEADER_PREFIX;
            r[..n] == mesh[..n]
    ensures HeaderImage(mesh, prev).Some? ==> r == HeaderImage(mesh, prev).value
    ensures HeaderImage(mesh, prev).None? && |mesh| >= HEADER_PREFIX ==> r[HEADER_PREFIX..] == prev[HEADER_PREFIX..]
    ensures |mesh| < HEADER_PREFIX ==> r[|mesh|..] == prev[|mesh|..]
  {
    match HeaderImage(mesh, prev)
    case Some(h) => h
    case None =>
      var n := if |mesh| < HEADER_PREFIX then |mesh| else HEADER_PREFIX;
      mesh[..n] + prev[n..]
  }

  /** The image holds the version it was switched on. */
  lemma ImageVersion(mesh: seq<byte>, prev: seq<byte>)
    requires |prev| == HEADER_SIZE && HeaderImage(mesh, prev).Some?
    ensures Version(HeaderImage(mesh, prev).value) == Version(mesh)
  {
    var h := HeaderImage(mesh, prev).value;
    U32Local(mesh, 0, h[..HEADER_PREFIX], VERSION);
    U32Local(h, 0, h[..HEADER_PREFIX], VERSION);
  }

  /** The file the view is read from and where: the model file at Views.ofs, or the skin file past its magic. */
  function ViewSource(mesh: seq<byte>, meshName: string, files: map<string, seq<byte>>, h: seq<byte>): (r: Option<(seq<byte>, nat)>)
    ensures Version(h) != 0x108 ==> r == Some((mesh, HeaderRef(h, VIEWS).ofs))
    ensures Version(h) == 0x108 ==> (r.Some? <==> SkinName(meshName) in files)
    ensures Version(h) == 0x108 && r.Some? ==> r.value == (files[SkinName(meshName)], 4)
  {
    if Version(h) != 0x108 then Some((mesh, HeaderRef(h, VIEWS).ofs))
    else if SkinName(meshName) in files then Some((files[SkinName(meshName)], 4))
    else None
  }

  /** ReadBones or ReadBonesWOTLK find every table they read inside its file. */
  predicate BonesFit(mesh: seq<byte>, meshName: string, files: map<string, seq<byte>>, h: seq<byte>, anims: seq<Animation>)
  {
    if Version(h) != 0x108 then
      LegacyBoneRecordsFit(mesh, h) && LegacyTracksFit(mesh, LegacyBoneRecords(mesh, h), Version(h))
    else
      ModernBoneRecordsFit(mesh, h)
      && ModernTracksFit(mesh, AnimSources(mesh, meshName, files, anims), ModernBoneRecords(mesh, h))
  }

  /** The bones with the keys of all their tracks. */
  function BonesOf(mesh: seq<byte>, meshName: string, files: map<string, seq<byte>>, h: seq<byte>, anims: seq<Animation>): (r: seq<Bone>)
    ensures |r| == HeaderRef(h, BONES).num
  {
    if Version(h) != 0x108 then LegacyBones(mesh, LegacyBoneRecords(mesh, h), Version(h))
    else ModernBones(mesh, AnimSources(mesh, meshName, files, anims), Starts(anims), ModernBoneRecords(mesh, h), |anims|)
  }

  /** Everything the readers read lies inside its file. */
  predicate TablesFit(mesh: seq<byte>, meshName: string, files: map<string, seq<byte>>, h: seq<byte>, file: seq<byte>, view: ModelView)
  {
    ViewDataFits(file, view, Version(h)) && Decoder.VerticesFit(mesh, h) && TextureTablesFit(mesh, h)
    && NamesFit(mesh, TextureDefinitions(mesh, h)) && AnimationsFit(mesh, h)
    && BonesFit(mesh, meshName, files, h, Animations(mesh, h))
  }

  /** The staging arrays after every reader has run, the view tables read from `file`. */
  function StagedOf(mesh: seq<byte>, meshName: string, files: map<string, seq<byte>>, h: seq<byte>, file: seq<byte>, view: ModelView): Staged
  {
    Staged(Table(file, view.index.ofs, view.index.num, 2, U16At),
           Table(file, view.triangle.ofs, view.triangle.num, 2, U16At),
           ViewSubmeshes(file, view, Version(h)),
           Table(file, view.tex.ofs, view.tex.num, TEXTURE_UNIT_SIZE, TextureUnitAt),
           Vertices(mesh, h), TextureLookup(mesh, h), TextureDefinitions(mesh, h), RenderFlagsTable(mesh, h),
           TextureNames(mesh, TextureDefinitions(mesh, h)),
           Animations(mesh, h), BonesOf(mesh, meshName, files, h, Animations(mesh, h)))
  }

  /** The outcome of the reading half of a load: the header image, the view and the staging arrays. */
  datatype Decoded = Decoded(header: seq<byte>, view: ModelView, staged: Staged)

  /**
   * The version switch of load(): the header image, the file the view is read
   * from, and the view. None for an unknown version, a missing skin file, or
   * a header or view that does not lie inside its file.
   */
  function ViewPlace(mesh: seq<byte>, meshName: string, files: map<string, seq<byte>>, prev: seq<byte>)
    : (r: Option<(seq<byte>, seq<byte>, ModelView)>)
    requires |prev| == HEADER_SIZE
    ensures r.Some? ==> HeaderImage(mesh, prev) == Some(r.value.0) && Version(r.value.0) == Version(mesh)
    ensures r.Some? ==> LegacyVersion(Version(mesh)) || Version(mesh) == 0x108
    ensures r.Some? && Version(mesh) == 0x108 ==> SkinName(meshName) in files
  {
    match HeaderImage(mesh, prev)
    case None => None
    case Some(h) =>
      ImageVersion(mesh, prev);
      match ViewSource(mesh, meshName, files, h)
      case None => None
      case Some(src) =>
        if !Fits(src.0, src.1, 1, MODEL_VIEW_SIZE) then None
        else Some((h, src.0, ModelViewAt(src.0, src.1)))
  }

  /**
   * The reading half of load(): the header and the view, then the view data,
   * vertices, texture tables, animations and bones. None when the version
   * switch fails or a table does not lie inside its file.
   */
  function ReadAll(mesh: seq<byte>, meshName: string, files: map<string, seq<byte>>, prev: seq<byte>): (r: Option<Decoded>)
    requires |prev| == HEADER_SIZE
    ensures r.Some? ==> HeaderImage(mesh, prev) == Some(r.value.header)
    ensures r.Some? ==> LegacyVersion(Version(mesh)) || Version(mesh) == 0x108
    ensures r.Some? && Version(mesh) == 0x108 ==> SkinName(meshName) in files
    ensures r.Some? ==> |r.value.staged.submeshes| == r.value.view.submesh.num
  {
    match ViewPlace(mesh, meshName, files, prev)
    case None => None
    case Some(place) =>
      var (h, file, view) := place;
      if !TablesFit(mesh, meshName, files, h, file, view) then None
      else Some(Decoded(h, view, StagedOf(mesh, meshName, files, h, file, view)))
  }

  /** createMesh: the mesh of a load that reads everything and assembles, None otherwise. */
  function LoadResult(mesh: seq<byte>, meshName: string, files: map<string, seq<byte>>, available: set<string>,
                      prev: seq<byte>): Option<Mesh>
    requires |prev| == HEADER_SIZE
  {
    match ReadAll(mesh, meshName, files, prev)
    case None => None
    case Some(d) => Assemble(d.staged, available)
  }

  /**
   * A loaded mesh comes from a load that read everything: it has the file's
   * animations and one buffer per submesh of the view, its joints come after
   * their parents, and its weights name joints, buffers and vertices that exist.
   */
  lemma LoadedMesh(mesh: seq<byte>, meshName: string, files: map<string, seq<byte>>, available: set<string>, prev: seq<byte>)
    requires |prev| == HEADER_SIZE && LoadResult(mesh, meshName, files, available, prev).Some?
    ensures ReadAll(mesh, meshName, files, prev).Some?
    ensures var m := LoadResult(mesh, meshName, files, available, prev).value;
            var d := ReadAll(mesh, meshName, files, prev).value;
            m.animations == d.staged.animations && |m.buffers| == d.view.submesh.num
            && ParentsFirst(m.joints) && WeightsResolve(m)
  {
  }

  /** What the readers stage meets what assembling the mesh expects of the render flags. */
  lemma StagedOfAssembles(mesh: seq<byte>, meshName: string, files: map<string, seq<byte>>, h: seq<byte>, file: seq<byte>, view: ModelView)
    ensures FlagsInRange(StagedOf(mesh, meshName, files, h, file, view).renderFlags)
  {
  }

  /** A load whose version switch fails reads nothing and assembles nothing. */
  lemma NoPlaceNoMesh(mesh: seq<byte>, meshName: string, files: map<string, seq<byte>>, available: set<string>, prev: seq<byte>)
    requires |prev| == HEADER_SIZE && ViewPlace(mesh, meshName, files, prev).None?
    ensures ReadAll(mesh, meshName, files, prev).None? && LoadResult(mesh, meshName, files, available, prev).None?
  {
  }

  /** After the version switch, a load reads the tables when they fit and assembles what it read. */
  lemma LoadFromPlace(mesh: seq<byte>, meshName: string, files: map<string, seq<byte>>, available: set<string>, prev: seq<byte>,
                      h: seq<byte>, file: seq<byte>, view: ModelView)
    requires |prev| == HEADER_SIZE && ViewPlace(mesh, meshName, files, prev) == Some((h, file, view))
    ensures TablesFit(mesh, meshName, files, h, file, view)
            ==> ReadAll(mesh, meshName, files, prev) == Some(Decoded(h, view, StagedOf(mesh, meshName, files, h, file, view)))
                && LoadResult(mesh, meshName, files, available, prev) == Assemble(StagedOf(mesh, meshName, files, h, file, view), available)
    ensures !TablesFit(mesh, meshName, files, h, file, view)
            ==> ReadAll(mesh, meshName, files, prev).None? && LoadResult(mesh, meshName, files, available, prev).None?
  {
  }


  // ---------------------------------------------------------------------------
  // The loader object.
  // ---------------------------------------------------------------------------

  /** The staging arrays of an idle loader, and what a finished load leaves of them. */
  const NOTHING_STAGED: Staged := Staged([], [], [], [], [], [], [], [], [], [], [])

  class M2Loader {
    /** The files the device can open, by name, and the texture names the driver can load. */
    const files: map<string, seq<byte>>
    const available: set<string>

    var meshFile: seq<byte>
    var meshName: string
    /** The header structure as a byte image; it keeps its bytes from one load to the next. */
    var header: seq<byte>
    var currentView: ModelView

    /** The loader's staging arrays (indices, triangles, ..., animations, bones), as one record. */
    var staged: Staged

    var animatedMesh: Option<Mesh>

    ghost predicate Valid()
      reads this
    {
      |header| == HEADER_SIZE
    }

    /** A loader with an all-zero header image and nothing staged. */
    constructor(files: map<string, seq<byte>>, available: set<string>)
      ensures Valid() && this.files == files && this.available == available
      ensures header == seq(HEADER_SIZE, _ => 0) && staged == NOTHING_STAGED && animatedMesh == None
    {
      this.files := files;
      this.available := available;
      meshFile := [];
      meshName := "";
      header := seq(HEADER_SIZE, _ => 0);
      currentView := ModelView(NumOfs(0, 0), NumOfs(0, 0), NumOfs(0, 0), NumOfs(0, 0), NumOfs(0, 0), 0);
      staged := NOTHING_STAGED;
      animatedMesh := None;
    }

    /** The indices, triangles, submeshes and texture units of the current view, read from `file`. */
    method ReadViewData(file: seq<byte>) returns (ok: bool)
      requires Valid()
      modifies this
      ensures Valid() && unchanged(this`meshFile, this`meshName, this`header, this`currentView, this`animatedMesh)
      ensures ok <==> ViewDataFits(file, currentView, Version(header))
      ensures ok ==> staged == old(staged).(
                indices := Table(file, currentView.index.ofs, currentView.index.num, 2, U16At),
                triangles := Table(file, currentView.triangle.ofs, currentView.triangle.num, 2, U16At),
                submeshes := ViewSubmeshes(file, currentView, Version(header)),
                textureUnits := Table(file, currentView.tex.ofs, currentView.tex.num, TEXTURE_UNIT_SIZE, TextureUnitAt))
      ensures !ok ==> staged == old(staged)
    {
      var v := currentView;
      var version := Version(header);
      if !ViewDataFits(file, v, version) {
        return false;
      }
      var idx := ReadTable(file, v.index.ofs, v.index.num, 2, U16At);
      var tris := ReadTable(file, v.triangle.ofs, v.triangle.num, 2, U16At);
      var sms := ReadTable(file, v.submesh.ofs, v.submesh.num, SubmeshStride(version), SubmeshDecoder(version));
      var units := ReadTable(file, v.tex.ofs, v.tex.num, TEXTURE_UNIT_SIZE, TextureUnitAt);
      staged := staged.(indices := idx, triangles := tris, submeshes := sms, textureUnits := units);
      ok := true;
    }

    /** The vertex table, positions and normals turned Y-up. */
    method ReadVertices() returns (ok: bool)
      requires Valid()
      modifies this
      ensures Valid() && unchanged(this`meshFile, this`meshName, this`header, this`currentView, this`animatedMesh)
      ensures ok <==> Decoder.VerticesFit(meshFile, header)
      ensures ok ==> staged == old(staged).(vertices := Vertices(meshFile, header))
      ensures !ok ==> staged == old(staged)
    {
      if !Decoder.VerticesFit(meshFile, header) {
        return false;
      }
      var r := HeaderRef(header, VERTICES);
      var vs := ReadTable(meshFile, r.ofs, r.num, MODEL_VERTEX_SIZE, FixedVertexAt);
      staged := staged.(vertices := vs);
      ok := true;
    }

    /** The texture lookup table, the texture definitions, the render flags and the texture file names. */
    method ReadTextureDefinitions() returns (ok: bool)
      requires Valid()
      modifies this
      ensures Valid() && unchanged(this`meshFile, this`meshName, this`header, this`currentView, this`animatedMesh)
      ensures ok <==> TextureTablesFit(meshFile, header) && NamesFit(meshFile, TextureDefinitions(meshFile, header))
      ensures ok ==> staged == WithTextures(old(staged), meshFile, header)
      ensures !ok ==> staged == old(staged)
    {
      var fit, st := ReadTextureTables(meshFile, header, staged);
      staged := st;
      ok := fit;
    }

    /** The animation sequences: copied before 0x108, laid on one timeline from 0x108 on. */
    method ReadAnimationData() returns (ok: bool)
      requires Valid()
      modifies this
      ensures Valid() && unchanged(this`meshFile, this`meshName, this`header, this`currentView, this`animatedMesh)
      ensures ok <==> AnimationsFit(meshFile, header)
      ensures ok ==> staged == old(staged).(animations := Animations(meshFile, header))
      ensures !ok ==> staged == old(staged)
    {
      if !AnimationsFit(meshFile, header) {
        return false;
      }
      var r := HeaderRef(header, ANIMATIONS);
      if Version(header) < 0x108 {
        var anims := ReadTable(meshFile, r.ofs, r.num, RAW_ANIMATION_SIZE, LegacyAnimationAt);
        staged := staged.(animations := anims);
      } else {
        var raws := ReadTable(meshFile, r.ofs, r.num, RAW_ANIMATION_MODERN_SIZE, RawSequenceAt);
        var anims := PlaceSequences(raws);
        staged := staged.(animations := anims);
      }
      ok := true;
    }

    /** The bones before 0x108: the records, then the keys of every track from the header's tables. */
    method ReadBones() returns (ok: bool)
      requires Valid()
      modifies this
      ensures Valid() && unchanged(this`meshFile, this`meshName, this`header, this`currentView, this`animatedMesh)
      ensures ok <==> LegacyBoneRecordsFit(meshFile, header)
                      && LegacyTracksFit(meshFile, LegacyBoneRecords(meshFile, header), Version(header))
      ensures ok ==> staged == old(staged).(bones := LegacyBones(meshFile, LegacyBoneRecords(meshFile, header), Version(header)))
      ensures !ok ==> staged == old(staged)
    {
      if !LegacyBoneRecordsFit(meshFile, header) {
        return false;
      }
      var r := HeaderRef(header, BONES);
      var version := Version(header);
      var recs := ReadTable(meshFile, r.ofs, r.num, LegacyBoneSize(version), LegacyBoneDecoder(version));
      if !LegacyTracksFit(meshFile, recs, version) {
        return false;
      }
      var bs := ReadLegacyTracks(meshFile, recs, version);
      staged := staged.(bones := bs);
      ok := true;
    }

    /**
     * The bones from 0x108 on: the records, then sequence by sequence the keys
     * each bone has for it, read from the sequence's .anim file or from the
     * model file. A sequence whose .anim file is missing is skipped. The
     * animations must be read first.
     */
    method ReadBonesWOTLK() returns (ok: bool)
      requires Valid()
      modifies this
      ensures Valid() && unchanged(this`meshFile, this`meshName, this`header, this`currentView, this`animatedMesh)
      ensures ok <==> ModernBoneRecordsFit(meshFile, header)
                      && ModernTracksFit(meshFile, AnimSources(meshFile, meshName, files, staged.animations), ModernBoneRecords(meshFile, header))
      ensures ok ==> staged == old(staged).(bones := ModernBones(meshFile, AnimSources(meshFile, meshName, files, staged.animations),
                                                                      Starts(staged.animations), ModernBoneRecords(meshFile, header), |staged.animations|))
      ensures !ok ==> staged == old(staged)
    {
      if !ModernBoneRecordsFit(meshFile, header) {
        return false;
      }
      var r := HeaderRef(header, BONES);
      var recs := ReadTable(meshFile, r.ofs, r.num, MODERN_BONE_SIZE, ModernBoneAt);
      var fit, bs := ReadSequenceTracks(meshFile, meshName, files, staged.animations, recs);
      if !fit {
        return false;
      }
      staged := staged.(bones := bs);
      ok := true;
    }

    /**
     * The readers in the order load() calls them, the view data read from
     * `file`: ok when every table lies inside its file, and the staging arrays
     * then hold what ReadAll reads.
     */
    method ReadTables(file: seq<byte>) returns (ok: bool)
      requires Valid()
      modifies this
      ensures Valid() && unchanged(this`meshFile, this`meshName, this`header, this`currentView, this`animatedMesh)
      ensures ok <==> TablesFit(meshFile, meshName, files, header, file, currentView)
      ensures ok ==> staged == StagedOf(meshFile, meshName, files, header, file, currentView)
    {
      ok := ReadViewData(file);
      if !ok {
        return;
      }
      ok := ReadVertices();
      if !ok {
        return;
      }
      ok := ReadTextureDefinitions();
      if !ok {
        return;
      }
      ok := ReadAnimationData();
      if !ok {
        return;
      }
      if Version(header) != 0x108 {
        ok := ReadBones();
      } else {
        ok := ReadBonesWOTLK();
      }
    }

    /**
     * The version switch of load(): the header image read over the previous
     * one, then the view, from the model file or from the skin file. Returns
     * the file the view data is in.
     */
    method ReadHeaderAndView() returns (file: Option<seq<byte>>)
      requires Valid()
      modifies this
      ensures Valid() && unchanged(this`meshFile, this`meshName, this`staged, this`animatedMesh)
      ensures header == SwitchedHeader(meshFile, old(header))
      ensures file.Some? <==> ViewPlace(meshFile, meshName, files, old(header)).Some?
      ensures file.Some? ==> ViewPlace(meshFile, meshName, files, old(header)).value == (header, file.value, currentView)
      ensures file.None? ==> currentView == old(currentView)
    {
      var image := HeaderImage(meshFile, header);
      header := SwitchedHeader(meshFile, header);
      if image.None? {
        return None;
      }
      ImageVersion(meshFile, old(header));
      var source := ViewSource(meshFile, meshName, files, header);
      if source.None? {
        return None;
      }
      var (f, at) := source.value;
      if !Fits(f, at, 1, MODEL_VIEW_SIZE) {
        return None;
      }
      currentView := ModelViewAt(f, at);
      file := Some(f);
    }

    /**
     * load(): the version switch, the readers, then the mesh assembled from
     * the staging arrays, which are cleared except for the animations and the
     * bones. The outcome is LoadResult's.
     */
    method Load() returns (ok: bool)
      requires Valid()
      modifies this
      ensures Valid() && meshFile == old(meshFile) && meshName == old(meshName)
      ensures header == SwitchedHeader(meshFile, old(header))
      ensures ViewPlace(meshFile, meshName, files, old(header)).None? ==> currentView == old(currentView) && staged == old(staged)
      ensures ok <==> LoadResult(meshFile, meshName, files, available, old(header)).Some?
      ensures ok ==> animatedMesh == LoadResult(meshFile, meshName, files, available, old(header))
      ensures ok ==> header == ReadAll(meshFile, meshName, files, old(header)).value.header
                     && currentView == ReadAll(meshFile, meshName, files, old(header)).value.view
      ensures ok ==> staged == NOTHING_STAGED.(animations := ReadAll(meshFile, meshName, files, old(header)).value.staged.animations,
                                               bones := ReadAll(meshFile, meshName, files, old(header)).value.staged.bones)
      ensures !ok ==> animatedMesh == old(animatedMesh)
    {
      ghost var prev := header;
      assert |prev| == HEADER_SIZE;
      var file := ReadHeaderAndView();
      if file.None? {
        NoPlaceNoMesh(meshFile, meshName, files, available, prev);
        return false;
      }
      LoadFromPlace(meshFile, meshName, files, available, prev, header, file.value, currentView);
      StagedOfAssembles(meshFile, meshName, files, header, file.value, currentView);
      ok := ReadTables(file.value);
      if !ok {
        return;
      }
      var mesh := AssembleMesh(staged, available);
      if mesh.None? {
        return false;
      }
      KeepMesh(mesh.value);
    }

    /** The end of a load that assembled a mesh: the mesh is kept and the staging arrays are cleared but for the animations and bones. */
    method KeepMesh(mesh: Mesh)
      requires Valid()
      modifies this
      ensures Valid() && unchanged(this`meshFile, this`meshName, this`header, this`currentView)
      ensures animatedMesh == Some(mesh)
      ensures staged == NOTHING_STAGED.(animations := old(staged).animations, bones := old(staged).bones)
    {
      animatedMesh := Some(mesh);
      staged := NOTHING_STAGED.(animations := staged.animations, bones := staged.bones);
    }

    /**
     * createMesh: no file gives no mesh; otherwise the file becomes the mesh
     * file and the mesh is the one Load assembles, or none when it fails.
     */
    method CreateMesh(file: Option<seq<byte>>, name: string) returns (m: Option<Mesh>)
      requires Valid()
      modifies this
      ensures Valid()
      ensures file.None? ==> m.None? && unchanged(this)
      ensures file.Some? ==> m == LoadResult(file.value, name, files, available, old(header)) && animatedMesh == m
      ensures file.Some? ==> meshFile == file.value && meshName == name
      ensures file.Some? ==> header == SwitchedHeader(file.value, old(header))
    {
      if file.None? {
        return None;
      }
      meshFile, meshName := file.value, name;
      var ok := Load();
      if !ok {
        animatedMesh := None;
      }
      m := animatedMesh;
    }
  }

  /**
   * The per-sequence pass of ReadBonesWOTLK: every sequence whose data file is present
   * adds its keys to every bone, and a table outside its file fails the whole pass.
   */
  method ReadSequenceTracks(mesh: seq<byte>, meshName: string, files: map<string, seq<byte>>,
                            animations: seq<Animation>, recs: seq<Bone>) returns (ok: bool, bs: seq<Bone>)
    ensures ok <==> ModernTracksFit(mesh, AnimSources(mesh, meshName, files, animations), recs)
    ensures ok ==> bs == ModernBones(mesh, AnimSources(mesh, meshName, files, animations), Starts(animations), recs, |animations|)
  {
    ghost var sources := AnimSources(mesh, meshName, files, animations);
    ghost var starts := Starts(animations);
    bs := recs;
    var i := 0;
    while i < |animations|
      invariant 0 <= i <= |animations|
      invariant bs == ModernBones(mesh, sources, starts, recs, i)
      invariant TracksFitUpTo(mesh, sources, recs, i)
    {
      var src := AnimSource(mesh, meshName, files, animations[i]);
      var more, next := NextSequence(mesh, sources, starts, recs, i, src, animations[i].start, bs);
      if !more {
        return false, bs;
      }
      bs := next;
      i := i + 1;
    }
    TracksFitAll(mesh, sources, recs);
    ok := true;
  }

  /** One round of ReadSequenceTracks: sequence i's keys added to every bone, when its source was opened. */
  method NextSequence(mesh: seq<byte>, ghost sources: seq<Option<seq<byte>>>, ghost starts: seq<nat>, recs: seq<Bone>,
                      i: nat, src: Option<seq<byte>>, start: nat, bs: seq<Bone>) returns (ok: bool, next: seq<Bone>)
    requires i < |sources| == |starts| && sources[i] == src && starts[i] == start
    requires bs == ModernBones(mesh, sources, starts, recs, i) && TracksFitUpTo(mesh, sources, recs, i)
    ensures !ok ==> !ModernTracksFit(mesh, sources, recs)
    ensures ok ==> next == ModernBones(mesh, sources, starts, recs, i + 1) && TracksFitUpTo(mesh, sources, recs, i + 1)
  {
    if src.Some? {
      if !AllBonesFit(mesh, src.value, recs, i) {
        TracksFitAt(mesh, sources, recs, i);
        return false, bs;
      }
      next := AddSequence(mesh, src.value, bs, i, start);
      SequenceStep(mesh, sources, starts, recs, i, bs, next);
    } else {
      next := bs;
      SkippedStep(mesh, sources, starts, recs, i);
    }
    TracksFitStep(mesh, sources, recs, i);
    ok := true;
  }

  /** The staged tables once the texture tables of h have been read from mesh. */
  function WithTextures(st: Staged, mesh: seq<byte>, h: seq<byte>): (r: Staged)
    ensures r.indices == st.indices && r.vertices == st.vertices && r.animations == st.animations && r.bones == st.bones
    ensures r.textureLookup == TextureLookup(mesh, h) && r.textureDefs == TextureDefinitions(mesh, h)
    ensures r.renderFlags == RenderFlagsTable(mesh, h) && r.textureFiles == TextureNames(mesh, r.textureDefs)
  {
    st.(textureLookup := TextureLookup(mesh, h), textureDefs := TextureDefinitions(mesh, h),
        renderFlags := RenderFlagsTable(mesh, h), textureFiles := TextureNames(mesh, TextureDefinitions(mesh, h)))
  }

  /** ReadTextureDefinitions' four reads, in the order the loader makes them. */
  method ReadTextureTables(mesh: seq<byte>, h: seq<byte>, st: Staged) returns (ok: bool, r: Staged)
    ensures ok <==> TextureTablesFit(mesh, h) && NamesFit(mesh, TextureDefinitions(mesh, h))
    ensures ok ==> r == WithTextures(st, mesh, h)
    ensures !ok ==> r == st
  {
    if !TextureTablesFit(mesh, h) || !NamesFit(mesh, TextureDefinitions(mesh, h)) {
      return false, st;
    }
    var l := HeaderRef(h, TEX_LOOKUP);
    var t := HeaderRef(h, TEXTURES);
    var f := HeaderRef(h, TEX_FLAGS);
    var lookup := ReadTable(mesh, l.ofs, l.num, 2, U16At);
    var defs := ReadTable(mesh, t.ofs, t.num, TEXTURE_DEFINITION_SIZE, TextureDefinitionAt);
    var flags := ReadTable(mesh, f.ofs, f.num, RENDER_FLAGS_SIZE, RenderFlagsAt);
    var names := ReadNames(mesh, defs);
    ok, r := true, st.(textureLookup := lookup, textureDefs := defs, renderFlags := flags, textureFiles := names);
  }

  /** Every bone's tables for sequence i lie inside the model file and src. */
  predicate AllBonesFit(mesh: seq<byte>, src: seq<byte>, recs: seq<Bone>, i: nat)
  {
    forall j :: 0 <= j < |recs| ==> SequenceBoneFits(mesh, src, recs[j], i)
  }

  /** The first n sequences with a source find all their tables inside their files. */
  predicate TracksFitUpTo(mesh: seq<byte>, sources: seq<Option<seq<byte>>>, recs: seq<Bone>, n: nat)
    requires n <= |sources|
  {
    forall i :: 0 <= i < n && sources[i].Some? ==> AllBonesFit(mesh, sources[i].value, recs, i)
  }

  lemma TracksFitStep(mesh: seq<byte>, sources: seq<Option<seq<byte>>>, recs: seq<Bone>, n: nat)
    requires n < |sources| && TracksFitUpTo(mesh, sources, recs, n)
    requires sources[n].Some? ==> AllBonesFit(mesh, sources[n].value, recs, n)
    ensures TracksFitUpTo(mesh, sources, recs, n + 1)
  {
  }

  lemma TracksFitAll(mesh: seq<byte>, sources: seq<Option<seq<byte>>>, recs: seq<Bone>)
    requires TracksFitUpTo(mesh, sources, recs, |sources|)
    ensures ModernTracksFit(mesh, sources, recs)
  {
    forall i, j | 0 <= i < |sources| && 0 <= j < |recs| && sources[i].Some?
      ensures SequenceBoneFits(mesh, sources[i].value, recs[j], i)
    {
      assert AllBonesFit(mesh, sources[i].value, recs, i);
    }
  }

  lemma TracksFitAt(mesh: seq<byte>, sources: seq<Option<seq<byte>>>, recs: seq<Bone>, i: nat)
    requires i < |sources| && sources[i].Some? && !AllBonesFit(mesh, sources[i].value, recs, i)
    ensures !ModernTracksFit(mesh, sources, recs)
  {
  }

  /** Adding sequence i to the bones after i sequences gives the bones after i + 1. */
  lemma SequenceStep(mesh: seq<byte>, sources: seq<Option<seq<byte>>>, starts: seq<nat>, recs: seq<Bone>, i: nat,
                     bs: seq<Bone>, next: seq<Bone>)
    requires i < |sources| == |starts| && sources[i].Some?
    requires bs == ModernBones(mesh, sources, starts, recs, i)
    requires |next| == |bs| && forall j :: 0 <= j < |next| ==> next[j] == SequenceBone(mesh, sources[i].value, bs[j], i, starts[i])
    ensures next == ModernBones(mesh, sources, starts, recs, i + 1)
  {
  }

  /** A skipped sequence leaves the bones as they are. */
  lemma SkippedStep(mesh: seq<byte>, sources: seq<Option<seq<byte>>>, starts: seq<nat>, recs: seq<Bone>, i: nat)
    requires i < |sources| == |starts| && sources[i].None?
    ensures ModernBones(mesh, sources, starts, recs, i + 1) == ModernBones(mesh, sources, starts, recs, i)
  {
  }
}
