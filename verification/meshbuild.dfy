/**
 * The animated mesh the loader assembles once every table is read: one
 * animation per sequence, one joint per bone, one mesh buffer per submesh
 * with its rebased indices, its vertices, its bone weights and its material.
 * Where the loader would index past the end of one of its arrays, the
 * assembly is None.
 */
module MeshBuild {
  import opened Common
  import opened Bytes
  import opened Geometry
  import opened Records
  import opened Materials

  /** A key of a joint track: a frame and the value at that frame. */
  datatype Key<T> = Key(frame: nat, value: T)

  datatype Joint = Joint(parent: Option<nat>, positionKeys: seq<Key<Vec3<TrackValue>>>,
                         rotationKeys: seq<Key<Quat<TrackValue>>>, scaleKeys: seq<Key<Vec3<TrackValue>>>,
                         animatedPosition: Vec3<nat>)

  /** How strongly one vertex of one buffer follows one joint. */
  datatype Weight = Weight(joint: nat, strength: nat, vertex: nat, buffer: nat)

  /** A buffer vertex; its colour is the same grey for every vertex. */
  datatype Vertex = Vertex(pos: Vec3<nat>, normal: Vec3<nat>, texU: nat, texV: nat)

  datatype MeshBuffer = MeshBuffer(meshpartId: nat, indices: seq<nat>, vertices: seq<Vertex>, material: Material)

  datatype Mesh = Mesh(animations: seq<Animation>, joints: seq<Joint>, buffers: seq<MeshBuffer>, weights: seq<Weight>)

  /** Everything the readers leave for the assembly. */
  datatype Staged = Staged(indices: seq<nat>, triangles: seq<nat>, submeshes: seq<ViewSubmesh>,
                           textureUnits: seq<TextureUnit>, vertices: seq<ModelVertex>, textureLookup: seq<nat>,
                           textureDefs: seq<TextureDefinition>, renderFlags: seq<RenderFlags>,
                           textureFiles: seq<string>, animations: seq<Animation>, bones: seq<Bone>)

  // ---------------------------------------------------------------------------
  // Joints.
  // ---------------------------------------------------------------------------

  /**
   * The parent of joint i: none for -1, an earlier joint otherwise; any other
   * value indexes past the joints created so far.
   */
  function JointParent(parentBone: int, i: nat): (r: Option<Option<nat>>)
    ensures r == Some(None) <==> parentBone == -1
    ensures r.None? <==> parentBone != -1 && !(0 <= parentBone < i)
    ensures r.Some? && r.value.Some? ==> r.value.value == parentBone && r.value.value < i
  {
    if parentBone == -1 then Some(None)
    else if 0 <= parentBone < i then Some(Some(parentBone))
    else None
  }

  /** Every key of a track finds its `comps` values. */
  predicate KeysFit(t: Track, comps: nat)
  {
    comps * |t.timestamps| <= |t.values|
  }

  function PositionKey(t: Track, j: nat): (r: Key<Vec3<TrackValue>>)
    requires KeysFit(t, 3) && j < |t.timestamps|
    ensures r.frame == t.timestamps[j]
    ensures FixCoordSystem(r.value) == Vec3(t.values[3 * j], t.values[3 * j + 1], t.values[3 * j + 2])
  {
    var v := Vec3(t.values[3 * j], t.values[3 * j + 1], t.values[3 * j + 2]);
    FixCoordSystemInvolution(v);
    Key(t.timestamps[j], FixCoordSystem(v))
  }

  function RotationKey(t: Track, j: nat): (r: Key<Quat<TrackValue>>)
    requires KeysFit(t, 4) && j < |t.timestamps|
    ensures r.frame == t.timestamps[j]
    ensures FixQuaternion(r.value) == Quat(t.values[4 * j], t.values[4 * j + 1], t.values[4 * j + 2], t.values[4 * j + 3])
  {
    var q := Quat(t.values[4 * j], t.values[4 * j + 1], t.values[4 * j + 2], t.values[4 * j + 3]);
    FixQuaternionInvolution(q);
    Key(t.timestamps[j], FixQuaternion(q))
  }

  function ScaleKey(t: Track, j: nat): (r: Key<Vec3<TrackValue>>)
    requires KeysFit(t, 3) && j < |t.timestamps|
    ensures r.frame == t.timestamps[j]
    ensures r.value == Vec3(t.values[3 * j], t.values[3 * j + 1], t.values[3 * j + 2])
  {
    Key(t.timestamps[j], Vec3(t.values[3 * j], t.values[3 * j + 1], t.values[3 * j + 2]))
  }

  predicate JointFits(b: Bone, i: nat)
  {
    JointParent(b.parentBone, i).Some? && KeysFit(b.translation, 3) && KeysFit(b.rotation, 4) && KeysFit(b.scaling, 3)
  }

  /** Joint i, made from bone i: one key per timestamp of each track. */
  function BuildJoint(b: Bone, i: nat): (r: Joint)
    requires JointFits(b, i)
    ensures |r.positionKeys| == |b.translation.timestamps| && |r.rotationKeys| == |b.rotation.timestamps|
            && |r.scaleKeys| == |b.scaling.timestamps|
    ensures r.parent == JointParent(b.parentBone, i).value && r.animatedPosition == b.pivot
  {
    Joint(JointParent(b.parentBone, i).value,
          seq(|b.translation.timestamps|, j requires 0 <= j < |b.translation.timestamps| => PositionKey(b.translation, j)),
          seq(|b.rotation.timestamps|, j requires 0 <= j < |b.rotation.timestamps| => RotationKey(b.rotation, j)),
          seq(|b.scaling.timestamps|, j requires 0 <= j < |b.scaling.timestamps| => ScaleKey(b.scaling, j)),
          b.pivot)
  }

  /** The joints of the first n bones, or None when one of them does not fit. */
  function JointsUpTo(bones: seq<Bone>, n: nat): (r: Option<seq<Joint>>)
    requires n <= |bones|
    ensures r.Some? <==> forall i :: 0 <= i < n ==> JointFits(bones[i], i)
    ensures r.Some? ==> |r.value| == n && forall i :: 0 <= i < n ==> r.value[i] == BuildJoint(bones[i], i)
    decreases n
  {
    if n == 0 then Some([])
    else match JointsUpTo(bones, n - 1)
      case None => None
      case Some(js) => if JointFits(bones[n - 1], n - 1) then Some(js + [BuildJoint(bones[n - 1], n - 1)]) else None
  }

  /** Every parent is a joint created before its child. */
  predicate ParentsFirst(js: seq<Joint>)
  {
    forall k :: 0 <= k < |js| && js[k].parent.Some? ==> js[k].parent.value < k
  }

  lemma JointsParentsFirst(bones: seq<Bone>)
    requires JointsUpTo(bones, |bones|).Some?
    ensures ParentsFirst(JointsUpTo(bones, |bones|).value)
  {
    var js := JointsUpTo(bones, |bones|).value;
    forall k | 0 <= k < |js| && js[k].parent.Some?
      ensures js[k].parent.value < k
    {
      assert js[k] == BuildJoint(bones[k], k);
    }
  }

  /** Following parents from joint k ends at a root, a joint without parent. */
  function RootOf(js: seq<Joint>, k: nat): (r: nat)
    requires ParentsFirst(js) && k < |js|
    ensures r <= k && js[r].parent.None?
    ensures js[k].parent.None? ==> r == k
    ensures js[k].parent.Some? ==> r == RootOf(js, js[k].parent.value)
    decreases k
  {
    match js[k].parent
    case None => k
    case Some(p) => RootOf(js, p)
  }

  // ---------------------------------------------------------------------------
  // Mesh buffers.
  // ---------------------------------------------------------------------------

  /** A buffer index: the vertex index minus the submesh's first vertex, kept to 16 bits. */
  function Rebase(index: nat, ofsVertex: nat): (r: nat)
    ensures r < U16_RANGE && r == ToU16(index - ofsVertex)
  {
    ToU16(index - ofsVertex)
  }

  /**
   * An index at or after the submesh's first vertex keeps its distance to it,
   * and one of the submesh's own vertices lands inside its buffer; an index
   * before it (the case the loader logs) wraps to 65536 less the distance.
   */
  lemma RebaseWraps(index: nat, ofsVertex: nat, nVertex: nat)
    requires index < U16_RANGE && ofsVertex < U16_RANGE
    ensures index >= ofsVertex ==> Rebase(index, ofsVertex) == index - ofsVertex
    ensures ofsVertex <= index < ofsVertex + nVertex ==> Rebase(index, ofsVertex) < nVertex
    ensures index < ofsVertex ==> Rebase(index, ofsVertex) == U16_RANGE + index - ofsVertex
    ensures Rebase(index, ofsVertex) == index - ofsVertex <==> index >= ofsVertex
  {
  }

  /** Every triangle corner of the submesh is an entry of triangles naming an entry of indices. */
  predicate IndicesFit(sm: ViewSubmesh, indices: seq<nat>, triangles: seq<nat>)
  {
    forall j :: sm.ofsTris <= j < sm.ofsTris + sm.nTris ==> CornerFits(indices, triangles, j)
  }

  /** Entry j of triangles exists and names an entry of indices. */
  predicate CornerFits(indices: seq<nat>, triangles: seq<nat>, j: nat)
  {
    j < |triangles| && triangles[j] < |indices|
  }

  /** Index k of the buffer: the k-th triangle corner of the submesh, rebased. */
  function BufferIndices(sm: ViewSubmesh, indices: seq<nat>, triangles: seq<nat>): (r: seq<nat>)
    requires IndicesFit(sm, indices, triangles)
    ensures |r| == sm.nTris
    ensures forall k :: 0 <= k < sm.nTris ==> r[k] == Corner(sm, indices, triangles, k)
  {
    seq(sm.nTris, k requires 0 <= k < sm.nTris => Corner(sm, indices, triangles, k))
  }

  /** The vertex index of triangle corner k of the submesh, rebased. */
  function Corner(sm: ViewSubmesh, indices: seq<nat>, triangles: seq<nat>, k: nat): (r: nat)
    requires IndicesFit(sm, indices, triangles) && k < sm.nTris
    ensures CornerFits(indices, triangles, sm.ofsTris + k)
    ensures r == Rebase(indices[triangles[sm.ofsTris + k]], sm.ofsVertex)
  {
    assert CornerFits(indices, triangles, sm.ofsTris + k);
    Rebase(indices[triangles[sm.ofsTris + k]], sm.ofsVertex)
  }

  /** The submesh's run of vertices lies inside the vertex table (an empty run reads nothing). */
  predicate VerticesFit(sm: ViewSubmesh, verts: seq<ModelVertex>)
  {
    sm.nVertex == 0 || sm.ofsVertex + sm.nVertex <= |verts|
  }

  function ToVertex(v: ModelVertex): (r: Vertex)
    ensures r.pos == v.pos && r.normal == v.normal && r.texU == v.texU && r.texV == v.texV
  {
    Vertex(v.pos, v.normal, v.texU, v.texV)
  }

  /** The submesh's run of vertices, in order. */
  function BufferVertices(sm: ViewSubmesh, verts: seq<ModelVertex>): (r: seq<Vertex>)
    requires VerticesFit(sm, verts)
    ensures |r| == sm.nVertex
  {
    seq(sm.nVertex, k requires 0 <= k < sm.nVertex => ToVertex(verts[sm.ofsVertex + k]))
  }

  lemma VerticesSnoc(sm: ViewSubmesh, verts: seq<ModelVertex>, n: nat)
    requires VerticesFit(sm, verts) && n < sm.nVertex
    ensures BufferVertices(sm, verts)[..n + 1] == BufferVertices(sm, verts)[..n] + [ToVertex(verts[sm.ofsVertex + n])]
  {
    var all := BufferVertices(sm, verts);
    assert all[..n + 1] == all[..n] + [all[n]];
  }

  /** The weights of one vertex, from its first n slots: one per positive weight. */
  function VertexWeights(v: ModelVertex, local: nat, buffer: nat, n: nat): (r: seq<Weight>)
    requires n <= 4
    decreases n
  {
    if n == 0 then []
    else
      VertexWeights(v, local, buffer, n - 1)
      + (if v.weights[n - 1] > 0 then [Weight(v.bones[n - 1], v.weights[n - 1], local, buffer)] else [])
  }

  /** Every weight belongs to the buffer, to one of its vertices lo..hi-1, and is positive. */
  predicate Attached(ws: seq<Weight>, buffer: nat, lo: nat, hi: nat)
  {
    forall k :: 0 <= k < |ws| ==> lo <= ws[k].vertex < hi && ws[k].buffer == buffer && ws[k].strength > 0
  }

  lemma AttachedConcat(a: seq<Weight>, b: seq<Weight>, buffer: nat, lo: nat, mid: nat, hi: nat)
    requires mid <= hi && Attached(a, buffer, lo, mid) && Attached(b, buffer, lo, hi)
    ensures Attached(a + b, buffer, lo, hi)
  {
    forall k | 0 <= k < |a + b|
      ensures lo <= (a + b)[k].vertex < hi && (a + b)[k].buffer == buffer && (a + b)[k].strength > 0
    {
      if k >= |a| {
        assert (a + b)[k] == b[k - |a|];
      }
    }
  }

  lemma AttachedWiden(ws: seq<Weight>, buffer: nat, lo: nat, hi: nat, lower: nat)
    requires lower <= lo && Attached(ws, buffer, lo, hi)
    ensures Attached(ws, buffer, lower, hi)
  {
  }

  /** The weights of one vertex belong to it and to its buffer, and are positive. */
  lemma {:induction false} VertexWeightsAttached(v: ModelVertex, local: nat, buffer: nat, n: nat)
    requires n <= 4
    ensures Attached(VertexWeights(v, local, buffer, n), buffer, local, local + 1)
  {
    if n > 0 {
      VertexWeightsAttached(v, local, buffer, n - 1);
      var last := if v.weights[n - 1] > 0 then [Weight(v.bones[n - 1], v.weights[n - 1], local, buffer)] else [];
      AttachedConcat(VertexWeights(v, local, buffer, n - 1), last, buffer, local, local + 1, local + 1);
    }
  }

  /** Every positive slot among the first n of a vertex yields its weight. */
  lemma {:induction false} VertexWeightsComplete(v: ModelVertex, local: nat, buffer: nat, n: nat)
    requires n <= 4
    ensures Complete(v, VertexWeights(v, local, buffer, n), local, buffer, n)
  {
    if n > 0 {
      VertexWeightsComplete(v, local, buffer, n - 1);
      var ws := VertexWeights(v, local, buffer, n);
      forall k | 0 <= k < n && v.weights[k] > 0
        ensures Weight(v.bones[k], v.weights[k], local, buffer) in ws
      {
        if k < n - 1 {
          assert Weight(v.bones[k], v.weights[k], local, buffer) in VertexWeights(v, local, buffer, n - 1);
        } else {
          assert ws[|ws| - 1] == Weight(v.bones[k], v.weights[k], local, buffer);
        }
      }
    }
  }

  /** Every positive weight among the vertex's first n slots has its weight in ws. */
  predicate Complete(v: ModelVertex, ws: seq<Weight>, local: nat, buffer: nat, n: nat)
    requires n <= 4
  {
    forall k :: 0 <= k < n && v.weights[k] > 0 ==> Weight(v.bones[k], v.weights[k], local, buffer) in ws
  }

  /** Every bone a positive weight of the vertex names is one of nJoints joints. */
  predicate BonesBelow(v: ModelVertex, nJoints: nat)
  {
    forall k :: 0 <= k < 4 && v.weights[k] > 0 ==> v.bones[k] < nJoints
  }

  /** Every bone a positive weight of the submesh's first n vertices names is a joint. */
  predicate WeightsFit(sm: ViewSubmesh, verts: seq<ModelVertex>, nJoints: nat, n: nat)
    requires VerticesFit(sm, verts) && n <= sm.nVertex
  {
    n == 0 || (WeightsFit(sm, verts, nJoints, n - 1) && BonesBelow(verts[sm.ofsVertex + n - 1], nJoints))
  }

  /** Each weight of a vertex comes from one of its slots. */
  lemma {:induction false} WeightsFromSlots(v: ModelVertex, local: nat, buffer: nat, n: nat, w: Weight)
    requires n <= 4 && w in VertexWeights(v, local, buffer, n)
    ensures exists k :: 0 <= k < n && v.weights[k] == w.strength && v.bones[k] == w.joint
  {
    if w !in VertexWeights(v, local, buffer, n - 1) {
      assert v.weights[n - 1] == w.strength && v.bones[n - 1] == w.joint;
    } else {
      WeightsFromSlots(v, local, buffer, n - 1, w);
    }
  }

  lemma VertexWeightsNameJoints(v: ModelVertex, local: nat, buffer: nat, nJoints: nat)
    requires BonesBelow(v, nJoints)
    ensures NameJoints(VertexWeights(v, local, buffer, 4), nJoints)
  {
    var ws := VertexWeights(v, local, buffer, 4);
    forall k | 0 <= k < |ws|
      ensures ws[k].joint < nJoints
    {
      WeightsFromSlots(v, local, buffer, 4, ws[k]);
    }
  }

  /** The weights of the submesh's first n vertices, vertex by vertex. */
  function BufferWeights(sm: ViewSubmesh, verts: seq<ModelVertex>, buffer: nat, n: nat): (r: seq<Weight>)
    requires VerticesFit(sm, verts) && n <= sm.nVertex
    decreases n
  {
    if n == 0 then []
    else BufferWeights(sm, verts, buffer, n - 1) + WeightsOfVertex(sm, verts, buffer, n - 1)
  }

  lemma BufferWeightsSnoc(sm: ViewSubmesh, verts: seq<ModelVertex>, buffer: nat, n: nat)
    requires VerticesFit(sm, verts) && n < sm.nVertex
    ensures BufferWeights(sm, verts, buffer, n + 1) == BufferWeights(sm, verts, buffer, n) + WeightsOfVertex(sm, verts, buffer, n)
  {
  }

  lemma WeightsFitSnoc(sm: ViewSubmesh, verts: seq<ModelVertex>, nJoints: nat, n: nat)
    requires VerticesFit(sm, verts) && n < sm.nVertex
    ensures WeightsFit(sm, verts, nJoints, n + 1) <==> WeightsFit(sm, verts, nJoints, n) && BonesBelow(verts[sm.ofsVertex + n], nJoints)
  {
  }

  /** The weights of the submesh's vertex j, from all four of its slots. */
  function WeightsOfVertex(sm: ViewSubmesh, verts: seq<ModelVertex>, buffer: nat, j: nat): seq<Weight>
    requires VerticesFit(sm, verts) && j < sm.nVertex
  {
    var v := verts[sm.ofsVertex + j];
    VertexWeights(v, j, buffer, 4)
  }

  /** The weights of the submesh's first n vertices belong to the buffer and to those vertices. */
  lemma {:induction false} BufferWeightsAttached(sm: ViewSubmesh, verts: seq<ModelVertex>, buffer: nat, n: nat)
    requires VerticesFit(sm, verts) && n <= sm.nVertex
    ensures Attached(BufferWeights(sm, verts, buffer, n), buffer, 0, n)
  {
    if n > 0 {
      var prev := BufferWeights(sm, verts, buffer, n - 1);
      var last := WeightsOfVertex(sm, verts, buffer, n - 1);
      BufferWeightsAttached(sm, verts, buffer, n - 1);
      WeightsOfVertexAttached(sm, verts, buffer, n - 1);
      AttachedAppend(prev, last, buffer, n - 1);
    }
  }

  /** Weights of vertices 0..m-1 followed by weights of vertex m are weights of vertices 0..m. */
  lemma AttachedAppend(a: seq<Weight>, b: seq<Weight>, buffer: nat, m: nat)
    requires Attached(a, buffer, 0, m) && Attached(b, buffer, m, m + 1)
    ensures Attached(a + b, buffer, 0, m + 1)
  {
    AttachedWiden(b, buffer, m, m + 1, 0);
    AttachedConcat(a, b, buffer, 0, m, m + 1);
  }

  lemma WeightsOfVertexAttached(sm: ViewSubmesh, verts: seq<ModelVertex>, buffer: nat, j: nat)
    requires VerticesFit(sm, verts) && j < sm.nVertex
    ensures Attached(WeightsOfVertex(sm, verts, buffer, j), buffer, j, j + 1)
  {
    var v := verts[sm.ofsVertex + j];
    VertexWeightsAttached(v, j, buffer, 4);
  }

  /** Every weight names one of nJoints joints. */
  predicate NameJoints(ws: seq<Weight>, nJoints: nat)
  {
    forall k :: 0 <= k < |ws| ==> ws[k].joint < nJoints
  }

  lemma NameJointsConcat(a: seq<Weight>, b: seq<Weight>, nJoints: nat)
    requires NameJoints(a, nJoints) && NameJoints(b, nJoints)
    ensures NameJoints(a + b, nJoints)
  {
    forall k | 0 <= k < |a + b|
      ensures (a + b)[k].joint < nJoints
    {
      if k >= |a| {
        assert (a + b)[k] == b[k - |a|];
      }
    }
  }

  /** A weight of the buffer names a joint when WeightsFit holds. */
  lemma {:induction false} BufferWeightsNameJoints(sm: ViewSubmesh, verts: seq<ModelVertex>, buffer: nat, n: nat, nJoints: nat)
    requires VerticesFit(sm, verts) && n <= sm.nVertex && WeightsFit(sm, verts, nJoints, n)
    ensures NameJoints(BufferWeights(sm, verts, buffer, n), nJoints)
  {
    if n > 0 {
      BufferWeightsNameJoints(sm, verts, buffer, n - 1, nJoints);
      NextVertexNamesJoints(sm, verts, buffer, n, nJoints);
    }
  }

  lemma NextVertexNamesJoints(sm: ViewSubmesh, verts: seq<ModelVertex>, buffer: nat, n: nat, nJoints: nat)
    requires VerticesFit(sm, verts) && 0 < n <= sm.nVertex
    requires NameJoints(BufferWeights(sm, verts, buffer, n - 1), nJoints) && BonesBelow(verts[sm.ofsVertex + n - 1], nJoints)
    ensures NameJoints(BufferWeights(sm, verts, buffer, n), nJoints)
  {
    WeightsOfVertexNamesJoints(sm, verts, buffer, n - 1, nJoints);
    NameJointsConcat(BufferWeights(sm, verts, buffer, n - 1), WeightsOfVertex(sm, verts, buffer, n - 1), nJoints);
  }

  lemma WeightsOfVertexNamesJoints(sm: ViewSubmesh, verts: seq<ModelVertex>, buffer: nat, j: nat, nJoints: nat)
    requires VerticesFit(sm, verts) && j < sm.nVertex && BonesBelow(verts[sm.ofsVertex + j], nJoints)
    ensures NameJoints(WeightsOfVertex(sm, verts, buffer, j), nJoints)
  {
    var v := verts[sm.ofsVertex + j];
    VertexWeightsNameJoints(v, j, buffer, nJoints);
  }

  /** The render flags of every entry are 16-bit. */
  predicate FlagsInRange(rfs: seq<RenderFlags>)
  {
    forall k :: 0 <= k < |rfs| ==> rfs[k].flags < U16_RANGE
  }

  /**
   * The material of buffer i after its texture units among the first n:
   * a unit of buffer i with a non-empty texture name that the driver can
   * load sets that texture in its slot and applies its render flags; a unit
   * whose texture cannot be loaded is skipped. None where a lookup indexes
   * past the end of a table.
   */
  function MaterialUpTo(units: seq<TextureUnit>, i: nat, lookup: seq<nat>, files: seq<string>,
                        rfs: seq<RenderFlags>, available: set<string>, n: nat): (r: Option<Material>)
    requires n <= |units| && FlagsInRange(rfs)
    ensures r.Some? ==> forall t :: t in r.value.textures ==> r.value.textures[t] in available && r.value.textures[t] != ""
    decreases n
  {
    if n == 0 then Some(DEFAULT_MATERIAL)
    else match MaterialUpTo(units, i, lookup, files, rfs, available, n - 1)
      case None => None
      case Some(m) =>
        var u := units[n - 1];
        if u.submeshIndex1 != i then Some(m)
        else if u.textureIndex >= |lookup| || lookup[u.textureIndex] >= |files| then None
        else
          var name := files[lookup[u.textureIndex]];
          if name == "" || name !in available then Some(m)
          else if u.renderFlagsIndex >= |rfs| then None
          else Some(ApplyRenderFlags(m.(textures := m.textures[u.textureUnitNumber := name]), rfs[u.renderFlagsIndex]))
  }

  /** A buffer no texture unit points at keeps the default material. */
  lemma {:induction false} UnboundBufferKeepsDefault(units: seq<TextureUnit>, i: nat, lookup: seq<nat>, files: seq<string>,
                                                     rfs: seq<RenderFlags>, available: set<string>, n: nat)
    requires n <= |units| && FlagsInRange(rfs)
    requires forall k :: 0 <= k < n ==> units[k].submeshIndex1 != i
    ensures MaterialUpTo(units, i, lookup, files, rfs, available, n) == Some(DEFAULT_MATERIAL)
  {
    if n > 0 {
      UnboundBufferKeepsDefault(units, i, lookup, files, rfs, available, n - 1);
    }
  }

  /** The vertices of buffer i, and the bones their weights name, lie inside the tables. */
  predicate WeightsReadable(st: Staged, i: nat)
  {
    i < |st.submeshes|
    && VerticesFit(st.submeshes[i], st.vertices)
    && WeightsFit(st.submeshes[i], st.vertices, |st.bones|, st.submeshes[i].nVertex)
  }

  /** Everything buffer i needs lies inside the tables. */
  predicate BufferFits(st: Staged, available: set<string>, i: nat)
  {
    WeightsReadable(st, i) && FlagsInRange(st.renderFlags)
    && IndicesFit(st.submeshes[i], st.indices, st.triangles)
    && MaterialUpTo(st.textureUnits, i, st.textureLookup, st.textureFiles, st.renderFlags, available, |st.textureUnits|).Some?
  }

  /** Buffer i: its submesh's mesh part, rebased indices, vertices and material. */
  function BuildBuffer(st: Staged, available: set<string>, i: nat): (r: MeshBuffer)
    requires BufferFits(st, available, i)
    ensures r.meshpartId == st.submeshes[i].meshpartId
    ensures |r.indices| == st.submeshes[i].nTris && |r.vertices| == st.submeshes[i].nVertex
  {
    var sm := st.submeshes[i];
    MeshBuffer(sm.meshpartId, BufferIndices(sm, st.indices, st.triangles), BufferVertices(sm, st.vertices),
               MaterialUpTo(st.textureUnits, i, st.textureLookup, st.textureFiles, st.renderFlags, available, |st.textureUnits|).value)
  }

  /** The weights of the first n buffers, buffer by buffer. */
  function WeightsUpTo(st: Staged, n: nat): seq<Weight>
    requires n <= |st.submeshes| && forall i :: 0 <= i < n ==> VerticesFit(st.submeshes[i], st.vertices)
    decreases n
  {
    if n == 0 then []
    else
      var sm := st.submeshes[n - 1];
      WeightsUpTo(st, n - 1) + BufferWeights(sm, st.vertices, n - 1, sm.nVertex)
  }

  /** One more buffer appends its own weights to those of the buffers before it. */
  lemma WeightsUpToSnoc(st: Staged, n: nat)
    requires n < |st.submeshes| && forall j :: 0 <= j <= n ==> VerticesFit(st.submeshes[j], st.vertices)
    ensures WeightsUpTo(st, n + 1) == WeightsUpTo(st, n) + BufferWeights(st.submeshes[n], st.vertices, n, st.submeshes[n].nVertex)
  {
  }

  /** A buffer that fits has readable weights. */
  lemma FitsReadable(st: Staged, available: set<string>)
    requires forall i :: 0 <= i < |st.submeshes| ==> BufferFits(st, available, i)
    ensures forall i :: 0 <= i < |st.submeshes| ==> WeightsReadable(st, i) && VerticesFit(st.submeshes[i], st.vertices)
  {
    forall i | 0 <= i < |st.submeshes|
      ensures WeightsReadable(st, i) && VerticesFit(st.submeshes[i], st.vertices)
    {
      assert BufferFits(st, available, i);
    }
  }

  /** The first n buffers, buffer j built from submesh j. */
  function BuiltBuffers(st: Staged, available: set<string>, n: nat): seq<MeshBuffer>
    requires n <= |st.submeshes| && forall j :: 0 <= j < n ==> BufferFits(st, available, j)
  {
    seq(n, j requires 0 <= j < n => BuildBuffer(st, available, j))
  }

  /** One more buffer built appends it to the ones before. */
  lemma BuiltBuffersSnoc(st: Staged, available: set<string>, n: nat)
    requires n < |st.submeshes| && forall j :: 0 <= j <= n ==> BufferFits(st, available, j)
    ensures BuiltBuffers(st, available, n + 1) == BuiltBuffers(st, available, n) + [BuildBuffer(st, available, n)]
  {
  }

  /**
   * One buffer per submesh, in submesh order, with the weights of all of
   * them; None when some buffer reads past a table.
   */
  function Buffers(st: Staged, available: set<string>): Option<(seq<MeshBuffer>, seq<Weight>)>
  {
    if forall i :: 0 <= i < |st.submeshes| ==> BufferFits(st, available, i) then
      FitsReadable(st, available);
      Some((BuiltBuffers(st, available, |st.submeshes|), WeightsUpTo(st, |st.submeshes|)))
    else None
  }

  /** Every weight names a joint, one of the first n buffers and a vertex of that buffer's submesh. */
  predicate WeightsInBuffers(ws: seq<Weight>, st: Staged, n: nat)
    requires n <= |st.submeshes|
  {
    forall k :: 0 <= k < |ws| ==>
      ws[k].buffer < n && ws[k].joint < |st.bones| && ws[k].vertex < st.submeshes[ws[k].buffer].nVertex
  }

  lemma WeightsInBuffersConcat(prev: seq<Weight>, ws: seq<Weight>, all: seq<Weight>, st: Staged, n: nat)
    requires 0 < n <= |st.submeshes| && WeightsInBuffers(prev, st, n - 1)
    requires Attached(ws, n - 1, 0, st.submeshes[n - 1].nVertex) && NameJoints(ws, |st.bones|)
    requires all == prev + ws
    ensures WeightsInBuffers(all, st, n)
  {
    forall k | 0 <= k < |all|
      ensures all[k].buffer < n && all[k].joint < |st.bones| && all[k].vertex < st.submeshes[all[k].buffer].nVertex
    {
      if k >= |prev| {
        assert all[k] == ws[k - |prev|];
      }
    }
  }

  /** The weights of the first n buffers name joints, buffers and vertices that exist. */
  lemma {:induction false} WeightsUpToResolve(st: Staged, n: nat)
    requires n <= |st.submeshes|
    requires forall i :: 0 <= i < n ==> VerticesFit(st.submeshes[i], st.vertices) && WeightsReadable(st, i)
    ensures WeightsInBuffers(WeightsUpTo(st, n), st, n)
    decreases n
  {
    if n > 0 {
      var sm := st.submeshes[n - 1];
      var ws := BufferWeights(sm, st.vertices, n - 1, sm.nVertex);
      assert WeightsReadable(st, n - 1);
      BufferWeightsResolve(st, n - 1, sm, ws);
      WeightsUpToResolve(st, n - 1);
      WeightsUpToSnoc(st, n - 1);
      WeightsInBuffersConcat(WeightsUpTo(st, n - 1), ws, WeightsUpTo(st, n), st, n);
    }
  }

  /** The weights of a buffer whose weights are readable belong to it and to its vertices, and name joints. */
  lemma BufferWeightsResolve(st: Staged, i: nat, sm: ViewSubmesh, ws: seq<Weight>)
    requires WeightsReadable(st, i) && sm == st.submeshes[i]
    requires ws == BufferWeights(sm, st.vertices, i, sm.nVertex)
    ensures Attached(ws, i, 0, sm.nVertex) && NameJoints(ws, |st.bones|)
  {
    BufferWeightsAttached(sm, st.vertices, i, sm.nVertex);
    BufferWeightsNameJoints(sm, st.vertices, i, sm.nVertex, |st.bones|);
  }

  /** Every weight of the mesh names one of its joints, one of its buffers and a vertex of that buffer. */
  predicate WeightsResolve(m: Mesh)
  {
    forall k :: 0 <= k < |m.weights| ==>
      m.weights[k].joint < |m.joints| && m.weights[k].buffer < |m.buffers|
      && m.weights[k].vertex < |m.buffers[m.weights[k].buffer].vertices|
  }

  /**
   * The assembled mesh, or None when the loader would index past an array:
   * the joints, then buffer i built from submesh i, with every weight
   * resolving to a joint, a buffer and a vertex of that buffer.
   */
  function Assemble(st: Staged, available: set<string>): (r: Option<Mesh>)
    ensures r.Some? <==> JointsUpTo(st.bones, |st.bones|).Some? && forall i :: 0 <= i < |st.submeshes| ==> BufferFits(st, available, i)
    ensures r.Some? ==> r.value.animations == st.animations && |r.value.joints| == |st.bones|
                        && |r.value.buffers| == |st.submeshes| && ParentsFirst(r.value.joints)
    ensures r.Some? ==> forall i :: 0 <= i < |st.submeshes| ==> r.value.buffers[i] == BuildBuffer(st, available, i)
    ensures r.Some? ==> WeightsResolve(r.value)
  {
    match JointsUpTo(st.bones, |st.bones|)
    case None => None
    case Some(js) =>
      match Buffers(st, available)
      case None => None
      case Some(bw) =>
        JointsParentsFirst(st.bones);
        FitsReadable(st, available);
        WeightsUpToResolve(st, |st.submeshes|);
        Some(Mesh(st.animations, js, bw.0, bw.1))
  }
}
