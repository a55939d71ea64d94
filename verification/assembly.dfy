/**
 * The assembly loops at the end of a load, each proved to build what
 * MeshBuild describes, and to give up exactly where MeshBuild says the
 * loader would index past one of its arrays.
 */
module Assembly {
  import opened Common
  import opened Geometry
  import opened Records
  import opened Materials
  import opened MeshBuild

  /** The joint of bone i: its parent, then one key per timestamp of each track. */
  method MakeJoint(b: Bone, i: nat) returns (j: Option<Joint>)
    ensures j.Some? <==> JointFits(b, i)
    ensures j.Some? ==> j.value == BuildJoint(b, i)
  {
    var parent: Option<nat>;
    if b.parentBone == -1 {
      parent := None;
    } else if 0 <= b.parentBone < i {
      parent := Some(b.parentBone);
    } else {
      return None;
    }
    var t := b.translation;
    if 3 * |t.timestamps| > |t.values| {
      return None;
    }
    var positions := [];
    var k := 0;
    while k < |t.timestamps|
      invariant 0 <= k <= |t.timestamps| && |positions| == k
      invariant forall m :: 0 <= m < k ==> positions[m] == PositionKey(t, m)
    {
      positions := positions + [Key(t.timestamps[k], FixCoordSystem(Vec3(t.values[3 * k], t.values[3 * k + 1], t.values[3 * k + 2])))];
      k := k + 1;
    }
    var q := b.rotation;
    if 4 * |q.timestamps| > |q.values| {
      return None;
    }
    var rotations := [];
    k := 0;
    while k < |q.timestamps|
      invariant 0 <= k <= |q.timestamps| && |rotations| == k
      invariant forall m :: 0 <= m < k ==> rotations[m] == RotationKey(q, m)
    {
      rotations := rotations + [Key(q.timestamps[k], FixQuaternion(Quat(q.values[4 * k], q.values[4 * k + 1], q.values[4 * k + 2], q.values[4 * k + 3])))];
      k := k + 1;
    }
    var sc := b.scaling;
    if 3 * |sc.timestamps| > |sc.values| {
      return None;
    }
    var scales := [];
    k := 0;
    while k < |sc.timestamps|
      invariant 0 <= k <= |sc.timestamps| && |scales| == k
      invariant forall m :: 0 <= m < k ==> scales[m] == ScaleKey(sc, m)
    {
      scales := scales + [Key(sc.timestamps[k], Vec3(sc.values[3 * k], sc.values[3 * k + 1], sc.values[3 * k + 2]))];
      k := k + 1;
    }
    j := Some(Joint(parent, positions, rotations, scales, b.pivot));
  }

  /** One joint per bone, in bone order. */
  method MakeJoints(bones: seq<Bone>) returns (js: Option<seq<Joint>>)
    ensures js == JointsUpTo(bones, |bones|)
  {
    var acc := [];
    var i := 0;
    while i < |bones|
      invariant 0 <= i <= |bones| && JointsUpTo(bones, i) == Some(acc)
    {
      var j := MakeJoint(bones[i], i);
      if j.None? {
        return None;
      }
      acc := acc + [j.value];
      i := i + 1;
    }
    js := Some(acc);
  }

  /** The submesh's triangle corners, rebased to its first vertex. */
  method MakeIndices(sm: ViewSubmesh, indices: seq<nat>, triangles: seq<nat>) returns (r: Option<seq<nat>>)
    ensures r.Some? <==> IndicesFit(sm, indices, triangles)
    ensures r.Some? ==> r.value == BufferIndices(sm, indices, triangles)
  {
    var acc := [];
    var j := sm.ofsTris;
    while j < sm.ofsTris + sm.nTris
      invariant sm.ofsTris <= j <= sm.ofsTris + sm.nTris && |acc| == j - sm.ofsTris
      invariant forall m :: sm.ofsTris <= m < j ==> CornerFits(indices, triangles, m)
      invariant forall m :: 0 <= m < |acc| ==>
                  CornerFits(indices, triangles, sm.ofsTris + m) && acc[m] == Rebase(indices[triangles[sm.ofsTris + m]], sm.ofsVertex)
    {
      if j >= |triangles| || triangles[j] >= |indices| {
        assert !CornerFits(indices, triangles, j);
        return None;
      }
      acc := acc + [Rebase(indices[triangles[j]], sm.ofsVertex)];
      j := j + 1;
    }
    r := Some(acc);
  }

  /**
   * The submesh's vertices, and a weight for every positive weight slot of
   * each, naming the vertex by its place in the buffer.
   */
  method MakeVertices(sm: ViewSubmesh, verts: seq<ModelVertex>, buffer: nat, nJoints: nat)
    returns (r: Option<(seq<Vertex>, seq<Weight>)>)
    ensures r.Some? <==> VerticesFit(sm, verts) && WeightsFit(sm, verts, nJoints, sm.nVertex)
    ensures r.Some? ==> r.value == (BufferVertices(sm, verts), BufferWeights(sm, verts, buffer, sm.nVertex))
  {
    if sm.nVertex > 0 && sm.ofsVertex + sm.nVertex > |verts| {
      return None;
    }
    r := CopyVertices(sm, verts, buffer, nJoints);
  }

  /** The loop of MakeVertices, once the submesh's run of vertices is known to lie inside the array. */
  method CopyVertices(sm: ViewSubmesh, verts: seq<ModelVertex>, buffer: nat, nJoints: nat)
    returns (r: Option<(seq<Vertex>, seq<Weight>)>)
    requires VerticesFit(sm, verts)
    ensures r.Some? <==> WeightsFit(sm, verts, nJoints, sm.nVertex)
    ensures r.Some? ==> r.value == (BufferVertices(sm, verts), BufferWeights(sm, verts, buffer, sm.nVertex))
  {
    ghost var all := BufferVertices(sm, verts);
    var vs := [];
    var ws := [];
    var n := 0;
    while n < sm.nVertex
      invariant 0 <= n <= sm.nVertex && vs == all[..n]
      invariant WeightsFit(sm, verts, nJoints, n) && ws == BufferWeights(sm, verts, buffer, n)
    {
      VerticesSnoc(sm, verts, n);
      vs := vs + [ToVertex(verts[sm.ofsVertex + n])];
      var more := NextVertexWeights(sm, verts, buffer, nJoints, n, ws);
      if more.None? {
        return None;
      }
      ws := more.value;
      n := n + 1;
    }
    assert all[..n] == all;
    r := Some((vs, ws));
  }

  /** The weights of the submesh's first n + 1 vertices from those of its first n. */
  method NextVertexWeights(sm: ViewSubmesh, verts: seq<ModelVertex>, buffer: nat, nJoints: nat, n: nat, ws: seq<Weight>)
    returns (r: Option<seq<Weight>>)
    requires VerticesFit(sm, verts) && n < sm.nVertex
    requires WeightsFit(sm, verts, nJoints, n) && ws == BufferWeights(sm, verts, buffer, n)
    ensures r.None? ==> !WeightsFit(sm, verts, nJoints, sm.nVertex)
    ensures r.Some? ==> WeightsFit(sm, verts, nJoints, n + 1) && r.value == BufferWeights(sm, verts, buffer, n + 1)
  {
    var v := verts[sm.ofsVertex + n];
    var more := VertexWeightsOf(v, n, buffer, nJoints);
    WeightsFitSnoc(sm, verts, nJoints, n);
    if more.None? {
      NotAllWeightsFit(sm, verts, nJoints, n);
      return None;
    }
    BufferWeightsSnoc(sm, verts, buffer, n);
    assert more.value == WeightsOfVertex(sm, verts, buffer, n);
    r := Some(ws + more.value);
  }

  /** The weights of one vertex, or None when a positive weight names a bone past the joints. */
  method VertexWeightsOf(v: ModelVertex, local: nat, buffer: nat, nJoints: nat) returns (r: Option<seq<Weight>>)
    ensures r.Some? <==> BonesBelow(v, nJoints)
    ensures r.Some? ==> r.value == VertexWeights(v, local, buffer, 4)
  {
    var ws := [];
    var k := 0;
    while k < 4
      invariant 0 <= k <= 4 && ws == VertexWeights(v, local, buffer, k)
      invariant forall m :: 0 <= m < k && v.weights[m] > 0 ==> v.bones[m] < nJoints
    {
      if v.weights[k] > 0 {
        if v.bones[k] >= nJoints {
          return None;
        }
        ws := ws + [Weight(v.bones[k], v.weights[k], local, buffer)];
      }
      k := k + 1;
    }
    r := Some(ws);
  }

  /** A vertex whose bones are not all joints makes the whole submesh not fit. */
  lemma {:induction false} NotAllWeightsFit(sm: ViewSubmesh, verts: seq<ModelVertex>, nJoints: nat, n: nat)
    requires VerticesFit(sm, verts) && n < sm.nVertex
    requires !BonesBelow(verts[sm.ofsVertex + n], nJoints)
    ensures !WeightsFit(sm, verts, nJoints, sm.nVertex)
  {
    var m := sm.nVertex;
    while m > n + 1
      invariant n + 1 <= m <= sm.nVertex
      invariant WeightsFit(sm, verts, nJoints, sm.nVertex) ==> WeightsFit(sm, verts, nJoints, m)
    {
      m := m - 1;
    }
  }

  /** The material of buffer i from the texture units that point at it. */
  method MakeMaterial(units: seq<TextureUnit>, i: nat, lookup: seq<nat>, files: seq<string>,
                      rfs: seq<RenderFlags>, available: set<string>) returns (r: Option<Material>)
    requires FlagsInRange(rfs)
    ensures r == MaterialUpTo(units, i, lookup, files, rfs, available, |units|)
  {
    var m := DEFAULT_MATERIAL;
    var j := 0;
    while j < |units|
      invariant 0 <= j <= |units| && MaterialUpTo(units, i, lookup, files, rfs, available, j) == Some(m)
    {
      var u := units[j];
      if u.submeshIndex1 == i {
        if u.textureIndex >= |lookup| || lookup[u.textureIndex] >= |files| {
          NoMaterialAfter(units, i, lookup, files, rfs, available, j + 1);
          return None;
        }
        var name := files[lookup[u.textureIndex]];
        if name != "" && name in available {
          if u.renderFlagsIndex >= |rfs| {
            NoMaterialAfter(units, i, lookup, files, rfs, available, j + 1);
            return None;
          }
          m := m.(textures := m.textures[u.textureUnitNumber := name]);
          m := ApplyRenderFlags(m, rfs[u.renderFlagsIndex]);
        }
      }
      j := j + 1;
    }
    r := Some(m);
  }

  /** Once a unit indexes past a table, no later unit brings the material back. */
  lemma {:induction false} NoMaterialAfter(units: seq<TextureUnit>, i: nat, lookup: seq<nat>, files: seq<string>,
                                           rfs: seq<RenderFlags>, available: set<string>, n: nat)
    requires n <= |units| && FlagsInRange(rfs) && MaterialUpTo(units, i, lookup, files, rfs, available, n).None?
    ensures MaterialUpTo(units, i, lookup, files, rfs, available, |units|).None?
    decreases |units| - n
  {
    if n < |units| {
      NoMaterialAfter(units, i, lookup, files, rfs, available, n + 1);
    }
  }

  /** Buffer i with its weights: indices, vertices and weights, material. */
  method MakeBuffer(st: Staged, available: set<string>, i: nat) returns (r: Option<(MeshBuffer, seq<Weight>)>)
    requires i < |st.submeshes| && FlagsInRange(st.renderFlags)
    ensures r.Some? <==> BufferFits(st, available, i)
    ensures r.Some? ==> VerticesFit(st.submeshes[i], st.vertices)
    ensures r.Some? ==> r.value == (BuildBuffer(st, available, i), BufferWeights(st.submeshes[i], st.vertices, i, st.submeshes[i].nVertex))
  {
    var sm := st.submeshes[i];
    var idx := MakeIndices(sm, st.indices, st.triangles);
    if idx.None? {
      return None;
    }
    var vw := MakeVertices(sm, st.vertices, i, |st.bones|);
    if vw.None? {
      return None;
    }
    var mat := MakeMaterial(st.textureUnits, i, st.textureLookup, st.textureFiles, st.renderFlags, available);
    if mat.None? {
      return None;
    }
    r := Some((MeshBuffer(sm.meshpartId, idx.value, vw.value.0, mat.value), vw.value.1));
  }

  /** One buffer per submesh, in submesh order, with all their weights. */
  method MakeBuffers(st: Staged, available: set<string>) returns (r: Option<(seq<MeshBuffer>, seq<Weight>)>)
    requires FlagsInRange(st.renderFlags)
    ensures r == Buffers(st, available)
  {
    var buffers := [];
    var weights := [];
    var i := 0;
    while i < |st.submeshes|
      invariant 0 <= i <= |st.submeshes| && forall j :: 0 <= j < i ==> BufferFits(st, available, j)
      invariant forall j :: 0 <= j < i ==> VerticesFit(st.submeshes[j], st.vertices)
      invariant buffers == BuiltBuffers(st, available, i) && weights == WeightsUpTo(st, i)
    {
      var b := MakeBuffer(st, available, i);
      if b.None? {
        return None;
      }
      BuiltBuffersSnoc(st, available, i);
      WeightsUpToSnoc(st, i);
      buffers := buffers + [b.value.0];
      weights := weights + b.value.1;
      i := i + 1;
    }
    FitsReadable(st, available);
    r := Some((buffers, weights));
  }

  /** The mesh the tail of a load builds: the joints, then the buffers with their weights. */
  method AssembleMesh(st: Staged, available: set<string>) returns (r: Option<Mesh>)
    requires FlagsInRange(st.renderFlags)
    ensures r == Assemble(st, available)
  {
    var js := MakeJoints(st.bones);
    if js.None? {
      return None;
    }
    var bw := MakeBuffers(st, available);
    if bw.None? {
      return None;
    }
    r := Some(Mesh(st.animations, js.value, bw.value.0, bw.value.1));
  }
}
