/**
 * The material a mesh buffer gets from a texture unit's render flags: four
 * flag bits switch lighting, fog, back-face culling and depth testing/writing
 * off, and the blending mode selects the material type and its blend function.
 */
module Materials {
  import opened Records

  datatype MaterialType = Solid | TransparentAlphaChannelRef | OneTextureBlend

  datatype BlendFactor = One | SrcAlpha | OneMinusSrcAlpha | SrcColor | DstColor

  datatype Modulate = Modulate1X | Modulate2X

  /** pack_texureBlendFunc's arguments; `vertexAlpha` adds the vertex colour as an alpha source. */
  datatype BlendFunc = BlendFunc(src: BlendFactor, dst: BlendFactor, modulate: Modulate, vertexAlpha: bool)

  /** MaterialTypeParam: untouched, the alpha-ref threshold 0.5, or a packed blend function. */
  datatype TypeParam = NoParam | AlphaRefHalf | Packed(f: BlendFunc)

  /** The part of SMaterial the loader sets. */
  datatype Material = Material(lighting: bool, fogEnable: bool, backfaceCulling: bool, zBuffer: bool,
                               zWriteEnable: bool, materialType: MaterialType, param: TypeParam,
                               textures: map<nat, string>)

  /** The material of a fresh mesh buffer: the engine's defaults. */
  const DEFAULT_MATERIAL: Material := Material(true, false, true, true, true, Solid, NoParam, map[])

  const LIGHTING_OFF: bv16 := 0x01
  const FOG_OFF: bv16 := 0x02
  const CULLING_OFF: bv16 := 0x04
  const DEPTH_OFF: bv16 := 0x10
  /** The bits the loader looks at. */
  const USED_BITS: bv16 := 0x17

  predicate FlagSet(flags: nat, bit: bv16)
    requires flags < 0x1_0000
  {
    (flags as bv16) & bit != 0
  }

  /** The switches of a material, set from the flag bits: a set bit turns its switch off. */
  function ApplyFlags(m: Material, flags: nat): (r: Material)
    requires flags < 0x1_0000
    ensures r.materialType == m.materialType && r.param == m.param && r.textures == m.textures
    ensures r.zBuffer == r.zWriteEnable
  {
    m.(lighting := !FlagSet(flags, LIGHTING_OFF), fogEnable := !FlagSet(flags, FOG_OFF),
       backfaceCulling := !FlagSet(flags, CULLING_OFF), zBuffer := !FlagSet(flags, DEPTH_OFF),
       zWriteEnable := !FlagSet(flags, DEPTH_OFF))
  }

  /** The flag bits a material's switches stand for. */
  function FlagsOf(m: Material): (r: bv16)
    ensures r & !USED_BITS == 0
  {
    (if m.lighting then 0 else LIGHTING_OFF) | (if m.fogEnable then 0 else FOG_OFF)
    | (if m.backfaceCulling then 0 else CULLING_OFF) | (if m.zBuffer then 0 else DEPTH_OFF)
  }

  /** The switches record exactly the used bits of the flags. */
  lemma FlagsRoundTrip(m: Material, flags: nat)
    requires flags < 0x1_0000
    ensures FlagsOf(ApplyFlags(m, flags)) == (flags as bv16) & USED_BITS
  {
    var f := flags as bv16;
    assert f & USED_BITS == (f & LIGHTING_OFF) | (f & FOG_OFF) | (f & CULLING_OFF) | (f & DEPTH_OFF);
  }

  /** Flag words that agree on the used bits give the same material. */
  lemma OtherBitsIgnored(m: Material, f1: nat, f2: nat)
    requires f1 < 0x1_0000 && f2 < 0x1_0000
    requires (f1 as bv16) & USED_BITS == (f2 as bv16) & USED_BITS
    ensures ApplyFlags(m, f1) == ApplyFlags(m, f2)
  {
    var a, b := f1 as bv16, f2 as bv16;
    assert a & LIGHTING_OFF == (a & USED_BITS) & LIGHTING_OFF;
    assert b & LIGHTING_OFF == (b & USED_BITS) & LIGHTING_OFF;
    assert a & FOG_OFF == (a & USED_BITS) & FOG_OFF;
    assert b & FOG_OFF == (b & USED_BITS) & FOG_OFF;
    assert a & CULLING_OFF == (a & USED_BITS) & CULLING_OFF;
    assert b & CULLING_OFF == (b & USED_BITS) & CULLING_OFF;
    assert a & DEPTH_OFF == (a & USED_BITS) & DEPTH_OFF;
    assert b & DEPTH_OFF == (b & USED_BITS) & DEPTH_OFF;
  }

  /** The blend function of blending modes 2 to 6. */
  function BlendOf(blending: nat): (r: BlendFunc)
    requires 2 <= blending <= 6
    ensures r.vertexAlpha <==> blending == 4
    ensures r.modulate == Modulate2X <==> blending == 6
  {
    match blending
    case 2 => BlendFunc(SrcAlpha, OneMinusSrcAlpha, Modulate1X, false)
    case 3 => BlendFunc(One, One, Modulate1X, false)
    case 4 => BlendFunc(SrcAlpha, One, Modulate1X, true)
    case 5 => BlendFunc(One, SrcColor, Modulate1X, false)
    case 6 => BlendFunc(DstColor, SrcColor, Modulate2X, false)
  }

  /** Different blending modes give different blend functions. */
  lemma BlendOfInjective(b1: nat, b2: nat)
    requires 2 <= b1 <= 6 && 2 <= b2 <= 6 && b1 != b2
    ensures BlendOf(b1) != BlendOf(b2)
  {
  }

  /**
   * The material type from the blending mode: 0 opaque, 1 alpha test, 2 to 6
   * a one-texture blend; 7 and above leave the material as it was.
   */
  function ApplyBlending(m: Material, blending: nat): (r: Material)
    ensures r.lighting == m.lighting && r.fogEnable == m.fogEnable && r.backfaceCulling == m.backfaceCulling
    ensures r.zBuffer == m.zBuffer && r.zWriteEnable == m.zWriteEnable && r.textures == m.textures
    ensures blending == 0 ==> r.materialType == Solid && r.param == m.param
    ensures blending == 1 ==> r.materialType == TransparentAlphaChannelRef && r.param == AlphaRefHalf
    ensures 2 <= blending <= 6 ==> r.materialType == OneTextureBlend && r.param == Packed(BlendOf(blending))
    ensures blending >= 7 ==> r == m
  {
    if blending == 0 then m.(materialType := Solid)
    else if blending == 1 then m.(materialType := TransparentAlphaChannelRef, param := AlphaRefHalf)
    else if blending <= 6 then m.(materialType := OneTextureBlend, param := Packed(BlendOf(blending)))
    else m
  }

  /** The material after one texture unit with the given render flags. */
  function ApplyRenderFlags(m: Material, rf: RenderFlags): (r: Material)
    requires rf.flags < 0x1_0000
    ensures r == ApplyBlending(ApplyFlags(m, rf.flags), rf.blending)
  {
    ApplyBlending(ApplyFlags(m, rf.flags), rf.blending)
  }

  /**
   * The four switches depend only on the last unit's flags, and the material
   * type on the last unit whose blending mode is below 7.
   */
  lemma LastFlagsWin(m: Material, a: RenderFlags, b: RenderFlags)
    requires a.flags < 0x1_0000 && b.flags < 0x1_0000
    ensures var r := ApplyRenderFlags(ApplyRenderFlags(m, a), b);
            FlagsOf(r) == (b.flags as bv16) & USED_BITS
            && (b.blending <= 6 ==> r.materialType == ApplyRenderFlags(m, b).materialType)
            && (b.blending >= 7 ==> r.materialType == ApplyRenderFlags(m, a).materialType)
  {
    var r := ApplyRenderFlags(ApplyRenderFlags(m, a), b);
    FlagsRoundTrip(ApplyRenderFlags(m, a), b.flags);
    assert FlagsOf(r) == FlagsOf(ApplyFlags(ApplyRenderFlags(m, a), b.flags));
  }
}
