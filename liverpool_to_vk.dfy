// Translation helpers shared by the Vulkan renderer: the depth promotion of
// colour formats and the expansion of quad lists into triangle lists.
module LiverpoolToVk {
  import opened Types
  import Vk
  import AmdGpu

  /** The table lookups and enum translators this layer relies on but whose
      definitions are not part of this model. They are taken as given
      functions; nothing is assumed about their tables. */
  datatype Translators = Translators(
    surfaceFormat: (AmdGpu.DataFormat, AmdGpu.NumberFormat) -> Vk.Format,
    depthFormat: (AmdGpu.ZFormat, AmdGpu.StencilFormat) -> Vk.Format,
    adjustColorBufferFormat: (Vk.Format, AmdGpu.SwapMode) -> Vk.Format,
    componentMapping: AmdGpu.CompMapping -> Vk.ComponentMapping)

  // ---------------------------------------------------------------------
  // Depth promotion
  // ---------------------------------------------------------------------

  /** The formats PromoteFormatToDepth accepts; any other input is a fatal
      unreachable condition in the emulator. */
  predicate IsPromotable(fmt: Vk.Format) {
    fmt == Vk.R32Sfloat || fmt == Vk.R16Unorm || fmt == Vk.R8G8B8A8Unorm || fmt == Vk.R8G8B8A8Srgb
  }

  predicate IsDepthFormat(fmt: Vk.Format) {
    fmt == Vk.D32Sfloat || fmt == Vk.D16Unorm
  }

  /** Bytes per texel of the formats that take part in depth promotion. */
  function TexelBytes(fmt: Vk.Format): nat
    requires IsPromotable(fmt) || IsDepthFormat(fmt) || fmt == Vk.R32Uint
  {
    if fmt == Vk.R16Unorm || fmt == Vk.D16Unorm then 2 else 4
  }

  /** Reinterprets a plain numeric format bound as a depth image as the
      depth-typed (or, for 8-bit RGBA, 32-bit integer) format of the same size. */
  function PromoteFormatToDepth(fmt: Vk.Format): (r: Vk.Format)
    requires IsPromotable(fmt)
    ensures r != fmt
    ensures IsDepthFormat(r) || r == Vk.R32Uint
    ensures TexelBytes(r) == TexelBytes(fmt)
    ensures IsDepthFormat(r) <==> (fmt == Vk.R32Sfloat || fmt == Vk.R16Unorm)
  {
    if fmt == Vk.R32Sfloat then Vk.D32Sfloat
    else if fmt == Vk.R16Unorm then Vk.D16Unorm
    else if fmt == Vk.R8G8B8A8Unorm then Vk.R32Uint
    else if fmt == Vk.R8G8B8A8Srgb then Vk.R32Uint
    else assert false; Vk.R32Uint
  }

  // ---------------------------------------------------------------------
  // Quad list to triangle list
  // ---------------------------------------------------------------------

  const NumVerticesPerQuad: nat := 4

  /** The quad's two triangles (v0,v1,v2) and (v0,v2,v3). */
  function TriangulateQuad<T>(v0: T, v1: T, v2: T, v3: T): seq<T> {
    [v0, v1, v2, v0, v2, v3]
  }

  /** Position of the k-th emitted index inside its quad: 0,1,2,0,2,3. */
  function Corner(k: nat): nat
    requires k < 6
  {
    [0, 1, 2, 0, 2, 3][k]
  }

  /** The generated index list for the first `quads` quads of a quad list. */
  function QuadListIndices(quads: nat): (r: seq<int>)
    ensures |r| == 6 * quads
  {
    if quads == 0 then []
    else
      var b := 4 * (quads - 1);
      QuadListIndices(quads - 1) + TriangulateQuad(b, b + 1, b + 2, b + 3)
  }

  /** The triangle list obtained by re-indexing the first `quads` quads of the
      index buffer `src`. */
  function RemapQuadList<T>(src: seq<T>, quads: nat): (r: seq<T>)
    requires 4 * quads <= |src|
    ensures |r| == 6 * quads
  {
    if quads == 0 then []
    else
      var b := 4 * (quads - 1);
      RemapQuadList(src, quads - 1) + TriangulateQuad(src[b], src[b + 1], src[b + 2], src[b + 3])
  }

  /** Entry 6q+k of the generated list is vertex 4q + Corner(k). */
  lemma {:induction false} QuadListIndicesAt(quads: nat, q: nat, k: nat)
    requires q < quads && k < 6
    ensures QuadListIndices(quads)[6 * q + k] == 4 * q + Corner(k)
  {
    if q < quads - 1 {
      QuadListIndicesAt(quads - 1, q, k);
    }
  }

  /** Every generated index lies inside its own quad, hence below the vertex count. */
  lemma QuadListIndicesInRange(quads: nat, j: nat)
    requires j < 6 * quads
    ensures 4 * (j / 6) <= QuadListIndices(quads)[j] <= 4 * (j / 6) + 3
    ensures 0 <= QuadListIndices(quads)[j] < 4 * quads
  {
    QuadListIndicesAt(quads, j / 6, j % 6);
  }

  /** Entry 6q+k of the re-indexed list is src[4q + Corner(k)]. */
  lemma {:induction false} RemapQuadListAt<T>(src: seq<T>, quads: nat, q: nat, k: nat)
    requires 4 * quads <= |src|
    requires q < quads && k < 6
    ensures RemapQuadList(src, quads)[6 * q + k] == src[4 * q + Corner(k)]
  {
    if q < quads - 1 {
      RemapQuadListAt(src, quads - 1, q, k);
    }
  }

  /** The re-indexed list depends only on the first 4 * quads source entries. */
  lemma {:induction false} RemapQuadListReadsPrefix<T>(src: seq<T>, src': seq<T>, quads: nat)
    requires 4 * quads <= |src| && 4 * quads <= |src'|
    requires src[..4 * quads] == src'[..4 * quads]
    ensures RemapQuadList(src, quads) == RemapQuadList(src', quads)
  {
    if quads > 0 {
      assert src[..4 * (quads - 1)] == src'[..4 * (quads - 1)] by {
        assert src[..4 * (quads - 1)] == src[..4 * quads][..4 * (quads - 1)];
        assert src'[..4 * (quads - 1)] == src'[..4 * quads][..4 * (quads - 1)];
      }
      RemapQuadListReadsPrefix(src, src', quads - 1);
      var b := 4 * (quads - 1);
      assert src[b] == src[..4 * quads][b] && src'[b] == src'[..4 * quads][b];
      assert src[b + 1] == src[..4 * quads][b + 1] && src'[b + 1] == src'[..4 * quads][b + 1];
      assert src[b + 2] == src[..4 * quads][b + 2] && src'[b + 2] == src'[..4 * quads][b + 2];
      assert src[b + 3] == src[..4 * quads][b + 3] && src'[b + 3] == src'[..4 * quads][b + 3];
    }
  }

  /** Re-indexing through the identity index buffer gives the generated list. */
  lemma {:induction false} RemapIdentityIsQuadList(src: seq<int>, quads: nat)
    requires 4 * quads <= |src|
    requires forall i :: 0 <= i < |src| ==> src[i] == i
    ensures RemapQuadList(src, quads) == QuadListIndices(quads)
  {
    if quads > 0 {
      RemapIdentityIsQuadList(src, quads - 1);
    }
  }

  /** The two quads of an 8-vertex list. */
  lemma EightVerticesExample()
    ensures QuadListIndices(8 / NumVerticesPerQuad) == [0, 1, 2, 0, 2, 3, 4, 5, 6, 4, 6, 7]
  {
  }

  /** Stores one quad's six triangle-list indices at out[p..p + 6] and
      advances nothing else. */
  method StoreQuad<T>(out: array<T>, p: nat, v0: T, v1: T, v2: T, v3: T)
    requires p + 6 <= out.Length
    modifies out
    ensures out[..p + 6] == old(out[..p]) + TriangulateQuad(v0, v1, v2, v3)
    ensures out[p + 6..] == old(out[p + 6..])
  {
    out[p] := v0;
    out[p + 1] := v1;
    out[p + 2] := v2;
    out[p + 3] := v0;
    out[p + 4] := v2;
    out[p + 5] := v3;
  }

  /** Writes the triangle-list indices for `numVertices` quad-list vertices
      into `out`, six 16-bit indices per quad, and nothing beyond them. The
      loop counter is 16 bits wide, so a count of 65536 or more would wrap it
      and never end the loop. */
  method EmitQuadToTriangleListIndices(out: array<u16>, numVertices: u32)
    requires numVertices % NumVerticesPerQuad == 0
    requires numVertices < 0x1_0000
    requires 6 * (numVertices / NumVerticesPerQuad) <= out.Length
    modifies out
    ensures out[..6 * (numVertices / NumVerticesPerQuad)] == QuadListIndices(numVertices / NumVerticesPerQuad)
    ensures out[6 * (numVertices / NumVerticesPerQuad)..] == old(out[6 * (numVertices / NumVerticesPerQuad)..])
  {
    var i: u16 := 0;
    var p := 0;  // how far out_data has advanced
    ghost var q := 0;
    while i < numVertices
      invariant i == 4 * q && i <= numVertices
      invariant p == 6 * q
      invariant out[..p] == QuadListIndices(q)
      invariant out[p..] == old(out[p..])
    {
      StoreQuad(out, p, i, i + 1, i + 2, i + 3);
      p := p + 6;
      i := i + 4;
      q := q + 1;
    }
  }

  /** Writes, for each quad of the index buffer `source`, its two triangles'
      indices into `out`; reads only the first `numVertices` source entries. */
  method ConvertQuadToTriangleListIndices<T>(out: array<T>, source: array<T>, numVertices: u32)
    requires numVertices % NumVerticesPerQuad == 0
    requires numVertices < 0x1_0000
    requires numVertices <= source.Length
    requires 6 * (numVertices / NumVerticesPerQuad) <= out.Length
    requires out != source
    modifies out
    ensures out[..6 * (numVertices / NumVerticesPerQuad)] == RemapQuadList(source[..numVertices], numVertices / NumVerticesPerQuad)
    ensures out[6 * (numVertices / NumVerticesPerQuad)..] == old(out[6 * (numVertices / NumVerticesPerQuad)..])
  {
    var i: u16 := 0;
    var p := 0;
    ghost var q := 0;
    ghost var src := source[..numVertices];
    while i < numVertices
      invariant i == 4 * q && i <= numVertices
      invariant p == 6 * q
      invariant out[..p] == RemapQuadList(src, q)
      invariant out[p..] == old(out[p..])
    {
      StoreQuad(out, p, source[i], source[i + 1], source[i + 2], source[i + 3]);
      assert TriangulateQuad(src[i], src[i + 1], src[i + 2], src[i + 3])
          == TriangulateQuad(source[i], source[i + 1], source[i + 2], source[i + 3]);
      p := p + 6;
      i := i + 4;
      q := q + 1;
    }
  }
}
