// Derivation of the canonical view descriptor (ImageViewInfo) from a sampled
// or storage image, a colour target or a depth target, and the format,
// aspect and usage corrections applied when the view object is created.
module ImageView {
  import opened Types
  import Vk
  import AmdGpu
  import opened LiverpoolToVk

  /** The shader's usage hint for an image binding. `isStorage` is the value
      `desc.IsStorage(image)` gives for the image being bound. */
  datatype ImageResource = ImageResource(isStorage: bool, isDepth: bool, isArray: bool)

  datatype SubresourceRange = SubresourceRange(baseLevel: u32, baseLayer: u32, levels: u32, layers: u32)

  /** The canonical view descriptor. Fields a builder does not assign keep
      their default-initialised values, which each builder receives as `init`. */
  datatype ImageViewInfo = ImageViewInfo(
    viewType: Vk.ImageViewType,
    format: Vk.Format,
    range: SubresourceRange,
    mapping: Vk.ComponentMapping,
    isStorage: bool)

  // ---------------------------------------------------------------------
  // View type
  // ---------------------------------------------------------------------

  /** The image types that have a view type; every other tag is unreachable. */
  predicate HasViewType(t: AmdGpu.ImageType) {
    !t.Invalid? && !t.Color2DMsaaArray?
  }

  predicate IsMsaa(t: AmdGpu.ImageType) {
    t.Color2DMsaa? || t.Color2DMsaaArray?
  }

  /** Number of addressing dimensions of a view type (a cube is sampled as 2D). */
  function ViewDims(v: Vk.ImageViewType): nat {
    match v
    case View1D | View1DArray => 1
    case View2D | View2DArray | Cube | CubeArray => 2
    case View3D => 3
  }

  function ImageDims(t: AmdGpu.ImageType): nat
    requires HasViewType(t)
  {
    match t
    case Color1D | Color1DArray => 1
    case Color2D | Color2DArray | Color2DMsaa | Cube => 2
    case Color3D => 3
  }

  predicate IsArrayView(v: Vk.ImageViewType) {
    v.View1DArray? || v.View2DArray? || v.CubeArray?
  }

  predicate IsArrayImage(t: AmdGpu.ImageType) {
    t.Color1DArray? || t.Color2DArray? || t.Color2DMsaaArray?
  }

  /** Maps an image type to the Vulkan view type: dimensionality, array-ness
      and cube-ness are kept, and only multisampling is dropped. */
  function ConvertImageViewType(t: AmdGpu.ImageType): (r: Vk.ImageViewType)
    requires HasViewType(t)
    ensures ViewDims(r) == ImageDims(t)
    ensures IsArrayView(r) <==> IsArrayImage(t)
    ensures r.Cube? <==> t.Cube?
    ensures !r.CubeArray?
  {
    match t
    case Color1D => Vk.View1D
    case Color1DArray => Vk.View1DArray
    case Color2D | Color2DMsaa => Vk.View2D
    case Cube => Vk.Cube
    case Color2DArray => Vk.View2DArray
    case Color3D => Vk.View3D
  }

  /** Only Color2D and Color2DMsaa share a view type. */
  lemma ConvertImageViewTypeMerges(t: AmdGpu.ImageType, t': AmdGpu.ImageType)
    requires HasViewType(t) && HasViewType(t') && t != t'
    ensures ConvertImageViewType(t) == ConvertImageViewType(t') <==> {t, t'} == {AmdGpu.Color2D, AmdGpu.Color2DMsaa}
  {
  }

  // ---------------------------------------------------------------------
  // Builders
  // ---------------------------------------------------------------------

  /** The number format a binding resolves its format with: storage bindings
      cannot convert sRGB, so they read sRGB data as Unorm. */
  function BindingNumberFormat(nfmt: AmdGpu.NumberFormat, isStorage: bool): (r: AmdGpu.NumberFormat)
    ensures isStorage ==> !r.Srgb?
    ensures r != nfmt ==> r.Unorm? && nfmt.Srgb?
    ensures !isStorage ==> r == nfmt
  {
    if isStorage && nfmt.Srgb? then AmdGpu.Unorm else nfmt
  }

  /** The depth-promotion the builder needs is defined for this format. */
  predicate CanBind(t: Translators, image: AmdGpu.Image, desc: ImageResource) {
    && HasViewType(image.boundType)
    && (desc.isDepth ==> IsPromotable(t.surfaceFormat(image.dataFormat, BindingNumberFormat(image.numberFormat, desc.isStorage))))
  }

  /** The number of elements from `base` to `last` inclusive, as a u32. */
  function Span(base: u32, last: u32): (r: u32)
    ensures base <= last < 0xFFFF_FFFF ==> r == last - base + 1
  {
    Wrap32(last - base + 1)
  }

  /** View descriptor of a sampled or storage image binding. */
  function FromImage(t: Translators, init: ImageViewInfo, image: AmdGpu.Image, desc: ImageResource): (r: ImageViewInfo)
    requires CanBind(t, image, desc)
    ensures r.isStorage == desc.isStorage
    ensures var fmt := t.surfaceFormat(image.dataFormat, BindingNumberFormat(image.numberFormat, desc.isStorage));
            r.format == if desc.isDepth then PromoteFormatToDepth(fmt) else fmt
    ensures r.range.baseLevel == image.baseLevel && r.range.baseLayer == image.baseArray
    ensures IsMsaa(image.imageType) ==> r.range.levels == 1
    ensures !IsMsaa(image.imageType) ==> r.range.levels == Span(image.baseLevel, image.lastLevel)
    ensures r.viewType == if image.boundType.Cube? && desc.isArray then Vk.CubeArray else ConvertImageViewType(image.boundType)
    ensures image.boundType.Cube? && !desc.isArray ==> r.range.layers == Min(Span(image.baseArray, image.lastArray), 6)
    ensures image.boundType.Color3D? ==> r.range.layers == Min(Span(image.baseArray, image.lastArray), 1)
    ensures !(image.boundType.Cube? && !desc.isArray) && !image.boundType.Color3D?
            ==> r.range.layers == Span(image.baseArray, image.lastArray)
    ensures r.mapping == if desc.isStorage then init.mapping else t.componentMapping(image.dstSelect)
  {
    var surface := t.surfaceFormat(image.dataFormat, BindingNumberFormat(image.numberFormat, desc.isStorage));
    var format := if desc.isDepth then PromoteFormatToDepth(surface) else surface;
    var levels: u32 := if IsMsaa(image.imageType) then 1 else Span(image.baseLevel, image.lastLevel);
    var layers: u32 := Span(image.baseArray, image.lastArray);
    var viewType := ConvertImageViewType(image.boundType);
    // A cube bound for array access becomes a cube array; otherwise the
    // shader reads a single cube, so at most six faces are kept.
    var viewType' := if viewType.Cube? && desc.isArray then Vk.CubeArray else viewType;
    var layers': u32 := if viewType.Cube? && !desc.isArray then Min(layers, 6) else layers;
    // Stale layer counts on 3D images are dropped.
    var layers'': u32 := if viewType'.View3D? && layers' > 1 then 1 else layers';
    var mapping := if !desc.isStorage then t.componentMapping(image.dstSelect) else init.mapping;
    ImageViewInfo(viewType', format, SubresourceRange(image.baseLevel, image.baseArray, levels, layers''), mapping, desc.isStorage)
  }

  /** A view descriptor addresses at least one mip level and layer, and none
      beyond the descriptor's last level and last layer. */
  predicate WithinImage(r: ImageViewInfo, image: AmdGpu.Image) {
    && 1 <= r.range.levels && r.range.baseLevel + r.range.levels - 1 <= image.lastLevel
    && 1 <= r.range.layers && r.range.baseLayer + r.range.layers - 1 <= image.lastArray
  }

  /** For a well-formed descriptor (base not after last) the sampled view stays
      inside the addressable range. (The hardware level and layer fields are
      far narrower than 32 bits, so `last + 1` never wraps for them.) */
  lemma FromImageWithinImage(t: Translators, init: ImageViewInfo, image: AmdGpu.Image, desc: ImageResource)
    requires CanBind(t, image, desc)
    requires image.baseLevel <= image.lastLevel < 0xFFFF_FFFF
    requires image.baseArray <= image.lastArray < 0xFFFF_FFFF
    ensures WithinImage(FromImage(t, init, image, desc), image)
  {
  }

  /** A multisampled image has one mip level whatever its level fields say
      (base 2, last 5 gives one level). */
  lemma MsaaExample(t: Translators, init: ImageViewInfo, image: AmdGpu.Image, desc: ImageResource)
    requires CanBind(t, image, desc)
    requires image.imageType.Color2DMsaa? && image.baseLevel == 2 && image.lastLevel == 5
    ensures FromImage(t, init, image, desc).range.levels == 1
  {
  }

  /** A 12-layer descriptor keeps 6 layers when bound as a non-array cube,
      and 1 layer when it is a 3D image. */
  lemma LayerFixupExamples(t: Translators, init: ImageViewInfo, image: AmdGpu.Image, desc: ImageResource)
    requires CanBind(t, image, desc)
    requires image.baseArray == 0 && image.lastArray == 11
    ensures image.boundType.Cube? && !desc.isArray ==> FromImage(t, init, image, desc).range.layers == 6
    ensures image.boundType.Color3D? ==> FromImage(t, init, image, desc).range.layers == 1
  {
  }

  /** View descriptor of a colour render target. */
  function FromColorBuffer(t: Translators, init: ImageViewInfo, cb: AmdGpu.ColorBuffer): (r: ImageViewInfo)
    ensures r.format == t.adjustColorBufferFormat(t.surfaceFormat(cb.format, cb.numberFormat), cb.compSwap)
    ensures r.range.baseLayer == cb.sliceStart
    ensures r.range.layers == Wrap32(cb.numSlices - cb.sliceStart)
    ensures r.viewType == if r.range.layers > 1 then Vk.View2DArray else Vk.View2D
    ensures r.range.baseLevel == init.range.baseLevel && r.range.levels == init.range.levels
    ensures r.mapping == init.mapping && r.isStorage == init.isStorage
  {
    var baseFormat := t.surfaceFormat(cb.format, cb.numberFormat);
    var layers := Wrap32(cb.numSlices - cb.sliceStart);
    var viewType := if layers > 1 then Vk.View2DArray else Vk.View2D;
    var format := t.adjustColorBufferFormat(baseFormat, cb.compSwap);
    init.(viewType := viewType, format := format,
          range := init.range.(baseLayer := cb.sliceStart, layers := layers))
  }

  /** View descriptor of a depth render target; the view is storage-capable
      exactly when depth writes are enabled. */
  function FromDepthBuffer(t: Translators, init: ImageViewInfo, db: AmdGpu.DepthBuffer,
                           view: AmdGpu.DepthView, ctl: AmdGpu.DepthControl): (r: ImageViewInfo)
    ensures r.format == t.depthFormat(db.zFormat, db.stencilFormat)
    ensures r.isStorage == ctl.depthWriteEnable
    ensures r.range.baseLayer == view.sliceStart
    ensures r.range.layers == Wrap32(view.numSlices - view.sliceStart)
    ensures r.viewType == if r.range.layers > 1 then Vk.View2DArray else Vk.View2D
    ensures r.range.baseLevel == init.range.baseLevel && r.range.levels == init.range.levels
    ensures r.mapping == init.mapping
  {
    var layers := Wrap32(view.numSlices - view.sliceStart);
    init.(format := t.depthFormat(db.zFormat, db.stencilFormat),
          isStorage := ctl.depthWriteEnable,
          range := init.range.(baseLayer := view.sliceStart, layers := layers),
          viewType := if layers > 1 then Vk.View2DArray else Vk.View2D)
  }

  /** A render target whose first slice lies inside it is viewed from that
      slice to its last one, as an array exactly when that is more than one slice. */
  lemma {:induction false} RenderTargetSlices(t: Translators, init: ImageViewInfo, cb: AmdGpu.ColorBuffer,
                                              db: AmdGpu.DepthBuffer, view: AmdGpu.DepthView, ctl: AmdGpu.DepthControl)
    requires cb.sliceStart < cb.numSlices && view.sliceStart < view.numSlices
    ensures var c := FromColorBuffer(t, init, cb);
            && c.range.baseLayer + c.range.layers == cb.numSlices
            && (c.viewType.View2DArray? <==> cb.numSlices - cb.sliceStart > 1)
            && (c.viewType.View2D? <==> cb.numSlices - cb.sliceStart == 1)
    ensures var d := FromDepthBuffer(t, init, db, view, ctl);
            && d.range.baseLayer + d.range.layers == view.numSlices
            && (d.viewType.View2DArray? <==> view.numSlices - view.sliceStart > 1)
            && (d.viewType.View2D? <==> view.numSlices - view.sliceStart == 1)
  {
  }

  // ---------------------------------------------------------------------
  // View object
  // ---------------------------------------------------------------------

  /** What the view needs of the image it views. */
  datatype Image = Image(usageFlags: Vk.Flags, aspectMask: Vk.Flags, pixelFormat: Vk.Format, formatFeatures: nat)

  /** The create-info handed to the device. */
  datatype ViewCreateInfo = ViewCreateInfo(
    usage: Vk.Flags,
    viewType: Vk.ImageViewType,
    format: Vk.Format,
    components: Vk.ComponentMapping,
    aspectMask: Vk.Flags,
    baseMipLevel: u32,
    levelCount: u32,
    baseArrayLayer: u32,
    layerCount: u32)

  /** A view that is not storage drops the storage usage bit and keeps every other bit. */
  function ViewUsage(usage: Vk.Flags, isStorage: bool): (r: Vk.Flags)
    ensures r & !Vk.UsageStorage == usage & !Vk.UsageStorage
    ensures (r & Vk.UsageStorage != 0) <==> (isStorage && usage & Vk.UsageStorage != 0)
  {
    if !isStorage then usage & !Vk.UsageStorage else usage
  }

  /** Formats a shader uses to read the depth plane of a depth image as colour. */
  predicate IsDepthReadFormat(f: Vk.Format) {
    f == Vk.R32Sfloat || f == Vk.D32Sfloat || f == Vk.R16Unorm || f == Vk.D16Unorm
  }

  /** Formats a shader uses to read the stencil plane as colour. */
  predicate IsStencilReadFormat(f: Vk.Format) {
    f == Vk.R8Uint || f == Vk.R8Unorm
  }

  predicate HasAspect(mask: Vk.Flags, aspect: Vk.Flags) {
    mask & aspect != 0
  }

  /** The format and aspect the view is created with: a depth (then stencil)
      image read through a plain numeric format is viewed in its own pixel
      format, restricted to the depth (stencil) plane. */
  function ViewFormatAndAspect(format: Vk.Format, image: Image): (r: (Vk.Format, Vk.Flags))
    ensures r.1 & !image.aspectMask == 0
    ensures r.0 != format ==> r.0 == image.pixelFormat
    ensures r.1 == image.aspectMask || r.1 == Vk.AspectDepth || r.1 == Vk.AspectStencil
    ensures var depthRead := HasAspect(image.aspectMask, Vk.AspectDepth) && IsDepthReadFormat(format);
            var stencilRead := HasAspect(image.aspectMask, Vk.AspectStencil)
                               && IsStencilReadFormat(if depthRead then image.pixelFormat else format);
            && (stencilRead ==> r == (image.pixelFormat, Vk.AspectStencil))
            && (depthRead && !stencilRead ==> r == (image.pixelFormat, Vk.AspectDepth))
            && (!depthRead && !stencilRead ==> r == (format, image.aspectMask))
  {
    var (f, a) :=
      if HasAspect(image.aspectMask, Vk.AspectDepth) && IsDepthReadFormat(format)
      then (image.pixelFormat, Vk.AspectDepth)
      else (format, image.aspectMask);
    if HasAspect(image.aspectMask, Vk.AspectStencil) && IsStencilReadFormat(f)
    then (image.pixelFormat, Vk.AspectStencil)
    else (f, a)
  }

  /** The create-info of the view of `image` described by `info`;
      `supportedFormat` is the device's format-capability query. */
  function CreateInfo(supportedFormat: (Vk.Format, nat) -> Vk.Format, info: ImageViewInfo, image: Image): (ci: ViewCreateInfo)
    ensures ci.usage == ViewUsage(image.usageFlags, info.isStorage)
    ensures ci.viewType == info.viewType && ci.components == info.mapping
    ensures ci.format == supportedFormat(ViewFormatAndAspect(info.format, image).0, image.formatFeatures)
    ensures ci.aspectMask == ViewFormatAndAspect(info.format, image).1
    ensures ci.baseMipLevel == info.range.baseLevel && ci.levelCount == info.range.levels
    ensures ci.baseArrayLayer == info.range.baseLayer && ci.layerCount == info.range.layers
  {
    var (format, aspect) := ViewFormatAndAspect(info.format, image);
    ViewCreateInfo(
      ViewUsage(image.usageFlags, info.isStorage),
      info.viewType,
      supportedFormat(format, image.formatFeatures),
      info.mapping,
      aspect,
      info.range.baseLevel, info.range.levels, info.range.baseLayer, info.range.layers)
  }

  /** Depth promotion is invisible to a view of a depth image: the promoted
      float or 16-bit format is corrected to the same format and aspect as
      the format it was promoted from. */
  lemma PromotionInvisibleToDepthView(fmt: Vk.Format, image: Image)
    requires fmt == Vk.R32Sfloat || fmt == Vk.R16Unorm
    requires HasAspect(image.aspectMask, Vk.AspectDepth)
    ensures ViewFormatAndAspect(PromoteFormatToDepth(fmt), image) == ViewFormatAndAspect(fmt, image)
  {
  }
}
