// The console GPU's already-decoded descriptors, as the translation layer
// reads them: the image (texture) resource, colour and depth render targets.
module AmdGpu {
  import opened Types

  /** The dimensionality tag of an image resource. `Invalid` stands for every
      tag value that names no image type. */
  datatype ImageType =
    | Invalid
    | Color1D | Color2D | Color3D | Cube
    | Color1DArray | Color2DArray
    | Color2DMsaa | Color2DMsaaArray

  datatype NumberFormat =
    | Unorm | Snorm | Uscaled | Sscaled | Uint | Sint | SnormNz | Float
    | Srgb | Ubnorm | UbnormNz | Ubint | Ubscaled

  /** Hardware data formats, depth/stencil formats and channel-swap modes are
      only ever passed on to the format tables, so they are kept opaque. */
  type DataFormat = nat
  type ZFormat = nat
  type StencilFormat = nat
  type SwapMode = nat

  datatype CompSwizzle = Zero | One | Red | Green | Blue | Alpha
  datatype CompMapping = CompMapping(r: CompSwizzle, g: CompSwizzle, b: CompSwizzle, a: CompSwizzle)

  /** An image resource descriptor. `imageType` is what `GetType()` returns and
      `boundType` what `GetBoundType()` returns; they are distinct inputs. */
  datatype Image = Image(
    dataFormat: DataFormat,
    numberFormat: NumberFormat,
    imageType: ImageType,
    boundType: ImageType,
    baseLevel: u32,
    lastLevel: u32,
    baseArray: u32,
    lastArray: u32,
    dstSelect: CompMapping)

  /** A colour render target; `numSlices` is what `NumSlices()` returns. */
  datatype ColorBuffer = ColorBuffer(
    format: DataFormat,
    numberFormat: NumberFormat,
    compSwap: SwapMode,
    sliceStart: u32,
    numSlices: u32)

  datatype DepthBuffer = DepthBuffer(zFormat: ZFormat, stencilFormat: StencilFormat)

  /** A depth view; `numSlices` is what `NumSlices()` returns. */
  datatype DepthView = DepthView(sliceStart: u32, numSlices: u32)

  datatype DepthControl = DepthControl(depthWriteEnable: bool)
}
