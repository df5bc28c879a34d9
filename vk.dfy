// The Vulkan vocabulary the translation layer produces: formats (by their
// VkFormat enumerant values), view types, flag bits and component mappings.
module Vk {

  /** A VkFormat, identified by its enumerant value in the Vulkan API. */
  type Format = nat

  const R8Unorm: Format := 9
  const R8Uint: Format := 13
  const R8G8B8A8Unorm: Format := 37
  const R8G8B8A8Srgb: Format := 43
  const R16Unorm: Format := 70
  const R32Uint: Format := 98
  const R32Sfloat: Format := 100
  const D16Unorm: Format := 124
  const D32Sfloat: Format := 126

  /** VkImageViewType. */
  datatype ImageViewType = View1D | View2D | View3D | Cube | View1DArray | View2DArray | CubeArray

  /** VkImageUsageFlags and VkImageAspectFlags are 32-bit masks. */
  type Flags = bv32

  const UsageStorage: Flags := 0x8
  const AspectColor: Flags := 0x1
  const AspectDepth: Flags := 0x2
  const AspectStencil: Flags := 0x4

  /** VkComponentSwizzle and VkComponentMapping. */
  datatype ComponentSwizzle = Identity | Zero | One | R | G | B | A
  datatype ComponentMapping = ComponentMapping(r: ComponentSwizzle, g: ComponentSwizzle, b: ComponentSwizzle, a: ComponentSwizzle)
}
