/** Fixed-width integers, opaque handles and the small Vulkan records shared by the renderer.
    C's unsigned arithmetic wraps; every place where the renderer relies on a width says so
    explicitly through `AsU32` / `AsU64`. */
module VkTypes {
  import opened Wrappers

  const U32_LIMIT: int := 0x1_0000_0000
  const U64_LIMIT: int := 0x1_0000_0000_0000_0000

  type u32 = x: int | 0 <= x < 0x1_0000_0000
  type u64 = x: int | 0 <= x < 0x1_0000_0000_0000_0000
  type i32 = x: int | -0x8000_0000 <= x < 0x8000_0000

  /** `std::numeric_limits<uint32_t>::max()`, also the value of `~0U`. */
  const UINT32_MAX: u32 := 0xFFFF_FFFF

  /** Conversion to `uint32_t` (and unsigned 32-bit addition): reduction modulo 2^32. */
  function AsU32(x: int): (r: u32)
    ensures 0 <= x < U32_LIMIT ==> r == x
    ensures (r - x) % U32_LIMIT == 0
  {
    x % U32_LIMIT
  }

  /** Unsigned 64-bit arithmetic (`VkDeviceSize`, `uint64_t`): reduction modulo 2^64. */
  function AsU64(x: int): (r: u64)
    ensures 0 <= x < U64_LIMIT ==> r == x
    ensures (r - x) % U64_LIMIT == 0
  {
    x % U64_LIMIT
  }

  /** Bit masks (`VkFlags`, `VkShaderStageFlags`, ...). */
  type Flags = bv32

  /** A Vulkan handle; 0 is `VK_NULL_HANDLE`. Handles are opaque to the renderer. */
  type Handle = nat
  const NULL_HANDLE: Handle := 0

  /** `VkFormat`, an open enumeration reported by the driver. */
  type Format = int
  const FORMAT_UNDEFINED: Format := 0
  const FORMAT_B8G8R8A8_SRGB: Format := 50

  /** `VkColorSpaceKHR`. */
  type ColorSpace = int
  const COLOR_SPACE_SRGB_NONLINEAR: ColorSpace := 0

  /** `VkDescriptorType`, an open enumeration. */
  type DescriptorType = int

  datatype Extent2D = Extent2D(width: u32, height: u32)
  datatype Extent3D = Extent3D(width: u32, height: u32, depth: u32)
  datatype Offset2D = Offset2D(x: i32, y: i32)
  datatype Rect2D = Rect2D(offset: Offset2D, extent: Extent2D)

  /** A `VkResult`: 0 is `VK_SUCCESS`, negative values are errors, positive values are
      non-error status codes. */
  type VkResult = int
  const VK_SUCCESS: VkResult := 0

  /** The renderer's fatal conditions; each ends the process with a message in the source. */
  datatype Fatal =
    | VulkanError(code: VkResult)
    | NoPhysicalDevices
    | NoSuitablePhysicalDevice
    | GraphicsQueueCannotPresent

  /** `VK_CHECK(x)`: any result other than `VK_SUCCESS`, positive status codes included,
      aborts; otherwise the call's output is kept. */
  function VkCheck<T>(code: VkResult, output: T): (r: Result<T, Fatal>)
    ensures r.Success? <==> code == VK_SUCCESS
    ensures r.Success? ==> r.value == output
    ensures r.Failure? ==> r.error == VulkanError(code)
  {
    if code != VK_SUCCESS then Failure(VulkanError(code)) else Success(output)
  }
}
