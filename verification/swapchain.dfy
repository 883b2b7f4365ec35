/** Swapchain negotiation (sections "Surface Queries" and "WSI Swapchain" of the Window System
    Integration chapter of the Vulkan 1.3 specification): surface format, present mode, extent
    and image count chosen from what the surface reports, the swapchain create info built from
    them, one image view per swapchain image, and the swapchain teardown order. The surface
    queries and the framebuffer-size query are inputs. */
module Swapchain {
  import opened Wrappers
  import opened VkTypes
  import Initialisers

  datatype SurfaceFormat = SurfaceFormat(format: Format, colorSpace: ColorSpace)

  /** The format the renderer prefers: 8-bit BGRA sRGB in the sRGB non-linear colour space. */
  const PREFERRED_FORMAT: SurfaceFormat := SurfaceFormat(FORMAT_B8G8R8A8_SRGB, COLOR_SPACE_SRGB_NONLINEAR)

  /** The codes of the four core present modes (IMMEDIATE 0, MAILBOX 1, FIFO 2, FIFO_RELAXED 3). */
  predicate IsCorePresentModeCode(code: int)
  {
    0 <= code <= 3
  }

  /** The code of a present mode from an extension; never one of the core codes, so each mode
      has exactly one representation. */
  type ExtensionPresentModeCode = code: int | !IsCorePresentModeCode(code) witness 4

  /** `VkPresentModeKHR`; modes from extensions keep their code. */
  datatype PresentMode = Immediate | Mailbox | Fifo | FifoRelaxed | OtherPresentMode(code: ExtensionPresentModeCode)

  datatype SurfaceCapabilities = SurfaceCapabilities(
    minImageCount: u32,
    maxImageCount: u32,
    currentExtent: Extent2D,
    minImageExtent: Extent2D,
    maxImageExtent: Extent2D,
    currentTransform: Flags)

  /** The result of the three surface queries for one physical device. */
  datatype SupportDetails = SupportDetails(
    capabilities: SurfaceCapabilities,
    formats: seq<SurfaceFormat>,
    presentModes: seq<PresentMode>)

  /** The preferred format if the surface offers it, otherwise the first offered format. */
  function ChooseSwapSurfaceFormat(available: seq<SurfaceFormat>): (r: SurfaceFormat)
    requires |available| > 0
    ensures r in available
    ensures r == PREFERRED_FORMAT <==> PREFERRED_FORMAT in available
    ensures PREFERRED_FORMAT !in available ==> r == available[0]
  {
    match FirstIndexOf(available, PREFERRED_FORMAT)
    case Some(i) => available[i]
    case None => available[0]
  }

  /** MAILBOX if the surface offers it, otherwise FIFO. */
  function ChooseSwapPresentMode(available: seq<PresentMode>): (r: PresentMode)
    ensures r == Mailbox <==> Mailbox in available
    ensures r != Mailbox ==> r == Fifo
  {
    if FirstIndexOf(available, Mailbox).Some? then Mailbox else Fifo
  }

  /** Every surface supports FIFO (section "Surface Queries"), so for any conforming list of
      modes the chosen mode is one the surface offers. */
  lemma PresentModeIsSupported(available: seq<PresentMode>)
    requires Fifo in available
    ensures ChooseSwapPresentMode(available) in available
  {
  }

  /** `v` clamped into `[lo, hi]`, as a relation. */
  ghost predicate ClampedInto(r: int, v: int, lo: int, hi: int)
  {
    lo <= r <= hi &&
    (v < lo ==> r == lo) &&
    (hi < v ==> r == hi) &&
    (lo <= v <= hi ==> r == v)
  }

  /** `std::clamp(v, lo, hi)`, whose precondition is `lo <= hi`. */
  function Clamp(v: u32, lo: u32, hi: u32): (r: u32)
    requires lo <= hi
    ensures ClampedInto(r, v, lo, hi)
  {
    if v < lo then lo else if hi < v then hi else v
  }

  /** The surface lets the application choose the extent. */
  predicate WindowDecidesExtent(caps: SurfaceCapabilities)
  {
    caps.currentExtent.width == UINT32_MAX
  }

  /** The surface's extent bounds are ordered, as the Vulkan specification guarantees. */
  predicate ExtentBoundsOrdered(caps: SurfaceCapabilities)
  {
    caps.minImageExtent.width <= caps.maxImageExtent.width &&
    caps.minImageExtent.height <= caps.maxImageExtent.height
  }

  /** The surface's current extent when it has one; otherwise the framebuffer size (the
      window system's `int`s converted to `uint32_t`) with each dimension clamped
      independently into the surface's bounds. */
  function ChooseSwapExtent(caps: SurfaceCapabilities, framebufferWidth: i32, framebufferHeight: i32)
    : (r: Extent2D)
    requires WindowDecidesExtent(caps) ==> ExtentBoundsOrdered(caps)
    ensures !WindowDecidesExtent(caps) ==> r == caps.currentExtent
    ensures WindowDecidesExtent(caps) ==>
              ClampedInto(r.width, AsU32(framebufferWidth), caps.minImageExtent.width, caps.maxImageExtent.width) &&
              ClampedInto(r.height, AsU32(framebufferHeight), caps.minImageExtent.height, caps.maxImageExtent.height)
  {
    if !WindowDecidesExtent(caps) then caps.currentExtent
    else
      var actual := Extent2D(AsU32(framebufferWidth), AsU32(framebufferHeight));
      Extent2D(Clamp(actual.width, caps.minImageExtent.width, caps.maxImageExtent.width),
               Clamp(actual.height, caps.minImageExtent.height, caps.maxImageExtent.height))
  }

  /** When the window decides, the chosen extent lies within the surface's bounds, and a
      framebuffer size already within them is used unchanged. */
  lemma ExtentWithinBounds(caps: SurfaceCapabilities, w: i32, h: i32)
    requires WindowDecidesExtent(caps) && ExtentBoundsOrdered(caps)
    ensures var e := ChooseSwapExtent(caps, w, h);
            caps.minImageExtent.width <= e.width <= caps.maxImageExtent.width &&
            caps.minImageExtent.height <= e.height <= caps.maxImageExtent.height
    ensures 0 <= w && 0 <= h &&
            caps.minImageExtent.width <= w <= caps.maxImageExtent.width &&
            caps.minImageExtent.height <= h <= caps.maxImageExtent.height
            ==> ChooseSwapExtent(caps, w, h) == Extent2D(w, h)
  {
  }

  /** `minImageCount + 1` in `uint32_t`, lowered to `maxImageCount` when that is nonzero
      (0 means no limit) and smaller. */
  function ImageCount(caps: SurfaceCapabilities): (r: u32)
    ensures caps.maxImageCount > 0 ==> r <= caps.maxImageCount
    ensures caps.minImageCount < UINT32_MAX ==> r <= caps.minImageCount + 1
    ensures caps.minImageCount < UINT32_MAX && (caps.maxImageCount == 0 || caps.maxImageCount > caps.minImageCount)
            ==> r == caps.minImageCount + 1
    ensures caps.minImageCount < UINT32_MAX && (caps.maxImageCount == 0 || caps.maxImageCount >= caps.minImageCount)
            ==> r >= caps.minImageCount
    ensures caps.minImageCount == UINT32_MAX ==> r == 0
  {
    var imageCount := AsU32(caps.minImageCount + 1);
    if caps.maxImageCount > 0 && imageCount > caps.maxImageCount then caps.maxImageCount else imageCount
  }

  datatype SharingMode = SharingExclusive | SharingConcurrent
  datatype CompositeAlpha = CompositeAlphaOpaque | CompositeAlphaPreMultiplied
                          | CompositeAlphaPostMultiplied | CompositeAlphaInherit

  /** `VK_IMAGE_USAGE_COLOR_ATTACHMENT_BIT`. */
  const IMAGE_USAGE_COLOR_ATTACHMENT: Flags := 0x10

  datatype SwapchainCreateInfo = SwapchainCreateInfo(
    surface: Handle,
    minImageCount: u32,
    imageFormat: Format,
    imageColorSpace: ColorSpace,
    imageExtent: Extent2D,
    imageArrayLayers: u32,
    imageUsage: Flags,
    imageSharingMode: SharingMode,
    preTransform: Flags,
    compositeAlpha: CompositeAlpha,
    presentMode: PresentMode,
    clipped: bool,
    oldSwapchain: Handle)

  /** The swapchain as the renderer keeps it after creation. */
  datatype SwapchainState = SwapchainState(
    swapchain: Handle,
    createInfo: SwapchainCreateInfo,
    images: seq<Handle>,
    imageFormat: Format,
    extent: Extent2D)

  /** `createSwapchain`. The driver's answers are inputs: `graphicsFamilyPresents` is the
      surface-support query for the graphics queue family, `createResult` and `swapchain` the
      outcome of `vkCreateSwapchainKHR`, and `images` the images it reports. */
  function CreateSwapchain(surface: Handle, support: SupportDetails, framebufferWidth: i32,
                           framebufferHeight: i32, graphicsFamilyPresents: bool,
                           createResult: VkResult, swapchain: Handle, images: seq<Handle>)
    : (r: Result<SwapchainState, Fatal>)
    requires |support.formats| > 0
    requires WindowDecidesExtent(support.capabilities) ==> ExtentBoundsOrdered(support.capabilities)
    ensures !graphicsFamilyPresents ==> r == Failure(GraphicsQueueCannotPresent)
    ensures graphicsFamilyPresents && createResult != VK_SUCCESS ==> r == Failure(VulkanError(createResult))
    ensures r.Success? <==> graphicsFamilyPresents && createResult == VK_SUCCESS
    ensures r.Success? ==>
              var info := r.value.createInfo;
              && SurfaceFormat(info.imageFormat, info.imageColorSpace) == ChooseSwapSurfaceFormat(support.formats)
              && info.imageExtent == ChooseSwapExtent(support.capabilities, framebufferWidth, framebufferHeight)
              && info.imageFormat == r.value.imageFormat
              && info.imageExtent == r.value.extent
              && info.minImageCount == ImageCount(support.capabilities)
              && info.presentMode == ChooseSwapPresentMode(support.presentModes)
              && info.imageArrayLayers == 1
              && info.imageUsage == IMAGE_USAGE_COLOR_ATTACHMENT
              && info.imageSharingMode == SharingExclusive
              && info.preTransform == support.capabilities.currentTransform
              && info.compositeAlpha == CompositeAlphaOpaque
              && info.clipped
              && info.oldSwapchain == NULL_HANDLE
              && info.surface == surface
              && r.value.swapchain == swapchain
              && r.value.images == images
  {
    var caps := support.capabilities;
    var surfaceFormat := ChooseSwapSurfaceFormat(support.formats);
    var presentMode := ChooseSwapPresentMode(support.presentModes);
    var extent := ChooseSwapExtent(caps, framebufferWidth, framebufferHeight);
    var info := SwapchainCreateInfo(
      surface := surface,
      minImageCount := ImageCount(caps),
      imageFormat := surfaceFormat.format,
      imageColorSpace := surfaceFormat.colorSpace,
      imageExtent := extent,
      imageArrayLayers := 1,
      imageUsage := IMAGE_USAGE_COLOR_ATTACHMENT,
      imageSharingMode := SharingExclusive,
      preTransform := caps.currentTransform,
      compositeAlpha := CompositeAlphaOpaque,
      presentMode := presentMode,
      clipped := true,
      oldSwapchain := NULL_HANDLE);
    if !graphicsFamilyPresents then Failure(GraphicsQueueCannotPresent)
    else
      var handle :- VkCheck(createResult, swapchain);
      Success(SwapchainState(handle, info, images, surfaceFormat.format, extent))
  }

  /** A created swapchain uses a format the surface offers, the preferred one whenever it is
      offered, and, when the window decides the extent, an extent within the surface's bounds. */
  lemma CreatedSwapchainFitsSurface(surface: Handle, support: SupportDetails, framebufferWidth: i32,
                                    framebufferHeight: i32, createResult: VkResult, swapchain: Handle,
                                    images: seq<Handle>)
    requires |support.formats| > 0
    requires WindowDecidesExtent(support.capabilities) ==> ExtentBoundsOrdered(support.capabilities)
    ensures var r := CreateSwapchain(surface, support, framebufferWidth, framebufferHeight, true,
                                     createResult, swapchain, images);
            r.Success? ==>
              && SurfaceFormat(r.value.imageFormat, r.value.createInfo.imageColorSpace) in support.formats
              && (PREFERRED_FORMAT in support.formats ==>
                    SurfaceFormat(r.value.imageFormat, r.value.createInfo.imageColorSpace) == PREFERRED_FORMAT)
              && (WindowDecidesExtent(support.capabilities) ==>
                    var caps := support.capabilities;
                    caps.minImageExtent.width <= r.value.extent.width <= caps.maxImageExtent.width &&
                    caps.minImageExtent.height <= r.value.extent.height <= caps.maxImageExtent.height)
  {
    if WindowDecidesExtent(support.capabilities) {
      ExtentWithinBounds(support.capabilities, framebufferWidth, framebufferHeight);
    }
  }

  /** `VK_IMAGE_ASPECT_COLOR_BIT`. */
  const ASPECT_COLOR: Flags := 1

  /** The create info `createImageViews` builds for each swapchain image. */
  function SwapchainViewInfo(image: Handle, format: Format): (r: Initialisers.ImageViewCreateInfo)
    ensures r == Initialisers.ImgViewCreateInfo(format, image, ASPECT_COLOR)
  {
    Initialisers.ImageViewCreateInfo(
      image := image,
      viewType := Initialisers.ViewType2D,
      format := format,
      components := Initialisers.ComponentMapping(
        Initialisers.SWIZZLE_IDENTITY, Initialisers.SWIZZLE_IDENTITY,
        Initialisers.SWIZZLE_IDENTITY, Initialisers.SWIZZLE_IDENTITY),
      subresourceRange := Initialisers.SubresourceRange(ASPECT_COLOR, 0, 1, 0, 1))
  }

  /** `createImageViews`: one view create info per swapchain image, in image order. */
  function ImageViewInfos(images: seq<Handle>, format: Format): (r: seq<Initialisers.ImageViewCreateInfo>)
    ensures |r| == |images|
    ensures forall i :: 0 <= i < |r| ==> r[i].image == images[i] && r[i].format == format
  {
    seq(|images|, i requires 0 <= i < |images| => SwapchainViewInfo(images[i], format))
  }

  /** The swapchain's hand-written view create info is exactly what `vkinit::imgview_create_info`
      builds for a colour view, so every swapchain view sees one whole level-0, layer-0 image. */
  lemma SwapchainViewsMatchInitialiser(images: seq<Handle>, format: Format)
    ensures forall i :: 0 <= i < |images| ==>
              ImageViewInfos(images, format)[i] == Initialisers.ImgViewCreateInfo(format, images[i], ASPECT_COLOR)
  {
  }

  /** A teardown request issued to the driver. */
  datatype TeardownCall =
    | DeviceWaitIdleCall(device: Handle)
    | DestroySwapchainCall(swapchain: Handle)
    | DestroyImageViewCall(view: Handle)
    | DestroySurfaceCall(surface: Handle)
    | DestroyDeviceCall(device: Handle)
    | DestroyDebugMessengerCall(messenger: Handle)
    | DestroyInstanceCall(instance: Handle)

  /** `destroySwapchain`: the swapchain first, then its views in index order. */
  function DestroySwapchain(swapchain: Handle, views: seq<Handle>): (r: seq<TeardownCall>)
    ensures |r| == |views| + 1
    ensures r[0] == DestroySwapchainCall(swapchain)
    ensures forall i :: 0 <= i < |views| ==> r[i + 1] == DestroyImageViewCall(views[i])
  {
    [DestroySwapchainCall(swapchain)] + seq(|views|, i requires 0 <= i < |views| => DestroyImageViewCall(views[i]))
  }
}
