/** The `vkinit` create-info builders as pure record constructors, together with the reading
    the driver gives those records (counted arrays behind pointers, attachment load/store
    behaviour, subresource coverage, descriptor writes), so that each builder can be checked
    against what it is meant to request. Fields the builders leave zero-initialised are kept
    at their zero value; `sType` is implied by the record type and not stored. */
module Initialisers {
  import opened Wrappers
  import opened VkTypes

  // ---------------------------------------------------------------- command buffers

  datatype CommandBufferLevel = LevelPrimary | LevelSecondary

  datatype CommandBufferAllocateInfo = CommandBufferAllocateInfo(
    commandPool: Handle,
    level: CommandBufferLevel,
    commandBufferCount: u32)

  /** `vkinit::cmd_buffer_alloc_info`: always primary-level buffers from `pool`. */
  function CmdBufferAllocInfo(pool: Handle, count: u32): (r: CommandBufferAllocateInfo)
    ensures r.level == LevelPrimary
    ensures r.commandPool == pool && r.commandBufferCount == count
  {
    CommandBufferAllocateInfo(commandPool := pool, level := LevelPrimary, commandBufferCount := count)
  }

  // ---------------------------------------------------------------- submission

  /** `VkPipelineStageFlags2` is a 64-bit mask. */
  type StageFlags2 = bv64

  datatype SemaphoreSubmitInfo = SemaphoreSubmitInfo(
    semaphore: Handle,
    value: u64,
    stageMask: StageFlags2,
    deviceIndex: u32)

  /** `vkinit::semaphore_submit_info`: binary-semaphore use (value 1) on device 0. */
  function SemaphoreSubmit(stageMask: StageFlags2, semaphore: Handle): (r: SemaphoreSubmitInfo)
    ensures r.semaphore == semaphore && r.stageMask == stageMask
    ensures r.value == 1 && r.deviceIndex == 0
  {
    SemaphoreSubmitInfo(semaphore := semaphore, value := 1, stageMask := stageMask, deviceIndex := 0)
  }

  datatype CommandBufferSubmitInfo = CommandBufferSubmitInfo(commandBuffer: Handle, deviceMask: u32)

  /** `VkSubmitInfo2`; each pointer field is `None` for `nullptr` or `Some` of the pointee. */
  datatype SubmitInfo2 = SubmitInfo2(
    waitSemaphoreInfoCount: u32,
    waitSemaphoreInfos: Option<SemaphoreSubmitInfo>,
    commandBufferInfoCount: u32,
    commandBufferInfos: Option<CommandBufferSubmitInfo>,
    signalSemaphoreInfoCount: u32,
    signalSemaphoreInfos: Option<SemaphoreSubmitInfo>)

  /** `vkinit::submit_info(cmd, signal, wait)`. Note the parameter order: signal before wait. */
  function SubmitInfo(cmd: Option<CommandBufferSubmitInfo>, signal: Option<SemaphoreSubmitInfo>,
                      wait: Option<SemaphoreSubmitInfo>): (r: SubmitInfo2)
    ensures r.waitSemaphoreInfoCount == 0 <==> wait.None?
    ensures r.signalSemaphoreInfoCount == 0 <==> signal.None?
    ensures r.waitSemaphoreInfoCount <= 1 && r.signalSemaphoreInfoCount <= 1
    ensures r.commandBufferInfoCount == 1
    ensures r.waitSemaphoreInfos == wait && r.signalSemaphoreInfos == signal && r.commandBufferInfos == cmd
  {
    SubmitInfo2(
      waitSemaphoreInfoCount := if wait.None? then 0 else 1,
      waitSemaphoreInfos := wait,
      commandBufferInfoCount := 1,
      commandBufferInfos := cmd,
      signalSemaphoreInfoCount := if signal.None? then 0 else 1,
      signalSemaphoreInfos := signal)
  }

  /** How the driver reads a `(count, pointer)` pair: `count` consecutive elements starting at
      that address. Only arrays of at most one element are representable here; a nonzero count
      with a null pointer is invalid (`None`). */
  function ReadArray<T>(count: u32, ptr: Option<T>): Option<seq<T>>
  {
    if count == 0 then Some([])
    else if count == 1 && ptr.Some? then Some([ptr.value])
    else None
  }

  /** The submission waits on exactly the supplied wait semaphore and signals exactly the
      supplied signal semaphore: the swapped parameter order does not swap the roles. */
  lemma SubmitInfoReadsAsSupplied(cmd: Option<CommandBufferSubmitInfo>,
                                  signal: Option<SemaphoreSubmitInfo>, wait: Option<SemaphoreSubmitInfo>)
    ensures ReadArray(SubmitInfo(cmd, signal, wait).waitSemaphoreInfoCount,
                      SubmitInfo(cmd, signal, wait).waitSemaphoreInfos)
            == Some(if wait.Some? then [wait.value] else [])
    ensures ReadArray(SubmitInfo(cmd, signal, wait).signalSemaphoreInfoCount,
                      SubmitInfo(cmd, signal, wait).signalSemaphoreInfos)
            == Some(if signal.Some? then [signal.value] else [])
    ensures cmd.Some? ==> ReadArray(SubmitInfo(cmd, signal, wait).commandBufferInfoCount,
                                    SubmitInfo(cmd, signal, wait).commandBufferInfos) == Some([cmd.value])
    ensures cmd.None? ==> ReadArray(SubmitInfo(cmd, signal, wait).commandBufferInfoCount,
                                    SubmitInfo(cmd, signal, wait).commandBufferInfos).None?
  {
  }

  // ---------------------------------------------------------------- dynamic rendering

  /** `VkClearValue`, a 16-byte union, as four raw words. */
  datatype ClearValue = ClearValue(w0: bv32, w1: bv32, w2: bv32, w3: bv32)
  const ZERO_CLEAR: ClearValue := ClearValue(0, 0, 0, 0)

  datatype LoadOp = LoadOpLoad | LoadOpClear | LoadOpDontCare
  datatype StoreOp = StoreOpStore | StoreOpDontCare

  /** `VkImageLayout`, an open enumeration. */
  type ImageLayout = int

  datatype RenderingAttachmentInfo = RenderingAttachmentInfo(
    imageView: Handle,
    imageLayout: ImageLayout,
    loadOp: LoadOp,
    storeOp: StoreOp,
    clearValue: ClearValue)

  /** `vkinit::color_attachment_info`: clear when a clear value is supplied, load otherwise;
      always store. */
  function ColorAttachmentInfo(view: Handle, clear: Option<ClearValue>, layout: ImageLayout)
    : (r: RenderingAttachmentInfo)
    ensures r.loadOp == LoadOpClear <==> clear.Some?
    ensures clear.None? ==> r.loadOp == LoadOpLoad && r.clearValue == ZERO_CLEAR
    ensures clear.Some? ==> r.clearValue == clear.value
    ensures r.storeOp == StoreOpStore
    ensures r.imageView == view && r.imageLayout == layout
  {
    RenderingAttachmentInfo(
      imageView := view,
      imageLayout := layout,
      loadOp := if clear.Some? then LoadOpClear else LoadOpLoad,
      storeOp := StoreOpStore,
      clearValue := if clear.Some? then clear.value else ZERO_CLEAR)
  }

  /** What an attachment holds when rendering begins. */
  datatype InitialContents = Cleared(value: ClearValue) | Preserved | Undefined

  /** The load operation's meaning (section "Render Pass Load Operations" of the Vulkan 1.3
      specification): CLEAR writes the clear value, LOAD keeps the previous contents. */
  function ContentsAtRenderStart(a: RenderingAttachmentInfo): InitialContents
  {
    match a.loadOp
    case LoadOpClear => Cleared(a.clearValue)
    case LoadOpLoad => Preserved
    case LoadOpDontCare => Undefined
  }

  /** A supplied clear value is what the attachment starts with; otherwise its previous
      contents are kept, and in both cases the rendered result is stored. */
  lemma ColorAttachmentStartsAsRequested(view: Handle, clear: Option<ClearValue>, layout: ImageLayout)
    ensures ContentsAtRenderStart(ColorAttachmentInfo(view, clear, layout))
            == (if clear.Some? then Cleared(clear.value) else Preserved)
    ensures ColorAttachmentInfo(view, clear, layout).storeOp == StoreOpStore
  {
  }

  datatype RenderingInfo = RenderingInfo(
    renderArea: Rect2D,
    layerCount: u32,
    viewMask: u32,
    colorAttachmentCount: u32,
    colorAttachments: Option<RenderingAttachmentInfo>,
    depthAttachment: Option<RenderingAttachmentInfo>,
    stencilAttachment: Option<RenderingAttachmentInfo>)

  /** `vkinit::rendering_info`: the whole extent from the origin, one layer, one colour
      attachment, the given depth attachment and no stencil attachment. */
  function RenderingInfoFor(extent: Extent2D, color: Option<RenderingAttachmentInfo>,
                            depth: Option<RenderingAttachmentInfo>): (r: RenderingInfo)
    ensures r.renderArea.offset == Offset2D(0, 0) && r.renderArea.extent == extent
    ensures r.layerCount == 1 && r.colorAttachmentCount == 1
    ensures r.colorAttachments == color && r.depthAttachment == depth
    ensures r.stencilAttachment.None?
  {
    RenderingInfo(
      renderArea := Rect2D(Offset2D(0, 0), extent),
      layerCount := 1,
      viewMask := 0,
      colorAttachmentCount := 1,
      colorAttachments := color,
      depthAttachment := depth,
      stencilAttachment := None)
  }

  /** Whether pixel `(x, y)` lies inside a rendering's render area. */
  predicate InRenderArea(info: RenderingInfo, x: int, y: int)
  {
    var area := info.renderArea;
    area.offset.x <= x < area.offset.x + area.extent.width &&
    area.offset.y <= y < area.offset.y + area.extent.height
  }

  /** The render area of `rendering_info` is exactly the pixels of the given extent. */
  lemma RenderAreaIsWholeExtent(extent: Extent2D, color: Option<RenderingAttachmentInfo>,
                                depth: Option<RenderingAttachmentInfo>, x: int, y: int)
    ensures InRenderArea(RenderingInfoFor(extent, color, depth), x, y)
            <==> 0 <= x < extent.width && 0 <= y < extent.height
  {
  }

  // ---------------------------------------------------------------- images

  datatype ImageType = ImageType1D | ImageType2D | ImageType3D
  datatype ImageTiling = TilingOptimal | TilingLinear

  /** `VkSampleCountFlagBits`; the value is the sample count. */
  type SampleCount = u32

  datatype ImageCreateInfo = ImageCreateInfo(
    imageType: ImageType,
    format: Format,
    extent: Extent3D,
    mipLevels: u32,
    arrayLayers: u32,
    samples: SampleCount,
    tiling: ImageTiling,
    usage: Flags)

  /** `vkinit::img_create_info`: a single-sampled, optimally tiled 2D image with one mip level
      and one array layer. */
  function ImgCreateInfo(format: Format, usage: Flags, extent: Extent3D): (r: ImageCreateInfo)
    ensures r.imageType == ImageType2D && r.tiling == TilingOptimal
    ensures r.mipLevels == 1 && r.arrayLayers == 1 && r.samples == 1
    ensures r.format == format && r.usage == usage && r.extent == extent
  {
    ImageCreateInfo(
      imageType := ImageType2D,
      format := format,
      extent := extent,
      mipLevels := 1,
      arrayLayers := 1,
      samples := 1,
      tiling := TilingOptimal,
      usage := usage)
  }

  /** `VK_REMAINING_MIP_LEVELS` and `VK_REMAINING_ARRAY_LAYERS` (both `~0U`). */
  const REMAINING: u32 := UINT32_MAX

  datatype SubresourceRange = SubresourceRange(
    aspectMask: Flags,
    baseMipLevel: u32,
    levelCount: u32,
    baseArrayLayer: u32,
    layerCount: u32)

  /** `vkinit::img_subresource_range`: from mip 0 and layer 0, all remaining levels and layers. */
  function ImgSubresourceRange(aspectMask: Flags): (r: SubresourceRange)
    ensures r.aspectMask == aspectMask
    ensures r.baseMipLevel == 0 && r.baseArrayLayer == 0
    ensures r.levelCount == REMAINING && r.layerCount == REMAINING
  {
    SubresourceRange(aspectMask, 0, REMAINING, 0, REMAINING)
  }

  /** Number of levels (or layers) a range selects from an image with `total` of them. */
  function Selected(base: u32, count: u32, total: nat): int
  {
    if count == REMAINING then total - base else count
  }

  /** Whether `range` selects mip `mip` and layer `layer` of an image with `mips` levels and
      `layers` array layers. */
  predicate Covers(range: SubresourceRange, mips: nat, layers: nat, mip: nat, layer: nat)
  {
    mip < mips && layer < layers &&
    range.baseMipLevel <= mip < range.baseMipLevel + Selected(range.baseMipLevel, range.levelCount, mips) &&
    range.baseArrayLayer <= layer < range.baseArrayLayer + Selected(range.baseArrayLayer, range.layerCount, layers)
  }

  /** `img_subresource_range` covers every level and layer of any image. */
  lemma SubresourceRangeCoversWholeImage(aspect: Flags, mips: nat, layers: nat, mip: nat, layer: nat)
    ensures Covers(ImgSubresourceRange(aspect), mips, layers, mip, layer) <==> mip < mips && layer < layers
  {
  }

  /** `VkComponentSwizzle`; 0 is `VK_COMPONENT_SWIZZLE_IDENTITY`. */
  type ComponentSwizzle = int
  const SWIZZLE_IDENTITY: ComponentSwizzle := 0

  datatype ComponentMapping = ComponentMapping(r: ComponentSwizzle, g: ComponentSwizzle,
                                               b: ComponentSwizzle, a: ComponentSwizzle)
  const IDENTITY_MAPPING: ComponentMapping :=
    ComponentMapping(SWIZZLE_IDENTITY, SWIZZLE_IDENTITY, SWIZZLE_IDENTITY, SWIZZLE_IDENTITY)

  datatype ImageViewType = ViewType1D | ViewType2D | ViewType3D | ViewTypeCube

  datatype ImageViewCreateInfo = ImageViewCreateInfo(
    image: Handle,
    viewType: ImageViewType,
    format: Format,
    components: ComponentMapping,
    subresourceRange: SubresourceRange)

  /** `vkinit::imgview_create_info`: a 2D view of exactly mip 0 and layer 0. */
  function ImgViewCreateInfo(format: Format, image: Handle, aspectFlags: Flags): (r: ImageViewCreateInfo)
    ensures r.image == image && r.format == format && r.viewType == ViewType2D
    ensures r.subresourceRange == SubresourceRange(aspectFlags, 0, 1, 0, 1)
    ensures r.components == IDENTITY_MAPPING
  {
    ImageViewCreateInfo(
      image := image,
      viewType := ViewType2D,
      format := format,
      components := IDENTITY_MAPPING,
      subresourceRange := SubresourceRange(aspectFlags, 0, 1, 0, 1))
  }

  /** `imgview_create_info` selects exactly one level and one layer of any image. */
  lemma ViewCoversFirstLevelAndLayer(format: Format, image: Handle, aspect: Flags,
                                     mips: nat, layers: nat, mip: nat, layer: nat)
    requires mips >= 1 && layers >= 1
    ensures Covers(ImgViewCreateInfo(format, image, aspect).subresourceRange, mips, layers, mip, layer)
            <==> mip == 0 && layer == 0
  {
  }

  /** A view from `imgview_create_info` of an image from `img_create_info` sees all of it,
      since such an image has a single level and a single layer. */
  lemma ViewOfCreatedImageCoversIt(format: Format, usage: Flags, extent: Extent3D, image: Handle,
                                   aspect: Flags, mip: nat, layer: nat)
    ensures var img := ImgCreateInfo(format, usage, extent);
            Covers(ImgViewCreateInfo(format, image, aspect).subresourceRange, img.mipLevels, img.arrayLayers, mip, layer)
            <==> Covers(ImgSubresourceRange(aspect), img.mipLevels, img.arrayLayers, mip, layer)
  {
  }

  // ---------------------------------------------------------------- descriptor writes

  datatype DescriptorImageInfo = DescriptorImageInfo(sampler: Handle, imageView: Handle, imageLayout: ImageLayout)

  datatype WriteDescriptorSet = WriteDescriptorSet(
    dstSet: Handle,
    dstBinding: u32,
    dstArrayElement: u32,
    descriptorCount: u32,
    descriptorType: DescriptorType,
    imageInfo: Option<DescriptorImageInfo>)

  /** `vkinit::write_descriptor_image`: one image descriptor at array element 0. */
  function WriteDescriptorImage(dtype: DescriptorType, dstSet: Handle, imgInfo: Option<DescriptorImageInfo>,
                                binding: u32): (r: WriteDescriptorSet)
    ensures r.descriptorCount == 1 && r.dstArrayElement == 0
    ensures r.dstSet == dstSet && r.dstBinding == binding
    ensures r.descriptorType == dtype && r.imageInfo == imgInfo
  {
    WriteDescriptorSet(
      dstSet := dstSet,
      dstBinding := binding,
      dstArrayElement := 0,
      descriptorCount := 1,
      descriptorType := dtype,
      imageInfo := imgInfo)
  }

  /** A descriptor element: (set, binding, array element). */
  datatype Slot = Slot(descriptorSet: Handle, binding: u32, element: u32)

  /** `vkUpdateDescriptorSets` applied to the image descriptors of some sets: the write's
      elements take the pointed-to image infos. `None` for writes this model cannot read
      (more than one element, or a null image-info pointer). */
  function ApplyImageWrite(table: map<Slot, DescriptorImageInfo>, w: WriteDescriptorSet)
    : Option<map<Slot, DescriptorImageInfo>>
  {
    match ReadArray(w.descriptorCount, w.imageInfo)
    case None => None
    case Some(infos) =>
      if |infos| == 0 then Some(table)
      else Some(table[Slot(w.dstSet, w.dstBinding, w.dstArrayElement) := infos[0]])
  }

  /** Writing with `write_descriptor_image` re-points exactly element 0 of the given binding
      of the given set at the new image info and leaves every other descriptor alone. */
  lemma WriteDescriptorImageRepointsOneSlot(table: map<Slot, DescriptorImageInfo>, dtype: DescriptorType,
                                            dstSet: Handle, info: DescriptorImageInfo, binding: u32)
    ensures var t := ApplyImageWrite(table, WriteDescriptorImage(dtype, dstSet, Some(info), binding));
            t.Some? && t.value == table[Slot(dstSet, binding, 0) := info]
    ensures var t := ApplyImageWrite(table, WriteDescriptorImage(dtype, dstSet, Some(info), binding)).value;
            forall s :: s in table && s != Slot(dstSet, binding, 0) ==> s in t && t[s] == table[s]
  {
  }
}
