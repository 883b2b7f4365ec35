/** The renderer object's own state: the frame-slot ring indexed by the frame counter, the
    state of a freshly constructed renderer, and the teardown order of `cleanup`. */
module Renderer {
  import opened VkTypes
  import opened Swapchain

  /** Number of frame slots cycled round-robin. */
  const FRAME_OVERLAP: nat := 2

  /** One frame slot's command and synchronisation handles. */
  datatype FrameData = FrameData(
    cmdPool: Handle,
    mainCmdBuffer: Handle,
    swapchainSemaphore: Handle,
    renderSemaphore: Handle,
    renderFence: Handle)

  datatype RendererState = RendererState(isInitialised: bool, frameNumber: u64)

  /** The member initialisers of a newly constructed `Renderer`. */
  function FreshRenderer(): (r: RendererState)
    ensures !r.isInitialised && r.frameNumber == 0
  {
    RendererState(isInitialised := false, frameNumber := 0)
  }

  /** The slot `getCurrentFrame` uses for frame `frameNumber`. */
  function CurrentFrameIndex(frameNumber: u64): (r: nat)
    ensures r < FRAME_OVERLAP
    ensures (frameNumber - r) % FRAME_OVERLAP == 0
  {
    frameNumber % FRAME_OVERLAP
  }

  /** `getCurrentFrame`: the frame slot for the renderer's current frame number. */
  function GetCurrentFrame(frames: seq<FrameData>, state: RendererState): (r: FrameData)
    requires |frames| == FRAME_OVERLAP
    ensures r in frames
    ensures r == frames[CurrentFrameIndex(state.frameNumber)]
  {
    frames[state.frameNumber % FRAME_OVERLAP]
  }

  /** A fresh renderer's first frame uses slot 0. */
  lemma FreshRendererStartsAtSlotZero()
    ensures CurrentFrameIndex(FreshRenderer().frameNumber) == 0
  {
  }

  /** Frames `f` and `f + FRAME_OVERLAP` share a slot. */
  lemma SlotRepeatsEveryOverlap(f: u64)
    requires f + FRAME_OVERLAP < U64_LIMIT
    ensures CurrentFrameIndex(f) == CurrentFrameIndex(f + FRAME_OVERLAP)
  {
  }

  /** Distinct frames within any window of `FRAME_OVERLAP` consecutive frames use distinct
      slots; in particular consecutive frames never share one. */
  lemma WindowOfFramesUsesDistinctSlots(f: u64, g: u64)
    requires f != g
    requires f <= g < f + FRAME_OVERLAP || g <= f < g + FRAME_OVERLAP
    ensures CurrentFrameIndex(f) != CurrentFrameIndex(g)
  {
  }

  /** The renderer never advances `frameNumber` itself (no draw loop is written yet); this
      states what an increment of the 64-bit counter would do. Because 2^64 is a multiple of
      `FRAME_OVERLAP`, the ring stays in step even when the counter wraps: the frame after `f`
      (modulo 2^64) is in the next slot. */
  lemma NextFrameIsNextSlot(f: u64)
    ensures CurrentFrameIndex(AsU64(f + 1)) == (CurrentFrameIndex(f) + 1) % FRAME_OVERLAP
  {
    if f + 1 == U64_LIMIT {
      assert AsU64(f + 1) == 0;
    }
  }

  /** The handles `cleanup` releases. */
  datatype RendererHandles = RendererHandles(
    instance: Handle,
    debugMessenger: Handle,
    device: Handle,
    surface: Handle,
    swapchain: Handle,
    swapchainImageViews: seq<Handle>)

  /** `cleanup`: nothing unless initialised; otherwise wait for the device to go idle, destroy
      the swapchain and its views, then the surface, the device, the debug messenger (only
      with validation layers) and finally the instance. */
  function Cleanup(state: RendererState, h: RendererHandles, useValidationLayers: bool)
    : (r: seq<TeardownCall>)
    ensures !state.isInitialised ==> r == []
    ensures state.isInitialised ==>
              && |r| == |h.swapchainImageViews| + 5 + (if useValidationLayers then 1 else 0)
              && r[0] == DeviceWaitIdleCall(h.device)
              && r[|r| - 1] == DestroyInstanceCall(h.instance)
              && (DestroyDebugMessengerCall(h.debugMessenger) in r <==> useValidationLayers)
  {
    if !state.isInitialised then []
    else
      [DeviceWaitIdleCall(h.device)]
      + DestroySwapchain(h.swapchain, h.swapchainImageViews)
      + [DestroySurfaceCall(h.surface), DestroyDeviceCall(h.device)]
      + (if useValidationLayers then [DestroyDebugMessengerCall(h.debugMessenger)] else [])
      + [DestroyInstanceCall(h.instance)]
  }

  /** Call `a` is issued before call `b` in `trace`. */
  ghost predicate IssuedBefore(trace: seq<TeardownCall>, a: TeardownCall, b: TeardownCall)
  {
    exists i, j :: 0 <= i < j < |trace| && trace[i] == a && trace[j] == b
  }

  /** `cleanup` releases children before parents: every swapchain object is destroyed before
      its surface (required by `vkDestroySurfaceKHR`), the swapchain and every view before the
      device, and the surface and device before the instance; the device is idle first. Note
      that the swapchain goes before its views, not after. */
  lemma CleanupDestroysChildrenFirst(state: RendererState, h: RendererHandles, useValidationLayers: bool)
    requires state.isInitialised
    ensures var r := Cleanup(state, h, useValidationLayers);
            && IssuedBefore(r, DestroySwapchainCall(h.swapchain), DestroySurfaceCall(h.surface))
            && IssuedBefore(r, DestroySurfaceCall(h.surface), DestroyDeviceCall(h.device))
            && IssuedBefore(r, DestroyDeviceCall(h.device), DestroyInstanceCall(h.instance))
            && (forall v :: v in h.swapchainImageViews ==>
                  IssuedBefore(r, DestroySwapchainCall(h.swapchain), DestroyImageViewCall(v)) &&
                  IssuedBefore(r, DestroyImageViewCall(v), DestroyDeviceCall(h.device)))
  {
    var r := Cleanup(state, h, useValidationLayers);
    var n := |h.swapchainImageViews|;
    assert r[1] == DestroySwapchainCall(h.swapchain);
    assert r[n + 2] == DestroySurfaceCall(h.surface);
    assert r[n + 3] == DestroyDeviceCall(h.device);
    assert r[|r| - 1] == DestroyInstanceCall(h.instance);
    forall v | v in h.swapchainImageViews
      ensures IssuedBefore(r, DestroySwapchainCall(h.swapchain), DestroyImageViewCall(v))
      ensures IssuedBefore(r, DestroyImageViewCall(v), DestroyDeviceCall(h.device))
    {
      var k :| 0 <= k < n && h.swapchainImageViews[k] == v;
      assert r[k + 2] == DestroyImageViewCall(v);
    }
  }
}
