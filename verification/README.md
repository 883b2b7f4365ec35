# VkEngine core in Dafny

This project models the decision logic of VkEngine, a small Vulkan renderer with a GLFW input
manager, and proves properties of it. Every call into Vulkan or GLFW becomes a plain input
value: the device list, heap lists, surface formats, present modes, surface capabilities,
framebuffer size, driver result codes and returned handles. A `VK_CHECK` or `abort()` becomes
a `Failure` value of a `Result`.

- **Device and swapchain negotiation** (modules `DeviceSelection` and `Swapchain`):
  - summing device-local VRAM with 64-bit wrap;
  - the suitability test;
  - the candidate ranking comparator, and picking the first candidate of the sorted list;
  - the choice of surface format, present mode, extent and image count;
  - the swapchain create info and the per-image view create infos;
  - the swapchain teardown order.
- **Renderer state** (module `Renderer`):
  - the frame-slot ring `frameNumber % FRAME_OVERLAP`;
  - the state of a freshly constructed renderer;
  - the `cleanup` teardown sequence.
- **Descriptors** (module `Descriptors`):
  - the layout builder, whose `build` ORs stage flags into the stored bindings in place;
  - pool sizing from type ratios;
  - the shape of the single-set allocation request.
- **`vkinit` builders** (module `Initialisers`): the create-info builders as record
  constructors. Each comes with the meaning the driver gives its fields. For example, a
  (count, pointer) pair is read as a list, a load op is read as the attachment's initial
  contents, and a subresource range is read as the set of levels and layers it selects.
- **Input manager** (modules `InputState`, `InputBindings` and `InputActions`):
  - per-key and per-mouse-button current/previous flags;
  - PRESS/REPEAT/RELEASE edge detection;
  - the getters;
  - recursive bindings, where a composite is an AND and an action's binding list is an OR;
  - the action registry with its 0/1 status codes;
  - `processActions`, including the end-of-frame update.

Shared types live in `Wrappers` (`Option`, `Result`, `FirstIndexOf`) and `VkTypes` (the
unsigned integer widths with explicit wrap-around, `VkResult`, `VK_CHECK`, handles and
extents).

How the model treats a few parts of the code:
- **Sorting candidates.** `std::sort` followed by taking the front element is modelled as a
  scan that returns a candidate no other candidate sorts before. The lemmas show two things:
  the head of any order the sort may produce has that property, and all such candidates have
  the same (discrete, VRAM) rank.
- **Callbacks.** Each callback is an opaque identity. Running one appends an entry to a trace.
- **Out-of-range binding codes.** The binding test reads the state arrays unchecked. A key
  or mouse-button test that is reached with a code outside its array evaluates to `None`
  (undefined behaviour). Tests the early exits skip are never evaluated, so their codes do
  not matter: parts after the first failing part of a composite, bindings after the first
  holding binding, and the bindings of inactive actions. `processActions` is modelled for
  the frames in which no reached test reads out of bounds.
- **Action iteration order.** The order in which `processActions` visits the
  `unordered_map` of actions is unspecified. The model takes it as a parameter: any order
  that visits every registered action exactly once. The proved properties hold for every
  such order.

## Model

| member | source | states |
|---|---|---|
| VkTypes.VkCheck | src/renderer/vk_common.h:33-40 | any nonzero `VkResult` aborts with that code; only `VK_SUCCESS` lets the output through |
| VkTypes.AsU32 | src/renderer/vk_renderer.cpp:223 | conversion to `uint32_t`: identity in range, otherwise congruent modulo 2^32 and in range |
| VkTypes.AsU64 | src/renderer/vk_renderer.cpp:133 | accumulation in `VkDeviceSize`: identity in range, otherwise congruent modulo 2^64 |
| Wrappers.FirstIndexOf | src/renderer/vk_renderer.cpp:295-299 | the linear search used by the preference choices: the index of the first occurrence, and `None` exactly when the value is absent |
| DeviceSelection.SumDeviceLocalHeaps | src/renderer/vk_renderer.cpp:130-135 | the sum of the sizes of the first `memoryHeapCount` heaps with the DEVICE_LOCAL bit, exact when below 2^64 and 0 when no heap is device-local |
| DeviceSelection.NoDeviceLocalHeapsTotalZero | src/renderer/vk_renderer.cpp:130-135 | without device-local heaps the VRAM total is 0 |
| DeviceSelection.IsDeviceSuitable | src/renderer/vk_renderer.cpp:160-171 | suitable iff queues are available, the extensions are supported, and both the format list and the present-mode list are non-empty |
| DeviceSelection.SuitableDeviceHasSurfaceFormat | src/renderer/vk_renderer.cpp:160-171 | suitability implies the non-empty format list that the surface-format choice indexes |
| DeviceSelection.Candidates | src/renderer/vk_renderer.cpp:120-137 | every candidate comes from a suitable device, with its VRAM, and every suitable device yields a candidate; order and multiplicity are fixed by the two lemmas below |
| DeviceSelection.CandidatesKeepEnumerationOrder | src/renderer/vk_renderer.cpp:122-138 | the candidates of a concatenated device list are the candidates of the first part followed by those of the second, so candidates keep enumeration order |
| DeviceSelection.CandidatesOfOne | src/renderer/vk_renderer.cpp:123-137 | a single device yields exactly one candidate, with its VRAM, when suitable and none otherwise |
| DeviceSelection.SortsBeforeIsRankOrder | src/renderer/vk_renderer.cpp:145-155 | the comparator orders by a single rank: discrete first, then more VRAM, with integrated and other types ranked alike |
| DeviceSelection.SortsBeforeIsStrictWeakOrder | src/renderer/vk_renderer.cpp:145-155 | the comparator is irreflexive and transitive, and incomparability is transitive, so it is a valid `std::sort` comparator |
| DeviceSelection.SortsBefore | src/renderer/vk_renderer.cpp:145-155 | the `std::sort` comparator: a discrete device sorts before a non-discrete one whatever the VRAM, never after it, and between devices equally discrete the larger VRAM sorts first |
| DeviceSelection.SortedHeadIsRankedFirst | src/renderer/vk_renderer.cpp:145-157 | the front of any arrangement the sort may leave is a candidate no other candidate sorts before |
| DeviceSelection.RankedFirstIsUniqueUpToRank | src/renderer/vk_renderer.cpp:145-157 | all such front-runners share type class and VRAM, so the unstable sort cannot change the rank selected |
| DeviceSelection.CollectCandidates | src/renderer/vk_renderer.cpp:120-137 | the loop collects exactly the suitable devices, with their VRAM, in enumeration order |
| DeviceSelection.FirstRanked | src/renderer/vk_renderer.cpp:145-157 | the chosen candidate is one no candidate sorts before, and it sorts before every earlier candidate, so it is the first of the best rank |
| DeviceSelection.SelectPhysicalDevice | src/renderer/vk_renderer.cpp:103-158 | aborts iff there are no devices, or no suitable device; otherwise returns a candidate that no candidate sorts before |
| DeviceSelection.SelectedDeviceIsBest | src/renderer/vk_renderer.cpp:103-158 | the selection is a suitable device; it is discrete whenever a suitable discrete device exists; it has maximal VRAM within its class |
| Swapchain.ChooseSwapSurfaceFormat | src/renderer/vk_renderer.cpp:294-302 | the result is offered by the surface; it is B8G8R8A8_SRGB/SRGB_NONLINEAR iff that is offered, and the first offered format otherwise |
| Swapchain.ChooseSwapPresentMode | src/renderer/vk_renderer.cpp:304-309 | MAILBOX iff the surface offers MAILBOX, otherwise FIFO |
| Swapchain.PresentModeIsSupported | src/renderer/vk_renderer.cpp:304-309 | given that every surface offers FIFO, the chosen mode is always one the surface offers |
| Swapchain.Clamp | src/renderer/vk_renderer.cpp:320-323 | `std::clamp` under its precondition lo <= hi: the value is clamped into [lo, hi] and kept when already inside |
| Swapchain.ChooseSwapExtent | src/renderer/vk_renderer.cpp:311-326 | the current extent verbatim unless its width is `UINT32_MAX`; otherwise the framebuffer size converted to `uint32_t`, with each dimension clamped independently |
| Swapchain.ExtentWithinBounds | src/renderer/vk_renderer.cpp:311-326 | when the window decides, the extent lies within the surface's bounds, and an in-range framebuffer size is used unchanged |
| Swapchain.ImageCount | src/renderer/vk_renderer.cpp:223-226 | `minImageCount + 1` in `uint32_t`, lowered to a nonzero smaller `maxImageCount`: at most `maxImageCount` when that is nonzero, at least `minImageCount` when `maxImageCount` is 0 or at least `minImageCount` and the increment does not wrap, and 0 when it wraps |
| Swapchain.CreateSwapchain | src/renderer/vk_renderer.cpp:216-264 | aborts if the graphics family cannot present, then on a failed create; otherwise the create info carries exactly the surface format, present mode, extent and image count the choose functions pick, plus the fixed fields, and the images are those reported |
| Swapchain.CreatedSwapchainFitsSurface | src/renderer/vk_renderer.cpp:216-264 | a created swapchain uses a format the surface offers, the preferred one whenever offered, and, when the window decides the extent, an extent within the surface bounds |
| Swapchain.ImageViewInfos | src/renderer/vk_renderer.cpp:331-352 | one view create info per swapchain image, in image order, with the swapchain format |
| Swapchain.SwapchainViewInfo | src/renderer/vk_renderer.cpp:335-348 | the hand-written view create info for one swapchain image equals `vkinit::imgview_create_info` for that image and format with the colour aspect |
| Swapchain.SwapchainViewsMatchInitialiser | src/renderer/vk_renderer.cpp:335-348 | each hand-written view create info equals what `vkinit::imgview_create_info` builds for a colour view |
| Swapchain.DestroySwapchain | src/renderer/vk_renderer.cpp:266-271 | destroys the swapchain first, then every view in index order |
| Renderer.FreshRenderer | src/renderer/vk_renderer.h:16-17 | a new renderer is not initialised and has frame number 0 |
| Renderer.CurrentFrameIndex | src/renderer/vk_renderer.h:43 | the slot index is below `FRAME_OVERLAP` and congruent to the frame number |
| Renderer.GetCurrentFrame | src/renderer/vk_renderer.h:43-44 | the frame data returned is one of the ring's slots, the one for the current frame number |
| Renderer.FreshRendererStartsAtSlotZero | src/renderer/vk_renderer.h:16-17 | a fresh renderer's first frame uses slot 0 |
| Renderer.SlotRepeatsEveryOverlap | src/renderer/vk_renderer.h:43 | frames f and f + `FRAME_OVERLAP` share a slot |
| Renderer.WindowOfFramesUsesDistinctSlots | src/renderer/vk_renderer.h:11 | distinct frames less than `FRAME_OVERLAP` apart use distinct slots; in particular consecutive frames do |
| Renderer.NextFrameIsNextSlot | src/renderer/vk_renderer.h:17 | for a hypothetical increment of the frame counter (the code never increments it): even when the 64-bit counter wraps, the ring advances by one slot |
| Renderer.Cleanup | src/renderer/vk_renderer.cpp:21-31 | nothing unless initialised; otherwise waits for idle first, destroys the instance last, and destroys the debug messenger iff validation layers are on |
| Renderer.CleanupDestroysChildrenFirst | src/renderer/vk_renderer.cpp:21-31 | the swapchain goes before the surface; the swapchain and every view go before the device; the device goes before the instance; the swapchain goes before its views |
| Descriptors.AddBinding | src/renderer/vk_descriptors.cpp:3-9 | appends one entry with the given index and type, count 1 and no stages; earlier entries are unchanged |
| Descriptors.AddBindingsAppendsInOrder | src/renderer/vk_descriptors.cpp:3-9 | a sequence of `addBinding` calls yields the earlier bindings followed by one fresh entry per call, in call order |
| Descriptors.Clear | src/renderer/vk_descriptors.cpp:11-13 | the builder is left with no bindings |
| Descriptors.WithStages | src/renderer/vk_descriptors.cpp:18 | each binding gains the requested stage bits and keeps the ones it had |
| Descriptors.Build | src/renderer/vk_descriptors.cpp:15-30 | stages are ORed into every stored binding in place; the create info lists the updated bindings in insertion order with their count, `pNext` and `flags`; a failed create aborts |
| Descriptors.BuildTwiceUnionsStages | src/renderer/vk_descriptors.cpp:18 | a second `build` leaves the union of both stage masks, not the second mask alone |
| Descriptors.BuildIsIdempotent | src/renderer/vk_descriptors.cpp:18 | building again with the same mask leaves the builder unchanged |
| Descriptors.InitPool | src/renderer/vk_descriptors.cpp:32-49 | one pool size per ratio, same order and type; `maxSets` passes through; the pool handle is kept unchecked |
| Descriptors.PoolOffersExactlyRatioTypes | src/renderer/vk_descriptors.cpp:32-46 | the pool offers a descriptor type iff some ratio names it |
| Descriptors.Allocate | src/renderer/vk_descriptors.cpp:59-70 | requests exactly one set, with the given layout, from this allocator's pool; a failed allocation aborts |
| Descriptors.AllocateDrawsFromInitPool | src/renderer/vk_descriptors.cpp:32-70 | an allocator set up by `initPool` requests its one set from the very pool `vkCreateDescriptorPool` returned |
| Initialisers.CmdBufferAllocInfo | src/renderer/vk_initialisers.cpp:12-20 | primary-level buffers, with the given pool and count |
| Initialisers.SemaphoreSubmit | src/renderer/vk_initialisers.cpp:55-64 | value 1 and device index 0, with the semaphore and stage mask passed through |
| Initialisers.SubmitInfo | src/renderer/vk_initialisers.cpp:66-77 | the wait and signal counts are 0 iff their pointer is null, else 1; there is always one command-buffer entry; the parameter order is signal, then wait |
| Initialisers.SubmitInfoReadsAsSupplied | src/renderer/vk_initialisers.cpp:66-77 | the driver reads back exactly the supplied wait and signal semaphores, and the command buffer when one is supplied |
| Initialisers.ColorAttachmentInfo | src/renderer/vk_initialisers.cpp:130-142 | CLEAR iff a clear value is given, otherwise LOAD with a zero clear value; always STORE |
| Initialisers.ColorAttachmentStartsAsRequested | src/renderer/vk_initialisers.cpp:130-142 | rendering starts from the supplied clear value, or from the previous contents when none is given |
| Initialisers.RenderingInfoFor | src/renderer/vk_initialisers.cpp:144-157 | render area at (0,0) with the given extent, one layer, one colour attachment, no stencil attachment |
| Initialisers.RenderAreaIsWholeExtent | src/renderer/vk_initialisers.cpp:144-157 | a pixel is in the render area iff it lies inside the extent |
| Initialisers.ImgCreateInfo | src/renderer/vk_initialisers.cpp:96-111 | 2D, one mip, one layer, one sample, optimal tiling; format, usage and extent passed through |
| Initialisers.ImgSubresourceRange | src/renderer/vk_initialisers.cpp:86-94 | starts at mip 0 and layer 0 and takes all remaining levels and layers |
| Initialisers.SubresourceRangeCoversWholeImage | src/renderer/vk_initialisers.cpp:86-94 | the range selects every level and layer of any image |
| Initialisers.ImgViewCreateInfo | src/renderer/vk_initialisers.cpp:113-128 | a 2D view of exactly one level and one layer, with identity swizzles |
| Initialisers.ViewCoversFirstLevelAndLayer | src/renderer/vk_initialisers.cpp:113-128 | the view selects mip 0 of layer 0 and nothing else |
| Initialisers.ViewOfCreatedImageCoversIt | src/renderer/vk_initialisers.cpp:96-128 | a view built this way sees the whole of an image built by `img_create_info` |
| Initialisers.WriteDescriptorImage | src/renderer/vk_initialisers.cpp:159-171 | one descriptor at element 0; set, binding, type and image info passed through unchanged |
| Initialisers.WriteDescriptorImageRepointsOneSlot | src/renderer/vk_initialisers.cpp:159-171 | applying the write changes exactly element 0 of the given binding in the given set |
| InputState.InitialState | src/input.h:103-106 | every key and mouse button starts released, both now and previously |
| InputState.InitiallyNothingActive | src/input.h:103-106 | initially no key or button is pressed, held or released |
| InputState.UpdateBankAsWritten | src/input.cpp:35-47 | the unchecked update is defined exactly for codes inside the array |
| InputState.UnknownKeyIndexesOutOfBounds | src/input.cpp:4-7 | the key code GLFW reports for unknown keys (-1) falls outside the key array |
| InputState.UpdateBank | src/input.cpp:35-47 | for an in-range code, previous takes the old current value and current becomes "not RELEASE"; every other code is unchanged; an out-of-range code changes nothing |
| InputState.UpdateBankAgreesWhereDefined | src/input.cpp:35-47 | wherever the unchecked update is defined, the guarded update is the same |
| InputState.UpdateKeys | src/input.cpp:35-37 | the key-state update touches only the key bank |
| InputState.UpdateButtons | src/input.cpp:42-44 | the mouse-button update is the same bank update, applied to the button bank only |
| InputState.CheckTrigger | src/input.cpp:119-126 | PRESS iff down now and up before; REPEAT iff down both times; RELEASE iff up now and down before; any other event never triggers |
| InputState.AtMostOneTrigger | src/input.cpp:119-126 | for any pair of flags at most one of the three events triggers, and none does for a button that was up both times |
| InputState.GettersAreTriggersAndExclusive | src/input.cpp:181-203 | pressed, held and released are the PRESS, REPEAT and RELEASE trigger tests, and are pairwise exclusive, for keys and for mouse buttons |
| InputState.IsKeyPressed | src/input.cpp:181-183 | a key is pressed iff it passes the PRESS trigger test |
| InputState.IsKeyHeld | src/input.cpp:185-187 | a key is held iff it passes the REPEAT trigger test |
| InputState.IsKeyReleased | src/input.cpp:189-191 | a key is released iff it passes the RELEASE trigger test |
| InputState.IsMouseButtonPressed | src/input.cpp:193-195 | a mouse button is pressed iff it passes the PRESS trigger test |
| InputState.IsMouseButtonHeld | src/input.cpp:197-199 | a mouse button is held iff it passes the REPEAT trigger test |
| InputState.IsMouseButtonReleased | src/input.cpp:201-203 | a mouse button is released iff it passes the RELEASE trigger test |
| InputState.KeyEventThenGetters | src/input.cpp:35-37 | after a key event, the key reads as pressed, held or released exactly as the event and the earlier state dictate |
| InputState.EndFrame | src/input.cpp:170-176 | previous flags take the current ones, the cursor counts as still, and the scroll total is zero |
| InputState.AfterEndFrameOnlyHeld | src/input.cpp:170-176 | after the frame ends no key or button reads as pressed or released, and "held" equals "down now" |
| InputBindings.KeyBinding | src/input.h:26 | a Key binding with the given code and event and no parts |
| InputBindings.MouseButtonBinding | src/input.h:27 | a MouseButton binding with the given code and event and no parts |
| InputBindings.MouseMoveBinding | src/input.h:28 | a MouseMove binding with code 0, event 0 and no parts |
| InputBindings.ScrollUpBinding | src/input.h:29 | a MouseScrollUp binding with code 0, event 0 and no parts |
| InputBindings.ScrollDownBinding | src/input.h:30 | a MouseScrollDown binding with code 0, event 0 and no parts |
| InputBindings.CompositeBinding | src/input.h:31-36 | a Composite binding whose parts are the list in order, with code 0 and event 0 |
| InputBindings.LeafHolds | src/input.cpp:138-151 | a key or mouse-button binding is the getter of its event (pressed, held, released) and false for any other event; motion and scroll bindings test the cursor and the scroll direction |
| InputBindings.CheckBinding | src/input.cpp:129-152 | a leaf is undefined exactly when its code is out of range; with every code in range the early-exit test agrees with the reference meaning, where a composite holds iff every part holds |
| InputBindings.PartsHoldFrom | src/input.cpp:131-136 | with every code in range, the loop over the parts returns true iff every remaining part holds |
| InputBindings.CompositeStopsAtFirstFailure | src/input.cpp:131-135 | a composite's outcome is that of its first part that does not hold (false, or undefined for an out-of-range read), whatever its later parts are; with no such part it holds |
| InputBindings.CompositeEdgeCases | src/input.cpp:131-136 | an empty composite always holds; a one-part composite holds iff its part does |
| InputBindings.AnyHolds | src/input.cpp:159-164 | with every code in range, the loop over an action's bindings returns true iff some binding holds |
| InputBindings.AnyHoldsStopsAtFirstSuccess | src/input.cpp:159-163 | the outcome is that of the first binding that does not fail (true, or undefined for an out-of-range read), whatever the later bindings are; when all fail it is false |
| InputActions.NewAction | src/input.h:39-44 | a new action is active, carries its id, and has no bindings and no callbacks |
| InputActions.RegisterAction | src/input.cpp:83-87 | a duplicate id returns 1 and changes nothing; otherwise a new action is inserted, 0 is returned, and no other entry changes |
| InputActions.RegisterActionWith | src/input.cpp:89-95 | a duplicate id returns 1 and changes nothing, so nothing is appended to the existing action; otherwise the new action holds exactly the one binding and the one callback |
| InputActions.AddActionBinding | src/input.cpp:97-101 | an unknown id returns 1 and changes nothing; otherwise the binding is appended to that action only and 0 is returned |
| InputActions.AddActionCallback | src/input.cpp:103-107 | an unknown id returns 1 and changes nothing; otherwise the callback is appended to that action only and 0 is returned |
| InputActions.SetActionActive | src/input.cpp:109-113 | an unknown id returns 1 and changes nothing; otherwise only that action's flag changes and 0 is returned |
| InputActions.RegistryOperationsPreserveWellFormed | src/input.cpp:83-113 | every registry operation keeps each action filed under its own id |
| InputActions.RegisteredIdIsAccepted | src/input.cpp:83-113 | after registration, the add and set operations accept the id; before it, they reject the id and leave the registry as it was |
| InputActions.AddInRangeBindingKeepsRegistryInRange | src/input.cpp:89-101 | adding bindings whose codes index the state arrays keeps every filed binding within them |
| InputActions.InRangeRegistryIsReadSafely | src/input.cpp:155-164 | when every filed code is in range, no frame reads out of bounds and an action fires iff it is active and one of its bindings has its reference meaning |
| InputActions.DeactivatingKeepsReadsInBounds | src/input.cpp:109-113 | switching an action off never introduces an out-of-bounds read, because an inactive action's bindings are not tested |
| InputActions.RunAll | src/input.cpp:165-166 | one trace entry per stored callback, in stored order, each naming the action |
| InputActions.Invocations | src/input.cpp:155-168 | every trace entry names an action of the visiting order |
| InputActions.CallsOf | src/input.cpp:155-168 | the calls recorded for an action are no more than the trace, and none when no entry names the action |
| InputActions.CallsOfAppend | src/input.cpp:155-168 | the calls a trace makes for one action split over concatenation |
| InputActions.CallsOfRunAll | src/input.cpp:165-166 | running an action's callbacks makes exactly its stored callbacks, in order, for that action and none for another |
| InputActions.CallsOfInvocations | src/input.cpp:155-168 | visiting each action at most once, the trace runs an action's stored callbacks, in order, iff it was visited and fires |
| InputActions.TraceRunsFiringActions | src/input.cpp:155-168 | the previous fact, for every registered action at once |
| InputActions.InvocationsNameRegisteredActions | src/input.cpp:155-168 | every callback run belongs to a registered action |
| InputActions.ProcessActions | src/input.cpp:115-177 | defined whenever no binding test it reaches reads out of bounds; for every visiting order, an action's stored callbacks all run, in order, iff it is active and its bindings' test holds in the state before the call, which with in-range codes means one binding has its reference meaning, and otherwise none runs; then the frame ends |
| InputActions.EdgesFireOncePerEvent | src/input.cpp:170-176 | without new events between two calls, no PRESS or RELEASE key or button binding, motion binding or scroll binding holds on the second call |
| InputActions.InactiveActionIsNeverRead | src/input.cpp:155-156 | a key binding with code 400, filed under an action that is then switched off, is never read: the frame is defined and runs nothing |
| InputActions.AddKeyCallback | src/input.cpp:65-67 | the key callback is appended; nothing else changes |
| InputActions.AddMouseButtonCallback | src/input.cpp:69-71 | the mouse-button callback is appended; nothing else changes |
| InputActions.Broadcast | src/input.cpp:38-39 | every direct callback runs once, in registration order, with the same code and event |
| InputActions.UpdateKeyState | src/input.cpp:35-40 | the key bank is updated, then every key callback runs once with the code and event |
| InputActions.UpdateMouseButtonState | src/input.cpp:42-47 | the button bank is updated, then every mouse-button callback runs once with the code and event |
| InputActions.LastAddedKeyCallbackRunsLast | src/input.cpp:38-39 | a callback added last runs after every earlier one on the next event |

## Left out

- Vulkan and GLFW calls are inputs, not models: instance creation, `init`, `createLogicalDevice`, `querySwapchainSupport`, the surface-support query, `glfwGetFramebufferSize`, and the image enumeration of `vkGetSwapchainImagesKHR`.
- `draw` has an empty body, so there is nothing to model.
- `checkDeviceExtensionSupport`, `checkQueuesAvailable`, `setQueueIndices` and `setQueues` have no bodies in the repository. Their answers are the `extensionsSupported` and `queuesAvailable` inputs of a device, and `graphicsFamilyPresents` for the queue lookup in `createSwapchain`.
- The debug messenger, the validation-layer lookup and `getRequiredExtensions` are logging and proc-address plumbing.
- `vkutil::loadShaderModule` does file I/O and a driver call. `vkutil::transitionImage` and `copyImageToImage` have no bodies. The window loop of `engine.cpp` is not modelled.
- `vkinit::cmd_pool_create_info`, `cmd_buffer_begin_info`, `cmd_buffer_submit_info`, `fence_create_info`, `semaphore_create_info` and `present_info` are left out. They only copy their arguments into fixed records, and no modelled operation depends on them.
- `DescriptorAllocator::clearDescriptors` and `destroyPool` are single driver calls with no logic of their own.
- Swapchain.ImageViewInfos: the per-view `VK_CHECK` on `vkCreateImageView` is not modelled. Only the create infos are.
- Descriptors.InitPool: the count `uint32_t(ratio * maxSets)` is a floating-point computation. It is a function parameter, not a model of float-to-integer conversion.
- Mouse position and scroll accumulation (`updateMousePos`, `updateMouseScroll`, `getMouseX/Y`, `getScrollX/Y`) are floating-point, and so are the epsilon tests in `processActions`. The state keeps them as two facts only: whether the cursor moved, and whether the scroll total points up, down or neither. For the same reason the mouse-move and scroll direct callbacks are not modelled.
- InputActions.ProcessActions: callbacks are identities, so a callback that re-enters the manager is not modelled, for example one that registers actions during the loop. The order in which actions are visited is a parameter, and no order across actions is claimed.
- Renderer.Cleanup: the per-frame command pools, semaphores and fences are never created or destroyed by the code, so the teardown trace does not mention them.
- The swapchain and its views are destroyed in the order the code uses: the swapchain first, then the views. This differs from the usual description of views going first.

## Findings

| source | as written | input that shows it | evidently intended | confidence | as-written member | corrected member |
|---|---|---|---|---|---|---|
| src/input.cpp:35-40 | `updateKeyState` indexes `keyState` and `prevKeyState` with the GLFW key code, unchecked | key code -1 (`GLFW_KEY_UNKNOWN`), which GLFW passes to the key callback for keys without a token. `InputState.UnknownKeyIndexesOutOfBounds` shows the update is then out of bounds | ignore codes outside 0..`MAX_KEYS`-1 in the state update and still run the direct callbacks | not executed; GLFW documents -1 for unknown keys | InputState.UpdateBankAsWritten | InputState.UpdateBank |
