# shadPS4 view descriptors, quad expansion and controller state ring in Dafny

This project models three parts of the shadPS4 emulator:

- **Texture-cache image views** (`ImageView`, `image_view.dfy`). This covers
  how a guest image binding, a colour render target or a depth render target
  becomes the canonical view descriptor (`ImageViewInfo`). It includes the
  hardware-to-Vulkan view-type mapping and the fix-ups the builders apply:
  - sRGB becomes Unorm on storage bindings;
  - depth bindings are promoted to a depth format;
  - multisampled images get one mip level;
  - a non-array cube keeps at most six layers;
  - a 3D image keeps one layer;
  - storage bindings keep the default swizzle.

  It also covers the create-info the `ImageView` constructor derives from
  the descriptor: the storage usage bit is dropped, and the depth-as-colour
  and then stencil-as-colour format and aspect are substituted.
- **Liverpool-to-Vulkan helpers** (`LiverpoolToVk`, `liverpool_to_vk.dfy`).
  - `PromoteFormatToDepth` is modelled as a function.
  - The two quad-list expansion loops are modelled as methods that write
    six indices per quad into an output array. Both are proved against
    reference functions over sequences (`QuadListIndices`, `RemapQuadList`).
- **Game-controller state ring** (`Controller`, `controller.dfy`). This is a
  class with a fixed-capacity ring of input snapshots, held in the `states`
  and `obtained` arrays, plus the first-slot, count and last-state fields.
  - The ring's abstract value is `Entries()`, the entries oldest first.
  - Appending is `Push` on that sequence; it drops the oldest entry when
    the ring is full.
  - Reading delivers `Unread` entries and leaves `MarkRead` of the ring.
  - Every editing method (buttons, axes, sensors, touchpad, poll) is proved
    to append exactly one snapshot, or none, to `Entries()`.

`Types` holds the emulator's unsigned integer widths and their wrap-around.
`Vk` and `AmdGpu` hold the enumerations and register records the three
parts read.

## Model

| member | source | states |
|---|---|---|
| ImageView.ConvertImageViewType | src/video_core/texture_cache/image_view.cpp:14-31 | Defined only for tags other than Invalid and Color2DMsaaArray (the unreachable default). It keeps the dimensionality (1D, 2D, 3D), array-ness and cube-ness of the image type, and never yields a cube array. |
| ImageView.ConvertImageViewTypeMerges | src/video_core/texture_cache/image_view.cpp:20-22 | Two distinct mapped tags share a view type exactly when they are Color2D and Color2DMsaa. Only multisampling is lost. |
| ImageView.BindingNumberFormat | src/video_core/texture_cache/image_view.cpp:37-40 | A storage binding never resolves with Srgb. The number format changes only from Srgb to Unorm. A non-storage binding keeps it unchanged. |
| ImageView.FromImage | src/video_core/texture_cache/image_view.cpp:34-73 | The storage flag is the binding's. The format is the surface format of the adjusted number format, depth-promoted for depth bindings. Base level and layer are copied. Levels are 1 when the image type (`GetType`) is Color2DMsaa or Color2DMsaaArray, otherwise last-base+1 in u32. A cube bound as an array becomes a cube array; a plain cube keeps min(layers, 6); a 3D view keeps min(layers, 1); every other view keeps last-base+1 layers. The swizzle is translated for non-storage bindings; storage bindings keep the default. |
| ImageView.FromImageWithinImage | src/video_core/texture_cache/image_view.cpp:45-68 | For a descriptor whose base level and layer do not exceed its last ones, the sampled view addresses at least one level and one layer, and none beyond the last ones. |
| ImageView.MsaaExample | src/video_core/texture_cache/image_view.cpp:47-49 | A Color2DMsaa image with levels 2..5 is viewed with one level. |
| ImageView.LayerFixupExamples | src/video_core/texture_cache/image_view.cpp:57-68 | A 12-layer descriptor keeps 6 layers as a non-array cube and 1 layer as a 3D image. |
| ImageView.FromColorBuffer | src/video_core/texture_cache/image_view.cpp:75-83 | The format is the swap-adjusted surface format. The base layer is the first slice and the layers are slices-minus-first in u32. The view is 2D-array exactly when more than one layer is addressed, otherwise 2D. Levels, swizzle and storage flag keep their defaults. |
| ImageView.FromDepthBuffer | src/video_core/texture_cache/image_view.cpp:85-94 | The format is the depth format of the Z and stencil formats. The storage flag equals depth-write-enable. Base layer, layer count and view type follow the colour-target rule. Levels and swizzle keep their defaults. |
| ImageView.RenderTargetSlices | src/video_core/texture_cache/image_view.cpp:78-80 | For either target whose first slice is inside it, base layer plus layer count is the slice count. The view is a 2D array iff more than one slice remains, and 2D iff exactly one does. |
| ImageView.ViewUsage | src/video_core/texture_cache/image_view.cpp:99-102 | Every usage bit except storage is kept. The storage bit survives iff the view is storage and the image had it. |
| ImageView.ViewFormatAndAspect | src/video_core/texture_cache/image_view.cpp:103-116 | The aspect never exceeds the image's aspects. A depth image read as R32Sfloat/D32Sfloat/R16Unorm/D16Unorm gets its pixel format and the depth aspect. Then a stencil image whose format so far is R8Uint/R8Unorm gets its pixel format and the stencil aspect. Otherwise format and aspect are unchanged. |
| ImageView.CreateInfo | src/video_core/texture_cache/image_view.cpp:118-131 | The create-info carries the corrected usage, the descriptor's view type and swizzle, and the device-supported version of the corrected format. It also carries the corrected aspect and the descriptor's subresource range unchanged. |
| ImageView.PromotionInvisibleToDepthView | src/video_core/texture_cache/image_view.cpp:42-44 | For R32Sfloat and R16Unorm bound to a depth image, the depth-promoted format yields the same view format and aspect as the unpromoted one. |
| LiverpoolToVk.PromoteFormatToDepth | src/video_core/renderer_vulkan/liverpool_to_vk.h:105-116 | Defined for exactly the four listed formats. It always changes the format and keeps the texel size. The result is a depth format iff the input is R32Sfloat or R16Unorm; otherwise it is R32Uint. |
| LiverpoolToVk.QuadListIndicesAt | src/video_core/renderer_vulkan/liverpool_to_vk.h:79-86 | Index 6q+k of the generated list is 4q + [0,1,2,0,2,3][k]. |
| LiverpoolToVk.QuadListIndicesInRange | src/video_core/renderer_vulkan/liverpool_to_vk.h:80-85 | Every generated index lies in its own quad's range [4q, 4q+3], hence below the vertex count. |
| LiverpoolToVk.EightVerticesExample | src/video_core/renderer_vulkan/liverpool_to_vk.h:79-86 | Eight vertices give [0,1,2,0,2,3,4,5,6,4,6,7]. |
| LiverpoolToVk.EmitQuadToTriangleListIndices | src/video_core/renderer_vulkan/liverpool_to_vk.h:77-87 | For a vertex count that is a multiple of 4 and below 65536, the first 6·(n/4) output entries become QuadListIndices(n/4). Every later entry is unchanged. |
| LiverpoolToVk.ConvertQuadToTriangleListIndices | src/video_core/renderer_vulkan/liverpool_to_vk.h:89-101 | Under the same bounds, the first 6·(n/4) output entries become RemapQuadList of the first n source entries. Every later entry is unchanged. |
| LiverpoolToVk.RemapQuadListAt | src/video_core/renderer_vulkan/liverpool_to_vk.h:93-100 | Entry 6q+k of the re-indexed list is source entry 4q + [0,1,2,0,2,3][k]. |
| LiverpoolToVk.RemapQuadListReadsPrefix | src/video_core/renderer_vulkan/liverpool_to_vk.h:93-100 | The re-indexed list depends only on the first 4·quads source entries. |
| LiverpoolToVk.RemapIdentityIsQuadList | src/video_core/renderer_vulkan/liverpool_to_vk.h:80-85 | Re-indexing through an identity source buffer gives exactly the generated list. |
| Controller.SetAxis | src/input/controller.cpp:99-100 | The chosen axis takes the value and every other axis is unchanged. |
| Controller.ApplyButton | src/input/controller.cpp:83-87 | The result is the old buttons with the button bits cleared, then set again when pressed. |
| Controller.ApplyButtonKeepsOthers | src/input/controller.cpp:83-87 | Bits outside the button mask are unchanged. |
| Controller.ApplyButtonSets | src/input/controller.cpp:83-87 | The button bits are all set when pressed and all clear when released. |
| Controller.WithAxis | src/input/controller.cpp:99-116 | The axes are SetAxis of the value. For TriggerLeft/TriggerRight the L2/R2 bit is set iff the value is positive and other bits are kept. Other axes leave the buttons unchanged. Nothing else in the snapshot changes. |
| Controller.WithTouch | src/input/controller.cpp:233-235 | Only the chosen touchpad contact (0 or 1) is replaced. |
| Controller.Push | src/input/controller.cpp:65-76 | Appending to a full ring keeps its length and drops exactly the oldest entry; otherwise the length grows by one. The new entry is last and not obtained, and the surviving entries keep their order and flags. |
| Controller.ReadConsumes | src/input/controller.cpp:40-50 | The unread snapshots before a read are the ones the read delivers (the oldest, as many as fit) followed by the ones still unread after it. |
| Controller.MarkReadAt | src/input/controller.cpp:45-46 | After a read an entry keeps its snapshot. It is obtained if it was, or if fewer unread entries than the buffer holds precede it. |
| Controller.UnreadPrefix | src/input/controller.cpp:40-50 | The unread snapshots of a prefix of the ring are a prefix of the ring's unread snapshots. |
| Controller.SlotIsRemainder | src/input/controller.cpp:44 | The slot of the i-th oldest entry is (first + i) % MAX_STATES. |
| Controller.SlotDistinct | src/input/controller.cpp:44 | Different positions of the ring occupy different slots. |
| Controller.PollSlotIsNewest | src/input/controller.cpp:277 | Poll's u32 index (first - 1 + num) % MAX_STATES is the newest entry's slot for every non-empty ring, including first = 0 where first - 1 wraps. |
| Controller.ElapsedMs | src/input/controller.cpp:272 | Whole milliseconds between two u64 microsecond times, with the wrap-around of the unsigned subtraction when the later time is smaller. |
| Controller.ViewAfterAdd | src/input/controller.cpp:65-76 | Writing a snapshot and a cleared flag into the slot after the newest entry turns the slots' view into Push of the old view. Before the write, a full ring's first slot advances by one and its count drops by one. |
| Controller.ReadLoopDone | src/input/controller.cpp:40-50 | When the read loop stops (ring exhausted or buffer full), it has delivered the oldest unread snapshots, as many as fit. The rest of the buffer is untouched and the flags are MarkRead of the ring. |
| Controller.TakeSlot | src/input/controller.cpp:45-49 | One loop step takes the slot's snapshot into the next buffer position and marks it obtained exactly when it was not obtained. It keeps the loop invariant. |
| Controller.ReadLoop | src/input/controller.cpp:40-50 | The loop returns Taken(buffer room, number of unread entries). The buffer starts with that many oldest unread snapshots, and its tail is untouched. The flags become MarkRead of the ring. The unread snapshots split into the delivered ones and those still unread. |
| Controller.GameController.constructor | src/input/controller.cpp:13-16 | The ring starts empty with the default snapshot as the last state. |
| Controller.GameController.GetLastState | src/input/controller.cpp:57-63 | The result is the last snapshot added. With a non-empty ring it is also the newest entry. |
| Controller.GameController.AddState | src/input/controller.cpp:65-76 | The ring stays valid (count ≤ MAX_STATES, first slot < MAX_STATES). Entries become Push of the old entries. A full ring's first slot advances by one mod MAX_STATES and its count stays MAX_STATES; otherwise the count grows by one. The last state and GetLastState are the new snapshot. Only the written slot's snapshot and flag change, and the flag becomes not obtained. |
| Controller.GameController.ReadState | src/input/controller.cpp:18-24 | Returns the last state, the connection flag and the connection count. |
| Controller.GameController.ReadRing | src/input/controller.cpp:40-50 | On a non-empty ring: returns Taken(buffer room, unread count), which never exceeds the count. The buffer starts with the oldest unread snapshots in ring order and the rest is untouched. Entries become MarkRead of the old entries, so only delivered entries become obtained. First slot and count are outside the method's frame. |
| Controller.GameController.ReadStates | src/input/controller.cpp:26-55 | Disconnected: returns 0 and changes neither buffer nor flags. Connected with an empty ring: returns 1 with the last state in buffer[0] and nothing else changed. Connected with a non-empty ring: as ReadRing. |
| Controller.GameController.Poll | src/input/controller.cpp:267-285 | Always returns 100. It appends the last state exactly when connected, at least 100 ms (u64 arithmetic) have passed since it, and the ring is empty or its newest entry has been obtained. Otherwise entries, first slot and count are unchanged. |
| Controller.GameController.CheckButton | src/input/controller.cpp:78-90 | Appends exactly one snapshot: the last state with the new time and ApplyButton on its buttons. |
| Controller.GameController.SetAxisValue | src/input/controller.cpp:92-119 | Appends exactly one snapshot: WithAxis of the last state with the new time. |
| Controller.GameController.Gyro | src/input/controller.cpp:121-132 | Appends exactly one snapshot: the last state with the new time and angular velocity. |
| Controller.GameController.Acceleration | src/input/controller.cpp:133-144 | Appends exactly one snapshot: the last state with the new time and acceleration. |
| Controller.GameController.SetTouchpadState | src/input/controller.cpp:227-239 | For contact index 0 or 1, appends exactly one snapshot with that contact replaced and the new time. For a larger index, changes nothing. |

## Left out

- `GameController::CalculateOrientation`: a floating-point orientation filter that keeps process-global state. It has no model here.
- `TryOpenSDLController`, `SetLightBarRGB` and `SetVibration`: they only call into the SDL gamepad library.
- The controller's mutex: each method is modelled as one atomic step.
- `sceKernelGetProcessTime`: the current time is a parameter (`now`) of each method that reads it.
- The `id` parameter of the controller's editing methods is unused by the source and is dropped.
- Controller.GameController.SetAxisValue: it models `Axis`, renamed because `Axis` is the axis datatype.
- Controller.GameController.SetTouchpadState: the float-to-u16 conversion of the coordinates (x·1920, y·941) is not modelled; the method takes the converted values. A negative contact index, which the source would use to index out of bounds, is excluded by a precondition.
- Controller.GameController.Gyro: sensor readings are kept as 32-bit float patterns and only copied. No float arithmetic is modelled. The same holds for `Acceleration`.
- Header values: `MAX_STATES` is taken as 64, because its header is not modelled; the proofs use only `2 <= MAX_STATES`. The default `State` and the initial first slot are constructor parameters. The default `ImageViewInfo` fields arrive as an `init` record.
- `SurfaceFormat`, `DepthFormat`, `AdjustColorBufferFormat` and `ComponentMapping` are declared but not defined in the modelled files, and `Instance::GetSupportedFormat` is not part of this model. All five are total function-valued parameters, and nothing is assumed about their tables. Because they are total, a format-table miss (a fatal error in the emulator) cannot be represented.
- `createImageViewUnique` and its `ASSERT_MSG`: only the create-info handed to the device is modelled, not the view handle or the device call.
- LiverpoolToVk.EmitQuadToTriangleListIndices: the byte pointers reinterpreted as index pointers are modelled as typed arrays. The vertex count is required to be a multiple of 4 and below 65536, because the u16 loop counter would otherwise wrap and never end the loop. The same holds for `ConvertQuadToTriangleListIndices`.
- LiverpoolToVk.ConvertQuadToTriangleListIndices: the output and source buffers are required to be distinct arrays, so writes through an aliasing pointer are not modelled.
- Controller.GameController.ReadStates: with an empty ring the source writes `states[0]` whatever the caller's count says. The model requires that the buffer has at least one element there, and requires the caller's count not to exceed the buffer length.
- Controller.ReadLoop: the single loop of `ReadStates` is split into `ReadStates`, `ReadRing`, `ReadLoop` and `TakeSlot`, one loop step per `TakeSlot` call. The loop is written over the arrays outside the class.
- ImageView.FromImageWithinImage: it requires the last level and layer to be below 2^32-1, so that last+1 does not wrap in u32. Hardware level and layer fields are far narrower than that.
- `src/common/config.h`: it only declares global settings accessors and holds no logic to model.
