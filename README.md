# Device selection and software fill of a native Android Vulkan bootstrap

This project models, in Dafny, the two pieces of the native Android activity
that make decisions rather than pass calls through to a platform API.

**Physical-device selection** (`app/src/main/cpp/vulkan/VulkanSetup.cpp`, module
`VulkanSetup` in `vulkan_setup.dfy`). A physical device is a record of what the
Vulkan queries report about it against the application's surface:
- its queue families, each with a graphics flag and a present-support flag;
- whether extension enumeration succeeded, and the extension names;
- how many surface formats and present modes it offers;
- its device type;
- `maxImageDimension2D`, a 32-bit unsigned value.

On top of that record sit five parts:
- the queue-family resolver: a first-found search with the `UINT32_MAX` sentinel and an early stop;
- the device-extension check: the required swapchain extension must be among the listed names;
- the suitability test;
- the integer score;
- the choice of the best device.

The globals `physicalDevice`, `graphicsQueueFamily` and `presentQueueFamily` are the
fields of the class `VulkanContext`, which `PickPhysicalDevice` updates. A device
handle is the device's position in enumeration order. `None` stands for `VK_NULL_HANDLE`.

Each loop of the C++ code is a method proved against a specification function:
- `FindQueueFamilies` against `FirstWith`;
- `CheckDeviceExtensionSupport` against `ExtensionsSupported`;
- `PickPhysicalDevice` against `SelectAmong`, an instance of the generic selection fold `Select`.

Lemmas then state what those functions mean: the smallest index or the sentinel,
the subset test, and a stable argmax over suitable devices.

**Software fill** (`app/src/main/cpp/main.cpp`, module `WindowFill` in
`window_fill.dfy`). `FillWindow` paints the visible rectangle of a locked,
strided 32-bit pixel buffer red, in place. It returns early for a null window
or a failed lock. Width and height are cut to 16 bits. The result is tied to the
function `Filled` of the old buffer, and lemmas say which pixels are painted and
which keep their contents.

## Model

| member | source | states |
|---|---|---|
| `VulkanSetup.FirstWith` | app/src/main/cpp/vulkan/VulkanSetup.cpp:66-79 | the result is the sentinel `UINT32_MAX` exactly when no family has the capability; otherwise it is a valid index (below the family count) of a family that has it, and no earlier family has it |
| `VulkanSetup.FindQueueFamilies` | app/src/main/cpp/vulkan/VulkanSetup.cpp:57-86 | the loop that stops as soon as both indices are found returns exactly the first graphics family and the first present-capable family of a full scan, or the sentinel for each one that is missing |
| `VulkanSetup.NoFamiliesNoAssignment` | app/src/main/cpp/vulkan/VulkanSetup.cpp:58-66 | with zero queue families both indices stay at `UINT32_MAX` |
| `VulkanSetup.SplitFamiliesStillResolve` | app/src/main/cpp/vulkan/VulkanSetup.cpp:66-84 | if no family has both capabilities but each exists somewhere, both indices are valid and they differ |
| `VulkanSetup.CombinedFamilyNotPreferred` | app/src/main/cpp/vulkan/VulkanSetup.cpp:81-84 | with families [graphics only, present only, both] the result is (0, 1): a family that can do both is not preferred |
| `VulkanSetup.CheckDeviceExtensionSupport` | app/src/main/cpp/vulkan/VulkanSetup.cpp:88-113 | the nested search returns false when enumeration fails, and otherwise true exactly when every required name (`VK_KHR_swapchain`) equals some listed name |
| `VulkanSetup.ExtensionOrderIrrelevant` | app/src/main/cpp/vulkan/VulkanSetup.cpp:99-111 | two devices listing the same names, in any order and with any repetition, pass or fail the extension check alike |
| `VulkanSetup.IsDeviceSuitable` | app/src/main/cpp/vulkan/VulkanSetup.cpp:135-172 | the early-return sequence of checks yields exactly the suitability predicate: both queue indices assigned, extensions supported, formats and present modes non-empty |
| `VulkanSetup.SuitableMeans` | app/src/main/cpp/vulkan/VulkanSetup.cpp:147-171 | a device is suitable if and only if some family draws, some family presents, enumeration succeeded and lists the swapchain extension, and it offers at least one format and one present mode |
| `VulkanSetup.RateDevice` | app/src/main/cpp/vulkan/VulkanSetup.cpp:220-233 | every score is at least 0, so above the initial best score -1, and at most 1000 + 4194303, so the C `int` never overflows |
| `VulkanSetup.DiscreteOutranks` | app/src/main/cpp/vulkan/VulkanSetup.cpp:224-230 | a discrete GPU scores strictly more than any other device whose maximum 2D image dimension is below 1024 * 1000 |
| `VulkanSetup.RateMonotone` | app/src/main/cpp/vulkan/VulkanSetup.cpp:229-230 | for devices of the same kind, a larger maximum 2D image dimension never gives a lower score |
| `VulkanSetup.Select` | app/src/main/cpp/vulkan/VulkanSetup.cpp:247-268 | the selection loop as a fold (best score starting at -1, replacement only on a strictly higher score): what it holds after `n` candidates, when anything, is an eligible candidate among those `n` |
| `VulkanSetup.SelectIsStableArgmax` | app/src/main/cpp/vulkan/VulkanSetup.cpp:247-268 | for scores that are never negative, nothing is chosen exactly when no candidate is eligible; otherwise no eligible candidate scores higher than the choice and every eligible one before it scores strictly lower |
| `VulkanSetup.SelectAmong` | app/src/main/cpp/vulkan/VulkanSetup.cpp:247-268 | the device held after the first `n` enumerated devices, when there is one, is one of those `n` and is suitable |
| `VulkanSetup.SelectAmongIsStableArgmax` | app/src/main/cpp/vulkan/VulkanSetup.cpp:247-268 | nothing is chosen exactly when no device is suitable; otherwise the chosen device is suitable, no suitable device scores higher, and every suitable device enumerated before it scores strictly lower, so ties go to the earliest |
| `VulkanSetup.TwoSuitableDevices` | app/src/main/cpp/vulkan/VulkanSetup.cpp:256-258 | of two suitable devices the second is chosen only when it scores strictly higher: a pair scoring 1005 and 1003 yields the 1005 one in either order, and an equal pair yields the first |
| `VulkanSetup.VulkanContext.constructor` | app/src/main/cpp/vulkan/VulkanSetup.cpp:20-24 | the globals start as a null device and zero family indices |
| `VulkanSetup.VulkanContext.PickPhysicalDevice` | app/src/main/cpp/vulkan/VulkanSetup.cpp:235-277 | with no devices or no suitable device the three globals are unchanged; otherwise `physicalDevice` is the selected device, and the two family globals hold what the resolver gives for it, both valid indices and so never the sentinel |
| `WindowFill.ToUint16` | app/src/main/cpp/main.cpp:9-10 | the truncated value is below 65536, congruent to the input modulo 65536, and equal to the input when the input already fits |
| `WindowFill.FillWindow` | app/src/main/cpp/main.cpp:6-28 | a null window or a failed lock writes no pixel and posts nothing; otherwise the buffer is posted and becomes `Filled` of the old buffer for the 16-bit width and height |
| `WindowFill.PaintSpanStep` | app/src/main/cpp/main.cpp:22-24 | writing the pixel just after a painted span of a row extends the span by one |
| `WindowFill.FilledNextRow` | app/src/main/cpp/main.cpp:20-24 | painting `h + 1` rows equals painting `h` rows and then the first `w` pixels from offset `h * stride`, the pixel offset of byte `h * stride * 4` |
| `WindowFill.FilledPaintsRect` | app/src/main/cpp/main.cpp:20-25 | every pixel `y * stride + x` with `y` below the height and `x` below the width lies in the buffer and is red (`0xFF0000FF`) |
| `WindowFill.FilledKeepsPadding` | app/src/main/cpp/main.cpp:20-25 | pixels in the row padding (`width <= x < stride`) keep their contents |
| `WindowFill.FilledKeepsLaterRows` | app/src/main/cpp/main.cpp:20-25 | pixels from offset `height * stride` on keep their contents |

## Left out

- `createInstance` and `createSurface` (VulkanSetup.cpp:174-218) are not modelled. They are direct Vulkan creation calls that throw on failure and have no logic of their own.
- The empty functions `createLogicalDevice` through `createSyncObjects` (VulkanSetup.cpp:38-54) have no behaviour to model. This includes swapchain creation: the code negotiates no format, present mode, extent, image count or sharing mode.
- `querySwapChainCapabilities` and `querySwapChainFormats` are thin query wrappers. Their results are fields of the device record: the format count. The capabilities and the features that `isDeviceSuitable` fetches are never used, so they are not modelled.
- `querySwapChainPresentModes` (VulkanSetup.cpp:133) has an empty body, which is undefined behaviour for a function that returns a vector. The model takes the present-mode count as a field of the device record instead.
- The second `vkEnumerateDeviceExtensionProperties` call's status is not checked by `checkDeviceExtensionSupport`. The model takes the listed names as given.
- Vulkan handles, the surface handle, the unused global vectors of semaphores, fences, images and framebuffers, and logging (`LOG`/`LOGE`) are left out. The surface shows only through each family's present-support flag and through the format and present-mode counts.
- The calls that enumerate devices and query their properties are inputs: the device records, in enumeration order.
- `app/src/main/cpp/vulkan_ui.cpp` only sequences the calls and hooks the lifecycle callback. `app/src/main/cpp/vulkan/VulkanSetup.h` holds declarations and macros only. Neither is part of this model.
- The `ANativeWindow` calls in `fill_window` are inputs. `getWidth`/`getHeight` become the window's width and height. `lock` becomes its status and the buffer with its stride. `unlockAndPost` becomes the returned `posted` flag. `setBuffersGeometry` is not modelled: the buffer is assumed to already have the window's 16-bit size, stride at least that width and at least `height * stride` pixels.
- FillWindow: `fill_window` does not check that the 16-bit width fits within the locked buffer's stride, or that the buffer holds `height * stride` pixels; it writes `winW` pixels per row whatever the stride is (main.cpp:20-24). Read from the code, this is a hazard: a width above the stride writes past the row and, on the last row, past the buffer. A negative error return from `ANativeWindow_getWidth` becomes 65536 minus its magnitude and would do this. The model assumes both conditions as the precondition of `FillWindow` instead of modelling the out-of-bounds write.
- FillWindow: the C `int` arithmetic of the byte offset `y * stride * 4` is taken as exact. It overflows only for buffers of 2 GiB or more.
