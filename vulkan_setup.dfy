/**
 * Physical-device selection of the native Vulkan bootstrap: the queue-family
 * resolver, the device-extension check, the suitability test, the device
 * score and the choice of the best device.
 *
 * A physical device is modelled by what the Vulkan queries report about it
 * against the application's surface. The handle of a device is its position
 * in the order in which the driver enumerates the devices.
 */
module VulkanSetup {

  import opened Wrappers

  /** The largest C `uint32_t`; the queue-family resolver uses it as "not found". */
  const UINT32_MAX: int := 0xFFFF_FFFF

  /** The largest C `int`. */
  const INT32_MAX: int := 0x7FFF_FFFF

  type uint32 = x: int | 0 <= x <= UINT32_MAX

  /** One entry of `vkGetPhysicalDeviceQueueFamilyProperties`, reduced to what
      the resolver looks at: the graphics bit of `queueFlags`, and what
      `vkGetPhysicalDeviceSurfaceSupportKHR` answers for this family and the surface. */
  datatype QueueFamily = QueueFamily(graphics: bool, presentSupport: bool)

  /** The driver reports the number of queue families in a `uint32_t`. */
  type FamilyList = s: seq<QueueFamily> | |s| <= UINT32_MAX witness []

  /** `VkPhysicalDeviceType`. */
  datatype DeviceType = OtherType | IntegratedGpu | DiscreteGpu | VirtualGpu | CpuType

  /**
   * A physical device as the selection code sees it:
   * - its queue families, in the order the driver reports them;
   * - whether `vkEnumerateDeviceExtensionProperties` succeeded, and the names
   *   of the extensions it lists;
   * - how many surface formats and present modes it offers for the surface;
   * - `deviceType` and `limits.maxImageDimension2D` of its properties.
   */
  datatype Device = Device(
    queueFamilies: FamilyList,
    extensionEnumerationOk: bool,
    extensions: seq<string>,
    formatCount: nat,
    presentModeCount: nat,
    deviceType: DeviceType,
    maxImageDimension2D: uint32)

  // ---------------------------------------------------------------------------
  // Queue-family resolver

  datatype Capability = Graphics | Present

  predicate Supports(q: QueueFamily, c: Capability) {
    match c
    case Graphics => q.graphics
    case Present => q.presentSupport
  }

  /** The index of the first family in `qs` that has capability `c`, or
      UINT32_MAX when no family has it. */
  function FirstWith(qs: FamilyList, c: Capability): (r: uint32)
    ensures r == UINT32_MAX <==> forall i :: 0 <= i < |qs| ==> !Supports(qs[i], c)
    ensures r != UINT32_MAX ==>
      r < |qs| && Supports(qs[r], c) && forall i :: 0 <= i < r ==> !Supports(qs[i], c)
    decreases |qs|
  {
    if |qs| == 0 then UINT32_MAX
    else if Supports(qs[0], c) then 0
    else
      var r := FirstWith(qs[1..], c);
      if r == UINT32_MAX then UINT32_MAX else r + 1
  }

  /** `findQueueFamilies`: one pass over the families that records the first
      graphics family and the first family that can present, and stops as soon
      as both are known. The early stop gives the same answer as a full scan. */
  method FindQueueFamilies(d: Device) returns (graphicsIndex: uint32, presentIndex: uint32)
    ensures graphicsIndex == FirstWith(d.queueFamilies, Graphics)
    ensures presentIndex == FirstWith(d.queueFamilies, Present)
  {
    graphicsIndex, presentIndex := UINT32_MAX, UINT32_MAX;
    var families := d.queueFamilies;
    for i := 0 to |families|
      invariant graphicsIndex == UINT32_MAX <==> forall j :: 0 <= j < i ==> !Supports(families[j], Graphics)
      invariant graphicsIndex != UINT32_MAX ==>
        graphicsIndex < i && Supports(families[graphicsIndex], Graphics)
        && forall j :: 0 <= j < graphicsIndex ==> !Supports(families[j], Graphics)
      invariant presentIndex == UINT32_MAX <==> forall j :: 0 <= j < i ==> !Supports(families[j], Present)
      invariant presentIndex != UINT32_MAX ==>
        presentIndex < i && Supports(families[presentIndex], Present)
        && forall j :: 0 <= j < presentIndex ==> !Supports(families[j], Present)
    {
      if families[i].graphics {
        if graphicsIndex == UINT32_MAX {
          graphicsIndex := i;
        }
      }
      var presentSupport := families[i].presentSupport;
      if presentSupport {
        if presentIndex == UINT32_MAX {
          presentIndex := i;
        }
      }
      if graphicsIndex != UINT32_MAX && presentIndex != UINT32_MAX {
        break;
      }
    }
  }

  /** A device without queue families gets no assignment at all. */
  lemma NoFamiliesNoAssignment(d: Device)
    requires |d.queueFamilies| == 0
    ensures FirstWith(d.queueFamilies, Graphics) == UINT32_MAX
    ensures FirstWith(d.queueFamilies, Present) == UINT32_MAX
  {
  }

  /** When no single family can do both, the resolver still succeeds with two
      different families, as long as each capability exists somewhere. */
  lemma SplitFamiliesStillResolve(qs: FamilyList)
    requires exists i :: 0 <= i < |qs| && qs[i].graphics
    requires exists i :: 0 <= i < |qs| && qs[i].presentSupport
    requires forall i :: 0 <= i < |qs| ==> !(qs[i].graphics && qs[i].presentSupport)
    ensures FirstWith(qs, Graphics) < |qs| && FirstWith(qs, Present) < |qs|
    ensures FirstWith(qs, Graphics) != FirstWith(qs, Present)
  {
  }

  /** The resolver does not prefer a family that can do both: with families
      [graphics only, present only, both] it answers 0 and 1. */
  lemma CombinedFamilyNotPreferred()
    ensures
      var qs: FamilyList := [QueueFamily(true, false), QueueFamily(false, true), QueueFamily(true, true)];
      qs[2].graphics && qs[2].presentSupport
      && FirstWith(qs, Graphics) == 0 && FirstWith(qs, Present) == 1
  {
  }

  // ---------------------------------------------------------------------------
  // Device extensions

  /** `VK_KHR_SWAPCHAIN_EXTENSION_NAME`. */
  const SwapchainExtensionName: string := "VK_KHR_swapchain"

  /** `deviceExtensions`: the extensions a device must offer. */
  const DeviceExtensions: seq<string> := [SwapchainExtensionName]

  /** The device's extensions could be listed and every required name is among them. */
  predicate ExtensionsSupported(d: Device) {
    d.extensionEnumerationOk
    && forall required :: required in DeviceExtensions ==> required in d.extensions
  }

  /** `checkDeviceExtensionSupport`: false when enumeration fails; otherwise a
      linear search of the available names for each required name. */
  method CheckDeviceExtensionSupport(d: Device) returns (supported: bool)
    ensures supported == ExtensionsSupported(d)
  {
    if !d.extensionEnumerationOk {
      return false;
    }
    var available := d.extensions;
    for r := 0 to |DeviceExtensions|
      invariant forall k :: 0 <= k < r ==> DeviceExtensions[k] in available
    {
      var required := DeviceExtensions[r];
      var found := false;
      for j := 0 to |available|
        invariant !found
        invariant forall m :: 0 <= m < j ==> available[m] != required
      {
        if available[j] == required {
          found := true;
          break;
        }
      }
      if !found {
        assert required !in available && required in DeviceExtensions;
        return false;
      }
    }
    return true;
  }

  /** Only which names are listed matters, not their order or repetition. */
  lemma ExtensionOrderIrrelevant(d: Device, e: Device)
    requires d.extensionEnumerationOk == e.extensionEnumerationOk
    requires forall name :: name in d.extensions <==> name in e.extensions
    ensures ExtensionsSupported(d) == ExtensionsSupported(e)
  {
  }

  // ---------------------------------------------------------------------------
  // Suitability

  /** A device is suitable when both queue families are assigned, the required
      extensions are there, and it offers a surface format and a present mode. */
  predicate Suitable(d: Device) {
    FirstWith(d.queueFamilies, Graphics) != UINT32_MAX
    && FirstWith(d.queueFamilies, Present) != UINT32_MAX
    && ExtensionsSupported(d)
    && d.formatCount != 0 && d.presentModeCount != 0
  }

  /** `isDeviceSuitable`: the three checks in the order `isDeviceSuitable` makes them. */
  method IsDeviceSuitable(d: Device) returns (suitable: bool)
    ensures suitable == Suitable(d)
  {
    var graphicsIndex, presentIndex := FindQueueFamilies(d);
    if graphicsIndex == UINT32_MAX || presentIndex == UINT32_MAX {
      return false;
    }
    var extensionsOk := CheckDeviceExtensionSupport(d);
    if !extensionsOk {
      return false;
    }
    if d.formatCount == 0 || d.presentModeCount == 0 {
      return false;
    }
    return true;
  }

  /** Suitability in terms of the device itself: some family draws, some family
      presents, the swapchain extension is listed, and formats and present
      modes are offered. */
  lemma SuitableMeans(d: Device)
    ensures Suitable(d) <==>
      (exists i :: 0 <= i < |d.queueFamilies| && Supports(d.queueFamilies[i], Graphics))
      && (exists i :: 0 <= i < |d.queueFamilies| && Supports(d.queueFamilies[i], Present))
      && d.extensionEnumerationOk && SwapchainExtensionName in d.extensions
      && d.formatCount > 0 && d.presentModeCount > 0
  {
  }

  // ---------------------------------------------------------------------------
  // Score

  /** The largest score any device can get. */
  const MaxScore: int := 1000 + UINT32_MAX / 1024

  /** `rateDevice`: 1000 for a discrete GPU, plus one point per 1024 pixels of
      `maxImageDimension2D`. */
  function RateDevice(d: Device): (score: int)
    ensures 0 <= score <= MaxScore < INT32_MAX
  {
    (if d.deviceType == DiscreteGpu then 1000 else 0) + d.maxImageDimension2D / 1024
  }

  /** A discrete GPU outranks any other device whose maximum 2D image dimension
      is below 1024 * 1000. */
  lemma DiscreteOutranks(a: Device, b: Device)
    requires a.deviceType == DiscreteGpu && b.deviceType != DiscreteGpu
    requires b.maxImageDimension2D < 1024 * 1000
    ensures RateDevice(a) > RateDevice(b)
  {
  }

  /** Between devices of the same kind (discrete or not), a larger maximum 2D
      image dimension never lowers the score. */
  lemma RateMonotone(a: Device, b: Device)
    requires (a.deviceType == DiscreteGpu) == (b.deviceType == DiscreteGpu)
    requires a.maxImageDimension2D <= b.maxImageDimension2D
    ensures RateDevice(a) <= RateDevice(b)
  {
  }

  // ---------------------------------------------------------------------------
  // Selection

  /** The best score recorded for a choice: the chosen candidate's score, or
      -1 when nothing is chosen yet. */
  function ScoreOf<T>(xs: seq<T>, score: T -> int, choice: Option<nat>): int
    requires choice.Some? ==> choice.value < |xs|
  {
    match choice
    case None => -1
    case Some(k) => score(xs[k])
  }

  /** The index the selection loop holds after visiting the first `n`
      candidates: an eligible candidate replaces the current choice only when
      its score is strictly higher than the best score so far, which starts at -1. */
  function Select<T>(xs: seq<T>, eligible: T -> bool, score: T -> int, n: nat): (choice: Option<nat>)
    requires n <= |xs|
    ensures choice.Some? ==> choice.value < n && eligible(xs[choice.value])
    decreases n
  {
    if n == 0 then None
    else
      var previous := Select(xs, eligible, score, n - 1);
      var candidate := xs[n - 1];
      if eligible(candidate) && score(candidate) > ScoreOf(xs, score, previous)
      then Some(n - 1)
      else previous
  }

  /** With scores that are never negative, the selection is a stable argmax:
      nothing is chosen exactly when no candidate is eligible; otherwise no
      eligible candidate scores higher than the choice, and every eligible
      candidate before it scores strictly lower. */
  lemma {:induction false} SelectIsStableArgmax<T>(xs: seq<T>, eligible: T -> bool, score: T -> int, n: nat)
    requires n <= |xs|
    requires forall x :: score(x) >= 0
    ensures Select(xs, eligible, score, n).None? <==> forall j :: 0 <= j < n ==> !eligible(xs[j])
    ensures Select(xs, eligible, score, n).Some? ==>
      var k := Select(xs, eligible, score, n).value;
      (forall j :: 0 <= j < n && eligible(xs[j]) ==> score(xs[j]) <= score(xs[k]))
      && (forall j :: 0 <= j < k && eligible(xs[j]) ==> score(xs[j]) < score(xs[k]))
  {
    if n > 0 {
      SelectIsStableArgmax(xs, eligible, score, n - 1);
    }
  }

  /** `pickPhysicalDevice`'s choice among the first `n` enumerated devices. */
  function SelectAmong(devices: seq<Device>, n: nat): (choice: Option<nat>)
    requires n <= |devices|
    ensures choice.Some? ==> choice.value < n && Suitable(devices[choice.value])
  {
    Select(devices, Suitable, RateDevice, n)
  }

  /** The chosen device is the earliest of the suitable devices with the
      highest score, and there is one exactly when some device is suitable. */
  lemma SelectAmongIsStableArgmax(devices: seq<Device>, n: nat)
    requires n <= |devices|
    ensures SelectAmong(devices, n).None? <==> forall j :: 0 <= j < n ==> !Suitable(devices[j])
    ensures SelectAmong(devices, n).Some? ==>
      var k := SelectAmong(devices, n).value;
      (forall j :: 0 <= j < n && Suitable(devices[j]) ==> RateDevice(devices[j]) <= RateDevice(devices[k]))
      && (forall j :: 0 <= j < k && Suitable(devices[j]) ==> RateDevice(devices[j]) < RateDevice(devices[k]))
  {
    SelectIsStableArgmax(devices, Suitable, RateDevice, n);
  }

  /** With two suitable devices, the first one wins unless the second scores
      strictly higher, whatever the scores are. */
  lemma TwoSuitableDevices(a: Device, b: Device)
    requires Suitable(a) && Suitable(b)
    ensures SelectAmong([a, b], 2) == if RateDevice(b) > RateDevice(a) then Some(1) else Some(0)
  {
  }

  /** The process-wide state that `pickPhysicalDevice` writes: the chosen
      device (None for VK_NULL_HANDLE) and its two queue-family indices. */
  class VulkanContext {
    var physicalDevice: Option<nat>
    var graphicsQueueFamily: uint32
    var presentQueueFamily: uint32

    /** Globals of static storage start out null and zero. */
    constructor ()
      ensures physicalDevice == None && graphicsQueueFamily == 0 && presentQueueFamily == 0
    {
      physicalDevice := None;
      graphicsQueueFamily := 0;
      presentQueueFamily := 0;
    }

    /** `pickPhysicalDevice` over the devices in enumeration order. With no
        suitable device nothing changes; otherwise the state holds the earliest
        best-scoring suitable device and its resolved queue families. */
    method PickPhysicalDevice(devices: seq<Device>)
      modifies this
      ensures SelectAmong(devices, |devices|).None? ==>
        physicalDevice == old(physicalDevice)
        && graphicsQueueFamily == old(graphicsQueueFamily)
        && presentQueueFamily == old(presentQueueFamily)
      ensures SelectAmong(devices, |devices|).Some? ==>
        var k := SelectAmong(devices, |devices|).value;
        physicalDevice == Some(k)
        && graphicsQueueFamily == FirstWith(devices[k].queueFamilies, Graphics)
        && presentQueueFamily == FirstWith(devices[k].queueFamilies, Present)
        && graphicsQueueFamily < |devices[k].queueFamilies|
        && presentQueueFamily < |devices[k].queueFamilies|
    {
      if |devices| == 0 {
        return;
      }
      var bestScore := -1;
      for i := 0 to |devices|
        invariant bestScore == ScoreOf(devices, RateDevice, SelectAmong(devices, i))
        invariant SelectAmong(devices, i).None? ==>
          physicalDevice == old(physicalDevice)
          && graphicsQueueFamily == old(graphicsQueueFamily)
          && presentQueueFamily == old(presentQueueFamily)
        invariant SelectAmong(devices, i).Some? ==>
          var k := SelectAmong(devices, i).value;
          physicalDevice == Some(k)
          && graphicsQueueFamily == FirstWith(devices[k].queueFamilies, Graphics)
          && presentQueueFamily == FirstWith(devices[k].queueFamilies, Present)
      {
        var dev := devices[i];
        var suitable := IsDeviceSuitable(dev);
        if !suitable {
          continue;
        }
        var score := RateDevice(dev);
        if score > bestScore {
          bestScore := score;
          physicalDevice := Some(i);
          graphicsQueueFamily, presentQueueFamily := FindQueueFamilies(dev);
        }
      }
      SelectAmongIsStableArgmax(devices, |devices|);
    }
  }
}
