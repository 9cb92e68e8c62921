/** `PhysicalDevice` of the Vulkan platform layer: the choice of the GPU the
    engine renders with, and of a memory type for its buffers. A device is
    represented by what the Vulkan queries report about it. */
module PhysicalDevice {
  import opened Wrappers
  import opened QueueFamilies
  import opened SwapChain
  import opened Instance

  const VK_PHYSICAL_DEVICE_TYPE_DISCRETE_GPU: nat := 2
  const VK_KHR_SWAPCHAIN_EXTENSION_NAME: string := "VK_KHR_swapchain"

  /** The device extensions every candidate must offer. */
  const RequiredDeviceExtensions: seq<string> := [VK_KHR_SWAPCHAIN_EXTENSION_NAME]

  /** What `vkGetPhysicalDeviceProperties`, `vkGetPhysicalDeviceFeatures`,
      the queue-family query, `vkEnumerateDeviceExtensionProperties` and
      `QuerySwapChainSupport` report about one device. */
  datatype Device = Device(
    deviceType: nat, geometryShader: bool, queueFamilies: seq<QueueFamily>,
    extensions: seq<string>, support: SupportDetails)

  /** The names listed in a sequence. */
  function Names(names: seq<string>): (r: set<string>)
    ensures forall x :: x in r <==> x in names
  {
    set i | 0 <= i < |names| :: names[i]
  }

  /** `CheckDeviceExtensions`: true iff the required names are a subset of
      the names the device offers. */
  function CheckDeviceExtensions(available: seq<string>, extensions: seq<string>): (r: bool)
    ensures r <==> Names(extensions) <= Names(available)
    ensures |extensions| == 0 ==> r
  {
    AllFoundIsSubset(extensions, available, []);
    AllFound(extensions, available)
  }

  /** `IsDeviceSuitable`: a discrete GPU with geometry shaders, a graphics and
      a presenting queue family, the swap-chain extension, and at least one
      surface format and present mode. The swap-chain support only counts
      when the extension is there. */
  function IsDeviceSuitable(d: Device): (r: bool)
    ensures r <==>
      && d.deviceType == VK_PHYSICAL_DEVICE_TYPE_DISCRETE_GPU
      && d.geometryShader
      && !NoneBefore(d.queueFamilies, |d.queueFamilies|, Graphics)
      && !NoneBefore(d.queueFamilies, |d.queueFamilies|, Presentation)
      && VK_KHR_SWAPCHAIN_EXTENSION_NAME in d.extensions
      && |d.support.formats| > 0
      && |d.support.presentModes| > 0
  {
    var indices := FindQueueFamilies(d.queueFamilies);
    var extensionsAvailable := CheckDeviceExtensions(d.extensions, RequiredDeviceExtensions);
    assert extensionsAvailable <==> VK_KHR_SWAPCHAIN_EXTENSION_NAME in d.extensions by {
      assert Names(RequiredDeviceExtensions) == {VK_KHR_SWAPCHAIN_EXTENSION_NAME};
    }
    var isSwapChainSuitable := if extensionsAvailable then |d.support.formats| > 0 && |d.support.presentModes| > 0 else false;
    && d.deviceType == VK_PHYSICAL_DEVICE_TYPE_DISCRETE_GPU
    && d.geometryShader
    && indices.graphics.Some?
    && indices.presentation.Some?
    && extensionsAvailable
    && isSwapChainSuitable
  }

  /** The index of the first suitable device from `i` on. */
  function FirstSuitable(devices: seq<Device>, i: nat): (r: Option<nat>)
    requires i <= |devices|
    ensures r.Some? ==>
      && i <= r.value < |devices|
      && IsDeviceSuitable(devices[r.value])
      && forall j :: i <= j < r.value ==> !IsDeviceSuitable(devices[j])
    ensures r.None? ==> forall j :: i <= j < |devices| ==> !IsDeviceSuitable(devices[j])
    decreases |devices| - i
  {
    if i == |devices| then None
    else if IsDeviceSuitable(devices[i]) then Some(i)
    else FirstSuitable(devices, i + 1)
  }

  /** The constructor: it asserts that some GPU is enumerated, takes the first
      suitable one in enumeration order, and asserts that there was one. The
      result is the index of the chosen device. */
  function Create(devices: seq<Device>): (r: Result<nat>)
    ensures |devices| == 0 ==> r.Failure?
    ensures r.Failure? <==> forall j :: 0 <= j < |devices| ==> !IsDeviceSuitable(devices[j])
    ensures r.Success? ==>
      && r.value < |devices|
      && IsDeviceSuitable(devices[r.value])
      && forall j :: 0 <= j < r.value ==> !IsDeviceSuitable(devices[j])
  {
    if |devices| == 0 then Failure("Failed to find GPUs with Vulkan support")
    else match FirstSuitable(devices, 0) {
      case None => Failure("Failed to find a suitable GPU with Vulkan support")
      case Some(i) => Success(i)
    }
  }

  /** The device chosen can host the swap chain: its queue-family scan finds
      both families and it offers a surface format, so `CreateSwapChain`
      succeeds on it whatever the framebuffer size. */
  lemma ChosenDeviceHostsSwapChain(devices: seq<Device>, framebufferWidth: nat, framebufferHeight: nat)
    requires Create(devices).Success?
    ensures var d := devices[Create(devices).value];
      && |d.support.formats| > 0
      && CreateSwapChain(framebufferWidth, framebufferHeight, d.support, FindQueueFamilies(d.queueFamilies)).Success?
  {
  }

  /** Memory type `i` is in the mask and has all the required properties;
      bit masks are modelled as the sets of their bit positions. */
  predicate SuitableMemoryType(memoryTypes: seq<set<nat>>, memoryType: set<nat>, requiredProperties: set<nat>, i: nat)
    requires i < |memoryTypes|
  {
    i in memoryType && requiredProperties <= memoryTypes[i]
  }

  /** `FindSuitableMemoryType`: the first memory type whose bit is set in the
      mask and whose property flags include the required ones; the failed
      assertion at the end becomes the failure. */
  method FindSuitableMemoryType(memoryTypes: seq<set<nat>>, memoryType: set<nat>, requiredProperties: set<nat>) returns (r: Result<nat>)
    ensures r.Success? ==>
      && r.value < |memoryTypes|
      && SuitableMemoryType(memoryTypes, memoryType, requiredProperties, r.value)
      && forall j :: 0 <= j < r.value ==> !SuitableMemoryType(memoryTypes, memoryType, requiredProperties, j)
    ensures r.Failure? <==> forall j :: 0 <= j < |memoryTypes| ==> !SuitableMemoryType(memoryTypes, memoryType, requiredProperties, j)
  {
    var i := 0;
    while i < |memoryTypes|
      invariant 0 <= i <= |memoryTypes|
      invariant forall j :: 0 <= j < i ==> !SuitableMemoryType(memoryTypes, memoryType, requiredProperties, j)
    {
      if i in memoryType && requiredProperties <= memoryTypes[i] {
        return Success(i);
      }
      i := i + 1;
    }
    return Failure("Unable to find suitable memory type");
  }
}

/** `PhysicalDevice::PickPhysicalDevice` of the legacy Vulkan layer. Its
    `FindQueueFamilies`, `IsDeviceSuitable` and `CheckDeviceExtensions` are
    the same code as `QueueFamilies.FindQueueFamilies` and the platform
    layer's, and share their definitions. */
module LegacyPhysicalDevice {
  import opened Wrappers
  import PhysicalDevice

  /** Throws when no GPU is enumerated, takes the first suitable device and
      throws when none was suitable (the device handle starts null). */
  function PickPhysicalDevice(devices: seq<PhysicalDevice.Device>): (r: Result<nat>)
    ensures r.Failure? <==> forall j :: 0 <= j < |devices| ==> !PhysicalDevice.IsDeviceSuitable(devices[j])
    ensures r.Success? ==>
      && r.value < |devices|
      && PhysicalDevice.IsDeviceSuitable(devices[r.value])
      && forall j :: 0 <= j < r.value ==> !PhysicalDevice.IsDeviceSuitable(devices[j])
  {
    if |devices| == 0 then Failure("Failed to find GPUs with Vulkan support")
    else
      var device := PhysicalDevice.FirstSuitable(devices, 0);
      if device.None? then Failure("Failed to find a suitable GPU!") else Success(device.value)
  }

  /** Both layers choose the same device and fail on the same inputs. */
  lemma PicksAgree(devices: seq<PhysicalDevice.Device>)
    ensures PickPhysicalDevice(devices).Success? <==> PhysicalDevice.Create(devices).Success?
    ensures PickPhysicalDevice(devices).Success? ==> PickPhysicalDevice(devices).value == PhysicalDevice.Create(devices).value
  {
  }
}
