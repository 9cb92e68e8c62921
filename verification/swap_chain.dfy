/** `SwapChain` of the Vulkan platform layer: the choice of surface format,
    present mode, extent, image count and sharing mode that `CreateSwapChain`
    puts into the swap-chain create info. The Vulkan calls themselves (creation,
    images, image views) are not part of the model. */
module SwapChain {
  import opened Wrappers
  import opened QueueFamilies

  const UINT32_LIMIT: nat := 0x1_0000_0000
  /** `std::numeric_limits<uint32_t>::max()`: the `currentExtent.width` with
      which a surface says that the swap chain decides its own extent. */
  const UINT32_MAX: nat := 0xFFFF_FFFF

  const VK_FORMAT_B8G8R8A8_UNORM: nat := 44
  const VK_FORMAT_B8G8R8A8_SRGB: nat := 50
  const VK_COLOR_SPACE_SRGB_NONLINEAR_KHR: nat := 0

  const VK_PRESENT_MODE_IMMEDIATE_KHR: nat := 0
  const VK_PRESENT_MODE_MAILBOX_KHR: nat := 1
  const VK_PRESENT_MODE_FIFO_KHR: nat := 2
  const VK_PRESENT_MODE_FIFO_RELAXED_KHR: nat := 3

  const VK_SHARING_MODE_EXCLUSIVE: nat := 0
  const VK_SHARING_MODE_CONCURRENT: nat := 1

  datatype SurfaceFormat = SurfaceFormat(format: nat, colorSpace: nat)
  datatype Extent = Extent(width: nat, height: nat)

  /** The fields of `VkSurfaceCapabilitiesKHR` the choice reads. */
  datatype SurfaceCapabilities = SurfaceCapabilities(
    minImageCount: nat, maxImageCount: nat,
    currentExtent: Extent, minImageExtent: Extent, maxImageExtent: Extent)

  datatype SupportDetails = SupportDetails(
    capabilities: SurfaceCapabilities, formats: seq<SurfaceFormat>, presentModes: seq<nat>)

  /** The fields of `VkSwapchainCreateInfoKHR` the choice decides. */
  datatype CreateInfo = CreateInfo(
    minImageCount: nat, surfaceFormat: SurfaceFormat, extent: Extent,
    imageSharingMode: nat, queueFamilyIndices: seq<nat>, presentMode: nat)

  /** What the surface promises about its capabilities: the bounds of each
      range are ordered, and a maximum image count of 0 means no maximum. */
  predicate ValidCapabilities(c: SurfaceCapabilities)
  {
    && 1 <= c.minImageCount < UINT32_MAX
    && (c.maxImageCount == 0 || c.minImageCount <= c.maxImageCount)
    && c.minImageExtent.width <= c.maxImageExtent.width
    && c.minImageExtent.height <= c.maxImageExtent.height
  }

  /** The first index holding `wanted` in the SRGB non-linear colour space. */
  function FindFormat(formats: seq<SurfaceFormat>, wanted: nat): (r: Option<nat>)
    ensures r.Some? ==>
      && r.value < |formats|
      && formats[r.value] == SurfaceFormat(wanted, VK_COLOR_SPACE_SRGB_NONLINEAR_KHR)
      && forall j :: 0 <= j < r.value ==> formats[j] != SurfaceFormat(wanted, VK_COLOR_SPACE_SRGB_NONLINEAR_KHR)
    ensures r.None? <==> SurfaceFormat(wanted, VK_COLOR_SPACE_SRGB_NONLINEAR_KHR) !in formats
    decreases |formats|
  {
    if |formats| == 0 then None
    else if formats[0] == SurfaceFormat(wanted, VK_COLOR_SPACE_SRGB_NONLINEAR_KHR) then Some(0)
    else match FindFormat(formats[1..], wanted) {
      case None => assert formats == [formats[0]] + formats[1..]; None
      case Some(i) => Some(i + 1)
    }
  }

  /** The scan of `ChooseSwapSurfaceFormat`, parametrised by the format it
      prefers; with no preferred entry it falls back to the first entry. */
  function ChooseFormatPreferring(formats: seq<SurfaceFormat>, wanted: nat): (r: SurfaceFormat)
    requires |formats| > 0
    ensures r in formats
    ensures r == SurfaceFormat(wanted, VK_COLOR_SPACE_SRGB_NONLINEAR_KHR)
      <==> SurfaceFormat(wanted, VK_COLOR_SPACE_SRGB_NONLINEAR_KHR) in formats
    ensures SurfaceFormat(wanted, VK_COLOR_SPACE_SRGB_NONLINEAR_KHR) !in formats ==> r == formats[0]
  {
    match FindFormat(formats, wanted) {
      case Some(i) => formats[i]
      case None => formats[0]
    }
  }

  /** `ChooseSwapSurfaceFormat`: B8G8R8A8_UNORM in the SRGB non-linear colour
      space if the surface offers it, else the first format offered. An empty
      list is out of bounds in the source, hence the precondition. */
  function ChooseSwapSurfaceFormat(formats: seq<SurfaceFormat>): (r: SurfaceFormat)
    requires |formats| > 0
    ensures r in formats
    ensures r == SurfaceFormat(VK_FORMAT_B8G8R8A8_UNORM, VK_COLOR_SPACE_SRGB_NONLINEAR_KHR)
      <==> SurfaceFormat(VK_FORMAT_B8G8R8A8_UNORM, VK_COLOR_SPACE_SRGB_NONLINEAR_KHR) in formats
    ensures SurfaceFormat(VK_FORMAT_B8G8R8A8_UNORM, VK_COLOR_SPACE_SRGB_NONLINEAR_KHR) !in formats ==> r == formats[0]
  {
    ChooseFormatPreferring(formats, VK_FORMAT_B8G8R8A8_UNORM)
  }

  /** Formats listed after the chosen one never change the choice. */
  lemma {:induction false} FormatChoiceIgnoresLaterEntries(formats: seq<SurfaceFormat>, more: seq<SurfaceFormat>, wanted: nat)
    requires |formats| > 0
    ensures FindFormat(formats, wanted).Some? ==> FindFormat(formats + more, wanted) == FindFormat(formats, wanted)
    ensures ChooseFormatPreferring(formats + more, wanted) == ChooseFormatPreferring(formats, wanted)
      || SurfaceFormat(wanted, VK_COLOR_SPACE_SRGB_NONLINEAR_KHR) !in formats
    decreases |formats|
  {
    var f := SurfaceFormat(wanted, VK_COLOR_SPACE_SRGB_NONLINEAR_KHR);
    assert (formats + more)[0] == formats[0];
    if formats[0] != f && |formats| > 1 {
      assert (formats + more)[1..] == formats[1..] + more;
      FormatChoiceIgnoresLaterEntries(formats[1..], more, wanted);
    }
    if f in formats {
      var i := FindFormat(formats, wanted).value;
      assert (formats + more)[i] == formats[i];
    }
  }

  /** `ChooseSwapPresentMode`: mailbox if the surface offers it, else FIFO. */
  function ChooseSwapPresentMode(modes: seq<nat>): (r: nat)
    ensures r == VK_PRESENT_MODE_MAILBOX_KHR <==> VK_PRESENT_MODE_MAILBOX_KHR in modes
    ensures r != VK_PRESENT_MODE_MAILBOX_KHR ==> r == VK_PRESENT_MODE_FIFO_KHR
    decreases |modes|
  {
    if |modes| == 0 then VK_PRESENT_MODE_FIFO_KHR
    else if modes[0] == VK_PRESENT_MODE_MAILBOX_KHR then VK_PRESENT_MODE_MAILBOX_KHR
    else
      assert modes == [modes[0]] + modes[1..];
      ChooseSwapPresentMode(modes[1..])
  }

  /** The chosen mode is one the surface supports: every surface supports
      FIFO (section "VkPresentModeKHR" of the Vulkan specification), and the
      choice depends only on which modes are offered, not on their order. */
  lemma PresentModeSupported(modes: seq<nat>, reordered: seq<nat>)
    requires VK_PRESENT_MODE_FIFO_KHR in modes
    requires multiset(reordered) == multiset(modes)
    ensures ChooseSwapPresentMode(modes) in modes
    ensures ChooseSwapPresentMode(reordered) == ChooseSwapPresentMode(modes)
  {
    assert VK_PRESENT_MODE_MAILBOX_KHR in modes <==> VK_PRESENT_MODE_MAILBOX_KHR in multiset(modes);
    assert VK_PRESENT_MODE_MAILBOX_KHR in reordered <==> VK_PRESENT_MODE_MAILBOX_KHR in multiset(reordered);
  }

  /** `std::clamp(value, lo, hi)` as the standard library computes it. */
  function Clamp(value: nat, lo: nat, hi: nat): (r: nat)
    ensures lo <= hi ==> lo <= r <= hi
    ensures lo <= value <= hi ==> r == value
    ensures value < lo ==> r == lo
    ensures lo <= hi < value ==> r == hi
  {
    if value < lo then lo else if hi < value then hi else value
  }

  /** `ChooseSwapExtent`: the surface's current extent unless its width is the
      special value, in which case the framebuffer size clamped into the
      surface's range, dimension by dimension. */
  function ChooseSwapExtent(c: SurfaceCapabilities, framebufferWidth: nat, framebufferHeight: nat): (r: Extent)
    ensures c.currentExtent.width != UINT32_MAX ==> r == c.currentExtent
    ensures c.currentExtent.width == UINT32_MAX && ValidCapabilities(c) ==>
      && c.minImageExtent.width <= r.width <= c.maxImageExtent.width
      && c.minImageExtent.height <= r.height <= c.maxImageExtent.height
    ensures c.currentExtent.width == UINT32_MAX
      && c.minImageExtent.width <= framebufferWidth <= c.maxImageExtent.width
      && c.minImageExtent.height <= framebufferHeight <= c.maxImageExtent.height
      ==> r == Extent(framebufferWidth, framebufferHeight)
  {
    if c.currentExtent.width != UINT32_MAX then c.currentExtent
    else Extent(
      Clamp(framebufferWidth, c.minImageExtent.width, c.maxImageExtent.width),
      Clamp(framebufferHeight, c.minImageExtent.height, c.maxImageExtent.height))
  }

  /** Choosing again with the chosen extent as framebuffer size changes
      nothing: the extent is a fixed point of the choice. */
  lemma ExtentChoiceIdempotent(c: SurfaceCapabilities, framebufferWidth: nat, framebufferHeight: nat)
    requires ValidCapabilities(c)
    ensures var e := ChooseSwapExtent(c, framebufferWidth, framebufferHeight);
      ChooseSwapExtent(c, e.width, e.height) == e
  {
  }

  /** The image count: one more than the minimum, in 32-bit arithmetic, and at
      most the maximum when the surface has one. */
  function ImageCount(c: SurfaceCapabilities): (r: nat)
    ensures r < UINT32_LIMIT || c.minImageCount >= UINT32_LIMIT
    ensures c.maxImageCount > 0 && c.minImageCount < UINT32_MAX ==> r <= c.maxImageCount
    ensures (c.maxImageCount == 0 || c.minImageCount < c.maxImageCount) && c.minImageCount < UINT32_MAX
      ==> r == c.minImageCount + 1
  {
    var count := (c.minImageCount + 1) % UINT32_LIMIT;
    if c.maxImageCount > 0 && count > c.maxImageCount then c.maxImageCount else count
  }

  /** Within the surface's limits the count lies in [min, max]; with a minimum
      of 2^32 - 1 the 32-bit increment wraps and the count becomes 0. */
  lemma ImageCountWithinLimits(c: SurfaceCapabilities)
    ensures ValidCapabilities(c) ==>
      && c.minImageCount <= ImageCount(c)
      && (c.maxImageCount > 0 ==> ImageCount(c) <= c.maxImageCount)
    ensures c.minImageCount == UINT32_MAX ==> ImageCount(c) == 0
  {
  }

  /** The sharing part of the create info: exclusive with no queue family
      indices when one family does both, else concurrent with both. The
      source reads both optionals unchecked, which throws when one is empty. */
  function ChooseSharing(indices: QueueFamilyIndices): (r: Result<(nat, seq<nat>)>)
    ensures r.Success? <==> indices.graphics.Some? && indices.presentation.Some?
    ensures r.Success? ==> (r.value.0 == VK_SHARING_MODE_EXCLUSIVE <==> indices.graphics == indices.presentation)
    ensures r.Success? && r.value.0 == VK_SHARING_MODE_EXCLUSIVE ==> r.value.1 == []
    ensures r.Success? && r.value.0 != VK_SHARING_MODE_EXCLUSIVE ==>
      && r.value.0 == VK_SHARING_MODE_CONCURRENT
      && r.value.1 == [indices.graphics.value, indices.presentation.value]
  {
    if indices.graphics.None? || indices.presentation.None? then Failure("bad optional access")
    else if indices.graphics == indices.presentation then Success((VK_SHARING_MODE_EXCLUSIVE, []))
    else Success((VK_SHARING_MODE_CONCURRENT, [indices.graphics.value, indices.presentation.value]))
  }

  /** `CreateSwapChain`: the create info handed to `vkCreateSwapchainKHR`. */
  function CreateSwapChain(framebufferWidth: nat, framebufferHeight: nat, details: SupportDetails, indices: QueueFamilyIndices): (r: Result<CreateInfo>)
    requires |details.formats| > 0
    ensures r.Success? <==> indices.graphics.Some? && indices.presentation.Some?
    ensures r.Success? ==>
      && r.value.surfaceFormat == ChooseSwapSurfaceFormat(details.formats)
      && r.value.presentMode == ChooseSwapPresentMode(details.presentModes)
      && r.value.extent == ChooseSwapExtent(details.capabilities, framebufferWidth, framebufferHeight)
      && r.value.minImageCount == ImageCount(details.capabilities)
  {
    match ChooseSharing(indices) {
      case Failure(e) => Failure(e)
      case Success(sharing) =>
        Success(CreateInfo(
          ImageCount(details.capabilities),
          ChooseSwapSurfaceFormat(details.formats),
          ChooseSwapExtent(details.capabilities, framebufferWidth, framebufferHeight),
          sharing.0, sharing.1,
          ChooseSwapPresentMode(details.presentModes)))
    }
  }

  /** The valid-usage rules of `VkSwapchainCreateInfoKHR` the choice is
      responsible for: an image count within the surface's limits, a format
      and present mode the surface supports, an extent within its range, and
      concurrent sharing only between two distinct families. */
  predicate ValidCreateInfo(info: CreateInfo, details: SupportDetails)
  {
    var c := details.capabilities;
    && c.minImageCount <= info.minImageCount
    && (c.maxImageCount > 0 ==> info.minImageCount <= c.maxImageCount)
    && info.surfaceFormat in details.formats
    && info.presentMode in details.presentModes
    && (c.currentExtent.width == UINT32_MAX ==>
          && c.minImageExtent.width <= info.extent.width <= c.maxImageExtent.width
          && c.minImageExtent.height <= info.extent.height <= c.maxImageExtent.height)
    && (info.imageSharingMode == VK_SHARING_MODE_CONCURRENT ==>
          |info.queueFamilyIndices| == 2 && info.queueFamilyIndices[0] != info.queueFamilyIndices[1])
    && (info.imageSharingMode == VK_SHARING_MODE_EXCLUSIVE ==> info.queueFamilyIndices == [])
  }

  /** On a surface that keeps its promises and supports FIFO, a successful
      creation always yields a valid create info. */
  lemma CreateInfoValid(framebufferWidth: nat, framebufferHeight: nat, details: SupportDetails, indices: QueueFamilyIndices)
    requires |details.formats| > 0 && ValidCapabilities(details.capabilities)
    requires VK_PRESENT_MODE_FIFO_KHR in details.presentModes
    ensures var r := CreateSwapChain(framebufferWidth, framebufferHeight, details, indices);
      r.Success? ==> ValidCreateInfo(r.value, details)
  {
    ImageCountWithinLimits(details.capabilities);
    PresentModeSupported(details.presentModes, details.presentModes);
  }
}

/** The legacy `SwapChain` of `Source/Vulkan`: the same choices, except that
    it prefers the B8G8R8A8_SRGB format and reads the framebuffer size from
    the window as signed integers. Its `ChooseSwapPresentMode` is the same
    code as the platform one and is shared. */
module LegacySwapChain {
  import opened Wrappers
  import opened QueueFamilies
  import opened SwapChain

  /** `ChooseSwapSurfaceFormat` of the legacy swap chain. */
  function ChooseSwapSurfaceFormat(formats: seq<SurfaceFormat>): (r: SurfaceFormat)
    requires |formats| > 0
    ensures r in formats
    ensures r == SurfaceFormat(VK_FORMAT_B8G8R8A8_SRGB, VK_COLOR_SPACE_SRGB_NONLINEAR_KHR)
      <==> SurfaceFormat(VK_FORMAT_B8G8R8A8_SRGB, VK_COLOR_SPACE_SRGB_NONLINEAR_KHR) in formats
    ensures SurfaceFormat(VK_FORMAT_B8G8R8A8_SRGB, VK_COLOR_SPACE_SRGB_NONLINEAR_KHR) !in formats ==> r == formats[0]
  {
    ChooseFormatPreferring(formats, VK_FORMAT_B8G8R8A8_SRGB)
  }

  /** The two surface-format choices agree when the surface offers neither
      preferred format, and differ when it offers both. */
  lemma FormatChoicesAgreeWithoutPreferred(formats: seq<SurfaceFormat>)
    requires |formats| > 0
    ensures SurfaceFormat(VK_FORMAT_B8G8R8A8_SRGB, VK_COLOR_SPACE_SRGB_NONLINEAR_KHR) !in formats
      && SurfaceFormat(VK_FORMAT_B8G8R8A8_UNORM, VK_COLOR_SPACE_SRGB_NONLINEAR_KHR) !in formats
      ==> ChooseSwapSurfaceFormat(formats) == SwapChain.ChooseSwapSurfaceFormat(formats)
    ensures SurfaceFormat(VK_FORMAT_B8G8R8A8_SRGB, VK_COLOR_SPACE_SRGB_NONLINEAR_KHR) in formats
      && SurfaceFormat(VK_FORMAT_B8G8R8A8_UNORM, VK_COLOR_SPACE_SRGB_NONLINEAR_KHR) in formats
      ==> ChooseSwapSurfaceFormat(formats) != SwapChain.ChooseSwapSurfaceFormat(formats)
  {
  }

  /** `static_cast<uint32_t>` of a signed integer: reduction modulo 2^32. */
  function ToUint32(x: int): (r: nat)
    ensures r < UINT32_LIMIT
    ensures 0 <= x < UINT32_LIMIT ==> r == x
    ensures x < 0 && -x <= UINT32_LIMIT ==> r == UINT32_LIMIT + x
  {
    x % UINT32_LIMIT
  }

  /** `ChooseSwapExtent` of the legacy swap chain, given the size that
      `glfwGetFramebufferSize` reports. */
  function ChooseSwapExtent(c: SurfaceCapabilities, framebufferWidth: int, framebufferHeight: int): (r: Extent)
    ensures c.currentExtent.width != UINT32_MAX ==> r == c.currentExtent
    ensures c.currentExtent.width == UINT32_MAX && ValidCapabilities(c) ==>
      && c.minImageExtent.width <= r.width <= c.maxImageExtent.width
      && c.minImageExtent.height <= r.height <= c.maxImageExtent.height
  {
    if c.currentExtent.width != UINT32_MAX then c.currentExtent
    else
      var actual := Extent(ToUint32(framebufferWidth), ToUint32(framebufferHeight));
      Extent(
        Clamp(actual.width, c.minImageExtent.width, c.maxImageExtent.width),
        Clamp(actual.height, c.minImageExtent.height, c.maxImageExtent.height))
  }

  /** For any framebuffer size GLFW can report the two extent choices agree;
      a negative width would wrap to a huge one and be clamped to the
      maximum. */
  lemma ExtentChoicesAgree(c: SurfaceCapabilities, framebufferWidth: int, framebufferHeight: int)
    ensures 0 <= framebufferWidth < UINT32_LIMIT && 0 <= framebufferHeight < UINT32_LIMIT ==>
      ChooseSwapExtent(c, framebufferWidth, framebufferHeight)
        == SwapChain.ChooseSwapExtent(c, framebufferWidth, framebufferHeight)
    ensures c.currentExtent.width == UINT32_MAX && framebufferWidth == -1
      && c.minImageExtent.width <= c.maxImageExtent.width < UINT32_MAX
      ==> ChooseSwapExtent(c, framebufferWidth, framebufferHeight).width == c.maxImageExtent.width
  {
  }

  /** `CreateSwapChain` of the legacy swap chain. Unlike the platform layer it
      is not handed the queue-family indices: it runs `FindQueueFamilies` on
      the device's families itself. */
  function CreateSwapChain(framebufferWidth: int, framebufferHeight: int, details: SupportDetails, families: seq<QueueFamily>): (r: Result<CreateInfo>)
    requires |details.formats| > 0
    ensures r.Success? <==>
      !NoneBefore(families, |families|, Graphics) && !NoneBefore(families, |families|, Presentation)
    ensures r.Success? ==>
      && r.value.surfaceFormat == ChooseSwapSurfaceFormat(details.formats)
      && r.value.presentMode == ChooseSwapPresentMode(details.presentModes)
      && r.value.extent == ChooseSwapExtent(details.capabilities, framebufferWidth, framebufferHeight)
      && r.value.minImageCount == ImageCount(details.capabilities)
      && (r.value.imageSharingMode, r.value.queueFamilyIndices) == ChooseSharing(FindQueueFamilies(families)).value
  {
    var indices := FindQueueFamilies(families);
    match ChooseSharing(indices) {
      case Failure(e) => Failure(e)
      case Success(sharing) =>
        Success(CreateInfo(
          ImageCount(details.capabilities),
          ChooseSwapSurfaceFormat(details.formats),
          ChooseSwapExtent(details.capabilities, framebufferWidth, framebufferHeight),
          sharing.0, sharing.1,
          ChooseSwapPresentMode(details.presentModes)))
    }
  }

  /** The legacy create info meets the same valid-usage rules. */
  lemma CreateInfoValid(framebufferWidth: int, framebufferHeight: int, details: SupportDetails, families: seq<QueueFamily>)
    requires |details.formats| > 0 && ValidCapabilities(details.capabilities)
    requires VK_PRESENT_MODE_FIFO_KHR in details.presentModes
    ensures var r := CreateSwapChain(framebufferWidth, framebufferHeight, details, families);
      r.Success? ==> ValidCreateInfo(r.value, details)
  {
    ImageCountWithinLimits(details.capabilities);
    PresentModeSupported(details.presentModes, details.presentModes);
  }
}
