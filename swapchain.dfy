/** Swapchain parameter selection and the swapchain's per-image state
    (src/base/swapchain.rs). The selection follows the surface-capability
    rules of the Window System Integration chapter of the Vulkan
    specification; every handle the driver hands out is an opaque number. */
module Swapchain {
  import opened Collections

  /** `u32::MAX`: as the width of the current extent it means that the
      application chooses the surface size. */
  const U32_MAX: nat := 0xFFFF_FFFF

  const FORMAT_UNDEFINED: nat := 0
  const FORMAT_B8G8R8_UNORM: nat := 30
  const FORMAT_D16_UNORM: nat := 124

  const PRESENT_MODE_IMMEDIATE: nat := 0
  const PRESENT_MODE_MAILBOX: nat := 1
  const PRESENT_MODE_FIFO: nat := 2

  const TRANSFORM_IDENTITY: bv32 := 0x1

  datatype SurfaceFormat = SurfaceFormat(format: nat, colorSpace: nat)

  datatype Extent2D = Extent2D(width: nat, height: nat)

  /** The surface capabilities the driver reports. */
  datatype Capabilities = Capabilities(
    minImageCount: nat,
    maxImageCount: nat,
    currentExtent: Extent2D,
    minImageExtent: Extent2D,
    maxImageExtent: Extent2D,
    supportedTransforms: bv32,
    currentTransform: bv32)

  /** `choose_format`: the first reported format, with an undefined format
      replaced by B8G8R8_UNORM; an empty list panics (None). */
  function ChooseFormat(available: seq<SurfaceFormat>): (r: Option<SurfaceFormat>)
    ensures r.Some? <==> available != []
    ensures r.Some? ==> r.value.format != FORMAT_UNDEFINED && r.value.colorSpace == available[0].colorSpace
    ensures r.Some? && available[0].format != FORMAT_UNDEFINED ==> r.value == available[0]
    ensures r.Some? && available[0].format == FORMAT_UNDEFINED ==> r.value.format == FORMAT_B8G8R8_UNORM
  {
    if available == [] then None
    else if available[0].format == FORMAT_UNDEFINED then
      Some(SurfaceFormat(FORMAT_B8G8R8_UNORM, available[0].colorSpace))
    else Some(available[0])
  }

  /** Only the first entry matters, and choosing again from the chosen
      format changes nothing. */
  lemma ChooseFormatStable(available: seq<SurfaceFormat>, rest: seq<SurfaceFormat>)
    requires available != []
    ensures ChooseFormat(available[..1] + rest) == ChooseFormat(available)
    ensures ChooseFormat([ChooseFormat(available).value] + rest) == ChooseFormat(available)
  {
  }

  /** How much `choose_mode` prefers a present mode. */
  function Rank(mode: nat): nat {
    if mode == PRESENT_MODE_MAILBOX then 2
    else if mode == PRESENT_MODE_IMMEDIATE then 1
    else 0
  }

  /** The present mode `choose_mode` settles on: the most preferred of the
      reported modes among MAILBOX and IMMEDIATE, and FIFO, which every
      surface supports, when neither is reported. */
  function PreferredMode(available: seq<nat>): (mode: nat)
    ensures mode == PRESENT_MODE_MAILBOX || mode == PRESENT_MODE_IMMEDIATE || mode == PRESENT_MODE_FIFO
    ensures mode != PRESENT_MODE_FIFO ==> mode in available
    ensures forall m | m in available :: Rank(m) <= Rank(mode)
  {
    if PRESENT_MODE_MAILBOX in available then PRESENT_MODE_MAILBOX
    else if PRESENT_MODE_IMMEDIATE in available then PRESENT_MODE_IMMEDIATE
    else PRESENT_MODE_FIFO
  }

  /** The three outcomes of the preference, case by case; the order of the
      list does not matter. */
  lemma PreferredModeCases(available: seq<nat>)
    ensures PRESENT_MODE_MAILBOX in available ==> PreferredMode(available) == PRESENT_MODE_MAILBOX
    ensures PRESENT_MODE_MAILBOX !in available && PRESENT_MODE_IMMEDIATE in available
      ==> PreferredMode(available) == PRESENT_MODE_IMMEDIATE
    ensures PRESENT_MODE_MAILBOX !in available && PRESENT_MODE_IMMEDIATE !in available
      ==> PreferredMode(available) == PRESENT_MODE_FIFO
    ensures forall other: seq<nat> | multiset(other) == multiset(available) ::
      PreferredMode(other) == PreferredMode(available)
  {
    forall other: seq<nat> | multiset(other) == multiset(available)
      ensures PreferredMode(other) == PreferredMode(available)
    {
      assert PRESENT_MODE_MAILBOX in other <==> PRESENT_MODE_MAILBOX in multiset(other);
      assert PRESENT_MODE_IMMEDIATE in other <==> PRESENT_MODE_IMMEDIATE in multiset(other);
    }
  }

  /** `choose_mode`: scans the list, returning at the first MAILBOX and
      remembering an IMMEDIATE on the way; FIFO otherwise. */
  method ChooseMode(available: seq<nat>) returns (mode: nat)
    ensures mode == PreferredMode(available)
  {
    var res := PRESENT_MODE_FIFO;
    var i := 0;
    while i < |available|
      invariant 0 <= i <= |available|
      invariant PRESENT_MODE_MAILBOX !in available[..i]
      invariant res == if PRESENT_MODE_IMMEDIATE in available[..i] then PRESENT_MODE_IMMEDIATE else PRESENT_MODE_FIFO
    {
      assert available[..i + 1] == available[..i] + [available[i]];
      if available[i] == PRESENT_MODE_MAILBOX {
        return available[i];
      } else if available[i] == PRESENT_MODE_IMMEDIATE {
        res := available[i];
      }
      i := i + 1;
    }
    assert available[..i] == available;
    mode := res;
  }

  function Min(a: nat, b: nat): nat {
    if a <= b then a else b
  }

  function Max(a: nat, b: nat): nat {
    if a >= b then a else b
  }

  /** The inner `clamp(num, n, x)` of `choose_extent`: `num` limited to at
      most `x` and then raised to at least `n`, so the lower bound wins
      when the bounds cross. */
  function Clamp(num: nat, n: nat, x: nat): (r: nat)
    ensures n <= x ==> n <= r <= x
    ensures n <= num <= x ==> r == num
    ensures num < n ==> r == n
    ensures n <= x < num ==> r == x
    ensures x < n ==> r == n
  {
    Max(n, Min(x, num))
  }

  /** Clamping twice is clamping once. */
  lemma ClampIdempotent(num: nat, n: nat, x: nat)
    ensures Clamp(Clamp(num, n, x), n, x) == Clamp(num, n, x)
  {
  }

  /** The extent lies between the surface's least and greatest image extent,
      on each axis where those bounds are ordered. */
  predicate WithinBounds(e: Extent2D, caps: Capabilities) {
    && (caps.minImageExtent.width <= caps.maxImageExtent.width
        ==> caps.minImageExtent.width <= e.width <= caps.maxImageExtent.width)
    && (caps.minImageExtent.height <= caps.maxImageExtent.height
        ==> caps.minImageExtent.height <= e.height <= caps.maxImageExtent.height)
  }

  /** `choose_extent`: the current extent unless its width is `u32::MAX`;
      then the window's inner size, clamped axis by axis. The window size is
      only asked for in that case, and a window without one panics (None). */
  function ChooseExtent(caps: Capabilities, window: Option<Extent2D>): (r: Option<Extent2D>)
    ensures r.None? <==> caps.currentExtent.width == U32_MAX && window.None?
    ensures caps.currentExtent.width != U32_MAX ==> r == Some(caps.currentExtent)
    ensures caps.currentExtent.width == U32_MAX && window.Some? ==>
      r == Some(Extent2D(
        Clamp(window.value.width, caps.minImageExtent.width, caps.maxImageExtent.width),
        Clamp(window.value.height, caps.minImageExtent.height, caps.maxImageExtent.height)))
    ensures caps.currentExtent.width == U32_MAX && r.Some? ==> WithinBounds(r.value, caps)
    ensures caps.currentExtent.width == U32_MAX && window.Some? && WithinBounds(window.value, caps)
      && caps.minImageExtent.width <= caps.maxImageExtent.width
      && caps.minImageExtent.height <= caps.maxImageExtent.height
      ==> r == window
  {
    if caps.currentExtent.width != U32_MAX then Some(caps.currentExtent)
    else if window.None? then None
    else
      Some(Extent2D(
        Clamp(window.value.width, caps.minImageExtent.width, caps.maxImageExtent.width),
        Clamp(window.value.height, caps.minImageExtent.height, caps.maxImageExtent.height)))
  }

  /** Width and height are chosen independently: a window that differs only
      in height gives the same width, and the other way round. */
  lemma ExtentAxesIndependent(caps: Capabilities, w1: Extent2D, w2: Extent2D)
    ensures w1.width == w2.width ==>
      ChooseExtent(caps, Some(w1)).value.width == ChooseExtent(caps, Some(w2)).value.width
    ensures w1.height == w2.height ==>
      ChooseExtent(caps, Some(w1)).value.height == ChooseExtent(caps, Some(w2)).value.height
  {
  }

  /** The image count `SwapchainBase::new` asks for: one more than the
      least, lowered to the greatest when there is a greatest (a greatest
      of 0 means no limit) and it is exceeded. */
  function ImageCount(caps: Capabilities): (count: nat)
    ensures count == caps.minImageCount + 1 || count == caps.maxImageCount
    ensures caps.maxImageCount == 0 ==> count == caps.minImageCount + 1
    ensures count <= caps.minImageCount + 1
    ensures caps.maxImageCount > 0 ==> count <= caps.maxImageCount
    ensures caps.maxImageCount > caps.minImageCount ==> count == caps.minImageCount + 1
    ensures caps.maxImageCount == 0 || caps.maxImageCount >= caps.minImageCount ==> caps.minImageCount <= count
  {
    if caps.maxImageCount > 0 && caps.minImageCount + 1 > caps.maxImageCount then caps.maxImageCount
    else caps.minImageCount + 1
  }

  /** The image-count selection of `SwapchainBase::new`, adjusting its
      first guess in place. */
  method DesiredImageCount(caps: Capabilities) returns (count: nat)
    ensures count == ImageCount(caps)
  {
    count := caps.minImageCount + 1;
    if caps.maxImageCount > 0 && count > caps.maxImageCount {
      count := caps.maxImageCount;
    }
  }

  /** The pre-transform of `SwapchainBase::new`: the identity when the
      surface supports it, the current transform otherwise; a supported
      current transform makes the choice supported. */
  function PreTransform(caps: Capabilities): (t: bv32)
    ensures caps.supportedTransforms & TRANSFORM_IDENTITY == TRANSFORM_IDENTITY ==> t == TRANSFORM_IDENTITY
    ensures caps.supportedTransforms & TRANSFORM_IDENTITY != TRANSFORM_IDENTITY ==> t == caps.currentTransform
    ensures caps.currentTransform & caps.supportedTransforms == caps.currentTransform
      ==> t & caps.supportedTransforms == t
  {
    if caps.supportedTransforms & TRANSFORM_IDENTITY == TRANSFORM_IDENTITY then TRANSFORM_IDENTITY
    else caps.currentTransform
  }

  /** What `SwapchainBase::new` decides before calling the driver. */
  datatype SwapchainParams = SwapchainParams(
    minImageCount: nat,
    format: SurfaceFormat,
    extent: Extent2D,
    preTransform: bv32,
    presentMode: nat,
    imageArrayLayers: nat,
    depthFormat: nat,
    depthExtent: (nat, nat, nat))

  /** The selections of `SwapchainBase::new`, from the queried capabilities,
      formats and present modes and the window's inner size. */
  method SelectParams(caps: Capabilities, formats: seq<SurfaceFormat>, modes: seq<nat>, window: Option<Extent2D>)
    returns (r: Option<SwapchainParams>)
    ensures r.Some? <==> formats != [] && ChooseExtent(caps, window).Some?
    ensures r.Some? ==> r.value.format == ChooseFormat(formats).value
    ensures r.Some? ==> r.value.presentMode == PreferredMode(modes)
    ensures r.Some? ==> r.value.extent == ChooseExtent(caps, window).value
    ensures r.Some? ==> r.value.minImageCount == ImageCount(caps) && r.value.preTransform == PreTransform(caps)
    ensures r.Some? ==> r.value.imageArrayLayers == 1 && r.value.depthFormat == FORMAT_D16_UNORM
    ensures r.Some? ==> r.value.depthExtent == (r.value.extent.width, r.value.extent.height, 1)
  {
    var format := ChooseFormat(formats);
    if format.None? {
      return None;
    }
    var mode := ChooseMode(modes);
    var extent := ChooseExtent(caps, window);
    if extent.None? {
      return None;
    }
    var count := DesiredImageCount(caps);
    var e := extent.value;
    r := Some(SwapchainParams(count, format.value, e, PreTransform(caps), mode, 1,
                              FORMAT_D16_UNORM, (e.width, e.height, 1)));
  }

  /** The swapchain's driver objects: the chain, its colour format and
      extent, its images, and the depth image with its memory. */
  datatype SwapchainBase = SwapchainBase(
    chain: nat,
    format: nat,
    extent: Extent2D,
    imgs: seq<nat>,
    depthImg: nat,
    depthImgMem: nat)

  /** A framebuffer, represented by the create info it was made from. */
  datatype FramebufferInfo = FramebufferInfo(
    renderPass: nat,
    attachments: seq<nat>,
    width: nat,
    height: nat,
    layers: nat)

  datatype Rect2D = Rect2D(x: int, y: int, extent: Extent2D)

  /** The framebuffers `SwapToken::create` makes: one per image view, each
      with that view and the depth view as attachments. */
  function Framebuffers(renderPass: nat, views: seq<nat>, depthView: nat, extent: Extent2D): seq<FramebufferInfo> {
    seq(|views|, i requires 0 <= i < |views| =>
      FramebufferInfo(renderPass, [views[i], depthView], extent.width, extent.height, 1))
  }

  /** The colour attachment of each framebuffer, in order. */
  function ColourViews(fbs: seq<FramebufferInfo>): seq<nat> {
    seq(|fbs|, i requires 0 <= i < |fbs| => if fbs[i].attachments == [] then 0 else fbs[i].attachments[0])
  }

  /** The framebuffers give back the image views they were made for, in the
      same order, and making them distributes over a split of the views. */
  lemma {:induction false} FramebuffersViews(renderPass: nat, a: seq<nat>, b: seq<nat>, depthView: nat, extent: Extent2D)
    ensures ColourViews(Framebuffers(renderPass, a + b, depthView, extent)) == a + b
    ensures Framebuffers(renderPass, a + b, depthView, extent)
      == Framebuffers(renderPass, a, depthView, extent) + Framebuffers(renderPass, b, depthView, extent)
  {
    var all := Framebuffers(renderPass, a + b, depthView, extent);
    assert forall i | 0 <= i < |all| :: ColourViews(all)[i] == (a + b)[i];
    var split := Framebuffers(renderPass, a, depthView, extent) + Framebuffers(renderPass, b, depthView, extent);
    assert forall i | 0 <= i < |all| :: all[i] == split[i];
  }

  /** A destroy or free call made on the device. */
  datatype Release =
    | FreeFramebuffer(framebuffer: FramebufferInfo)
    | FreeImageView(view: nat)
    | FreeSwapchain(chain: nat)
    | FreeMemory(memory: nat)
    | FreeImage(image: nat)

  function FramebufferFrees(fbs: seq<FramebufferInfo>): seq<Release> {
    seq(|fbs|, i requires 0 <= i < |fbs| => FreeFramebuffer(fbs[i]))
  }

  function ViewFrees(views: seq<nat>): seq<Release> {
    seq(|views|, i requires 0 <= i < |views| => FreeImageView(views[i]))
  }

  /** The calls `clean` makes: every framebuffer, the depth view, every
      image view, then the chain, the depth memory and the depth image. */
  function CleanCalls(fbs: seq<FramebufferInfo>, depthView: nat, views: seq<nat>, base: SwapchainBase): seq<Release> {
    FramebufferFrees(fbs) + [FreeImageView(depthView)] + ViewFrees(views)
      + [FreeSwapchain(base.chain), FreeMemory(base.depthImgMem), FreeImage(base.depthImg)]
  }

  /** The device calls of a clean release each framebuffer and each image
      view exactly as often as it is listed. */
  lemma {:induction false} CleanReleasesEach(fbs: seq<FramebufferInfo>, depthView: nat, views: seq<nat>, base: SwapchainBase)
    ensures forall fb ::
              multiset(CleanCalls(fbs, depthView, views, base))[FreeFramebuffer(fb)] == multiset(fbs)[fb]
    ensures forall v | v != depthView ::
              multiset(CleanCalls(fbs, depthView, views, base))[FreeImageView(v)] == multiset(views)[v]
    ensures multiset(CleanCalls(fbs, depthView, views, base))[FreeImageView(depthView)]
      == multiset(views)[depthView] + 1
  {
    FramebufferFreesCount(fbs);
    ViewFreesCount(views);
  }

  lemma {:induction false} FramebufferFreesCount(fbs: seq<FramebufferInfo>)
    ensures forall fb :: multiset(FramebufferFrees(fbs))[FreeFramebuffer(fb)] == multiset(fbs)[fb]
    ensures forall v :: multiset(FramebufferFrees(fbs))[FreeImageView(v)] == 0
  {
    if fbs != [] {
      var n := |fbs| - 1;
      FramebufferFreesCount(fbs[..n]);
      assert FramebufferFrees(fbs) == FramebufferFrees(fbs[..n]) + [FreeFramebuffer(fbs[n])];
      assert fbs == fbs[..n] + [fbs[n]];
    }
  }

  lemma {:induction false} ViewFreesCount(views: seq<nat>)
    ensures forall v :: multiset(ViewFrees(views))[FreeImageView(v)] == multiset(views)[v]
    ensures forall fb :: multiset(ViewFrees(views))[FreeFramebuffer(fb)] == 0
  {
    if views != [] {
      var n := |views| - 1;
      ViewFreesCount(views[..n]);
      assert ViewFrees(views) == ViewFrees(views[..n]) + [FreeImageView(views[n])];
      assert views == views[..n] + [views[n]];
    }
  }

  /** What `renderpass_begin_info` fills in. */
  datatype RenderPassBegin<C> = RenderPassBegin(
    renderPass: nat,
    framebuffer: FramebufferInfo,
    renderArea: Rect2D,
    clearValues: seq<C>)

  class SwapToken {
    var base: SwapchainBase
    var depthView: nat
    var imgViews: seq<nat>
    var renderPass: nat
    var framebuffers: seq<FramebufferInfo>
    var scissors: Rect2D
    /** The destroy and free calls made on the device so far, in order. */
    var released: seq<Release>

    /** One framebuffer per image view, in order, each of the swapchain's
        extent, and a scissor rectangle covering that extent. */
    ghost predicate Valid()
      reads this
    {
      && |framebuffers| == |imgViews|
      && (forall i | 0 <= i < |framebuffers| ::
            framebuffers[i] == FramebufferInfo(renderPass, [imgViews[i], depthView], base.extent.width, base.extent.height, 1))
      && scissors == Rect2D(0, 0, base.extent)
    }

    /** `SwapToken::create`, given the views the driver made for the
        swapchain images, the depth view and the render pass. */
    constructor Create(b: SwapchainBase, views: seq<nat>, depth: nat, pass: nat)
      ensures Valid()
      ensures base == b && imgViews == views && depthView == depth && renderPass == pass
      ensures framebuffers == Framebuffers(pass, views, depth, b.extent)
      ensures scissors == Rect2D(0, 0, b.extent)
      ensures released == []
    {
      base := b;
      depthView := depth;
      imgViews := views;
      renderPass := pass;
      framebuffers := Framebuffers(pass, views, depth, b.extent);
      scissors := Rect2D(0, 0, b.extent);
      released := [];
    }

    /** `renderpass_begin_info`: the framebuffer at the presented index
        (an index past the end panics: None) and a render area at offset 0
        covering the swapchain extent. */
    function RenderPassBeginInfo<C>(presentIndex: nat, clearValues: seq<C>): (r: Option<RenderPassBegin<C>>)
      reads this
      ensures r.Some? <==> presentIndex < |framebuffers|
      ensures r.Some? ==> r.value.framebuffer == framebuffers[presentIndex] && r.value.clearValues == clearValues
      ensures r.Some? ==> r.value.renderArea == Rect2D(0, 0, base.extent) && r.value.renderPass == renderPass
      ensures Valid() && r.Some? ==>
        (&& r.value.renderArea == scissors
         && r.value.framebuffer.attachments[0] == imgViews[presentIndex]
         && r.value.renderArea.extent == Extent2D(r.value.framebuffer.width, r.value.framebuffer.height))
    {
      if presentIndex < |framebuffers| then
        Some(RenderPassBegin(renderPass, framebuffers[presentIndex], Rect2D(0, 0, base.extent), clearValues))
      else None
    }

    /** `SwapToken::clean`: drains the framebuffers and the image views,
        destroying each, and destroys the depth view and the base. */
    method Clean()
      modifies this
      ensures framebuffers == [] && imgViews == []
      ensures released == old(released) + CleanCalls(old(framebuffers), old(depthView), old(imgViews), old(base))
      ensures base == old(base) && depthView == old(depthView) && renderPass == old(renderPass)
      ensures scissors == old(scissors)
      ensures old(Valid()) ==> Valid()
    {
      ghost var k := 0;
      while framebuffers != []
        invariant 0 <= k <= |old(framebuffers)|
        invariant framebuffers == old(framebuffers)[k..]
        invariant released == old(released) + FramebufferFrees(old(framebuffers)[..k])
        invariant imgViews == old(imgViews) && base == old(base) && depthView == old(depthView)
        invariant renderPass == old(renderPass) && scissors == old(scissors)
        decreases |framebuffers|
      {
        assert FramebufferFrees(old(framebuffers)[..k + 1])
          == FramebufferFrees(old(framebuffers)[..k]) + [FreeFramebuffer(framebuffers[0])];
        released := released + [FreeFramebuffer(framebuffers[0])];
        framebuffers := framebuffers[1..];
        k := k + 1;
      }
      assert old(framebuffers)[..k] == old(framebuffers);
      released := released + [FreeImageView(depthView)];
      ghost var mid := released;
      k := 0;
      while imgViews != []
        invariant 0 <= k <= |old(imgViews)|
        invariant imgViews == old(imgViews)[k..]
        invariant released == mid + ViewFrees(old(imgViews)[..k])
        invariant framebuffers == [] && base == old(base) && depthView == old(depthView)
        invariant renderPass == old(renderPass) && scissors == old(scissors)
        decreases |imgViews|
      {
        assert ViewFrees(old(imgViews)[..k + 1]) == ViewFrees(old(imgViews)[..k]) + [FreeImageView(imgViews[0])];
        released := released + [FreeImageView(imgViews[0])];
        imgViews := imgViews[1..];
        k := k + 1;
      }
      assert old(imgViews)[..k] == old(imgViews);
      released := released + [FreeSwapchain(base.chain), FreeMemory(base.depthImgMem), FreeImage(base.depthImg)];
    }

    /** `SwapToken::recreate`: cleans, then takes the new base and the
        objects made for it exactly as `create` does. */
    method Recreate(b: SwapchainBase, views: seq<nat>, depth: nat, pass: nat)
      modifies this
      ensures Valid()
      ensures released == old(released) + CleanCalls(old(framebuffers), old(depthView), old(imgViews), old(base))
      ensures base == b && imgViews == views && depthView == depth && renderPass == pass
      ensures framebuffers == Framebuffers(pass, views, depth, b.extent)
      ensures scissors == Rect2D(0, 0, b.extent)
    {
      Clean();
      base := b;
      depthView := depth;
      imgViews := views;
      renderPass := pass;
      framebuffers := Framebuffers(pass, views, depth, b.extent);
      scissors := Rect2D(0, 0, b.extent);
    }
  }
}
