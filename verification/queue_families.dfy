/** `QueueFamilyIndices::FindQueueFamilies`: the scan over a device's queue
    families for one that can run graphics commands and one that can present
    to the render surface. */
module QueueFamilies {
  import opened Wrappers

  /** `VK_QUEUE_GRAPHICS_BIT` is 0x1: bit position 0 of `queueFlags`. */
  const VK_QUEUE_GRAPHICS_BIT: nat := 0

  /** A queue family: the bit positions set in its `queueFlags`, and whether
      `vkGetPhysicalDeviceSurfaceSupportKHR` reports that it can present. */
  datatype QueueFamily = QueueFamily(queueFlags: set<nat>, presentSupport: bool)

  datatype QueueFamilyIndices = QueueFamilyIndices(graphics: Option<nat>, presentation: Option<nat>)

  const NotFound: QueueFamilyIndices := QueueFamilyIndices(None, None)

  datatype Capability = Graphics | Presentation

  predicate Has(family: QueueFamily, c: Capability)
  {
    match c
    case Graphics => VK_QUEUE_GRAPHICS_BIT in family.queueFlags
    case Presentation => family.presentSupport
  }

  /** No family before index `n` has the capability. */
  predicate NoneBefore(families: seq<QueueFamily>, n: nat, c: Capability)
  {
    forall j :: 0 <= j < n && j < |families| ==> !Has(families[j], c)
  }

  /** `o` is what a scan of the first `n` families that overwrites on every
      capable family leaves: the last capable index, or nothing. */
  predicate LastBefore(families: seq<QueueFamily>, n: nat, c: Capability, o: Option<nat>)
    requires n <= |families|
  {
    match o
    case None => NoneBefore(families, n, c)
    case Some(i) => i < n && Has(families[i], c) && forall j :: i < j < n ==> !Has(families[j], c)
  }

  /** After family `m` the scan has not yet seen both capabilities. */
  predicate NotBothThrough(families: seq<QueueFamily>, m: nat)
  {
    NoneBefore(families, m + 1, Graphics) || NoneBefore(families, m + 1, Presentation)
  }

  predicate Complete(r: QueueFamilyIndices)
  {
    r.graphics.Some? && r.presentation.Some?
  }

  function Max(a: nat, b: nat): nat
  {
    if a < b then b else a
  }

  /** The scan from index `i` on, with the indices found before `i`. */
  function ScanFrom(families: seq<QueueFamily>, i: nat, acc: QueueFamilyIndices): (r: QueueFamilyIndices)
    requires i <= |families|
    requires LastBefore(families, i, Graphics, acc.graphics)
    requires LastBefore(families, i, Presentation, acc.presentation)
    requires !Complete(acc)
    ensures Complete(r) ==>
      var k := Max(r.graphics.value, r.presentation.value);
      && i <= k < |families|
      && LastBefore(families, k + 1, Graphics, r.graphics)
      && LastBefore(families, k + 1, Presentation, r.presentation)
      && forall m :: 0 <= m < k ==> NotBothThrough(families, m)
    ensures !Complete(r) ==>
      && LastBefore(families, |families|, Graphics, r.graphics)
      && LastBefore(families, |families|, Presentation, r.presentation)
    decreases |families| - i
  {
    if i == |families| then acc
    else
      var next := Step(families, i, acc);
      StepKeepsLast(families, i, acc);
      if Complete(next) then
        assert Max(next.graphics.value, next.presentation.value) == i;
        assert forall m :: 0 <= m < i ==> NotBothThrough(families, m);
        next
      else ScanFrom(families, i + 1, next)
  }

  /** One iteration of the scan: family `i` overwrites each index it has the
      capability for. */
  function Step(families: seq<QueueFamily>, i: nat, acc: QueueFamilyIndices): QueueFamilyIndices
    requires i < |families|
  {
    QueueFamilyIndices(
      if Has(families[i], Graphics) then Some(i) else acc.graphics,
      if Has(families[i], Presentation) then Some(i) else acc.presentation)
  }

  lemma StepKeepsLast(families: seq<QueueFamily>, i: nat, acc: QueueFamilyIndices)
    requires i < |families|
    requires LastBefore(families, i, Graphics, acc.graphics)
    requires LastBefore(families, i, Presentation, acc.presentation)
    ensures LastBefore(families, i + 1, Graphics, Step(families, i, acc).graphics)
    ensures LastBefore(families, i + 1, Presentation, Step(families, i, acc).presentation)
  {
  }

  /** `FindQueueFamilies`: every family in order overwrites the graphics index
      if it has the graphics bit and the presentation index if it can present;
      the scan breaks at the first family after which both are set. */
  function FindQueueFamilies(families: seq<QueueFamily>): (r: QueueFamilyIndices)
    ensures r.graphics.Some? ==> r.graphics.value < |families| && Has(families[r.graphics.value], Graphics)
    ensures r.presentation.Some? ==> r.presentation.value < |families| && Has(families[r.presentation.value], Presentation)
    ensures r.graphics.None? <==> NoneBefore(families, |families|, Graphics)
    ensures r.presentation.None? <==> NoneBefore(families, |families|, Presentation)
    ensures Complete(r) ==>
      var k := Max(r.graphics.value, r.presentation.value);
      && k < |families|
      && LastBefore(families, k + 1, Graphics, r.graphics)
      && LastBefore(families, k + 1, Presentation, r.presentation)
      && forall m :: 0 <= m < k ==> NotBothThrough(families, m)
    ensures !Complete(r) ==>
      && LastBefore(families, |families|, Graphics, r.graphics)
      && LastBefore(families, |families|, Presentation, r.presentation)
  {
    ScanFrom(families, 0, NotFound)
  }

  /** Once both indices are set the scan has stopped: families appended after
      the ones scanned never change the result. */
  lemma {:induction false} ScanFromIgnoresLaterFamilies(families: seq<QueueFamily>, more: seq<QueueFamily>, i: nat, acc: QueueFamilyIndices)
    requires i <= |families|
    requires LastBefore(families, i, Graphics, acc.graphics)
    requires LastBefore(families, i, Presentation, acc.presentation)
    requires !Complete(acc)
    requires Complete(ScanFrom(families, i, acc))
    ensures LastBefore(families + more, i, Graphics, acc.graphics)
    ensures LastBefore(families + more, i, Presentation, acc.presentation)
    ensures ScanFrom(families + more, i, acc) == ScanFrom(families, i, acc)
    decreases |families| - i
  {
    LastBeforeExtends(families, more, i, Graphics, acc.graphics);
    LastBeforeExtends(families, more, i, Presentation, acc.presentation);
    assert i < |families|;
    assert (families + more)[i] == families[i];
    var next := Step(families, i, acc);
    assert Step(families + more, i, acc) == next;
    StepKeepsLast(families, i, acc);
    if !Complete(next) {
      ScanFromIgnoresLaterFamilies(families, more, i + 1, next);
      assert ScanFrom(families, i, acc) == ScanFrom(families, i + 1, next);
      assert ScanFrom(families + more, i, acc) == ScanFrom(families + more, i + 1, next);
    }
  }

  lemma LastBeforeExtends(families: seq<QueueFamily>, more: seq<QueueFamily>, n: nat, c: Capability, o: Option<nat>)
    requires n <= |families| && LastBefore(families, n, c, o)
    ensures LastBefore(families + more, n, c, o)
  {
    assert forall j :: 0 <= j < n ==> (families + more)[j] == families[j];
  }

  lemma ScanIgnoresLaterFamilies(families: seq<QueueFamily>, more: seq<QueueFamily>)
    requires Complete(FindQueueFamilies(families))
    ensures FindQueueFamilies(families + more) == FindQueueFamilies(families)
  {
    ScanFromIgnoresLaterFamilies(families, more, 0, NotFound);
  }

  /** A first family that can do both gives (0, 0). */
  lemma FirstFamilyDoingBoth(families: seq<QueueFamily>)
    requires |families| > 0 && Has(families[0], Graphics) && Has(families[0], Presentation)
    ensures FindQueueFamilies(families) == QueueFamilyIndices(Some(0), Some(0))
  {
    var r := FindQueueFamilies(families);
    assert Complete(r);
  }

  /** The overwriting scan keeps the last graphics family before the stop:
      [graphics, graphics, present] gives (1, 2). */
  lemma GraphicsGraphicsPresent(g: QueueFamily, p: QueueFamily)
    requires Has(g, Graphics) && !Has(g, Presentation)
    requires Has(p, Presentation) && !Has(p, Graphics)
    ensures FindQueueFamilies([g, g, p]) == QueueFamilyIndices(Some(1), Some(2))
  {
    var f := [g, g, p];
    var r := FindQueueFamilies(f);
    assert Has(f[0], Graphics) && Has(f[2], Presentation);
    assert Complete(r);
    assert r.presentation == Some(2);
    assert Has(f[1], Graphics);
  }
}
