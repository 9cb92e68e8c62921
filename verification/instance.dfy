/** `Instance` of the legacy Vulkan layer: the checks that the instance
    extensions GLFW needs and the Khronos validation layer are available.
    Names are compared with `strcmp`, which on NUL-terminated names without
    embedded NULs is equality of the character sequences. */
module Instance {

  /** The layer list the instance enables in debug builds. */
  const ValidationLayers: seq<string> := ["VK_LAYER_KHRONOS_validation"]

  /** Every required name equals some available name. */
  predicate AllFound(required: seq<string>, available: seq<string>)
  {
    forall i :: 0 <= i < |required| ==> required[i] in available
  }

  /** The nested search both checks run: for each required name in order, a
      scan of the available names that breaks at the first match; the first
      required name without a match ends the search with false. */
  method FindAll(required: seq<string>, available: seq<string>) returns (r: bool)
    ensures r <==> AllFound(required, available)
  {
    var i := 0;
    while i < |required|
      invariant 0 <= i <= |required|
      invariant forall k :: 0 <= k < i ==> required[k] in available
    {
      var name := required[i];
      var found := false;
      var j := 0;
      while j < |available|
        invariant 0 <= j <= |available|
        invariant found ==> name in available
        invariant !found ==> name !in available[..j]
      {
        if name == available[j] {
          found := true;
          break;
        }
        j := j + 1;
      }
      if !found {
        assert available[..j] == available;
        return false;
      }
      i := i + 1;
    }
    return true;
  }

  /** `CheckRequiredExtensions`: true iff every extension GLFW requires is
      among the instance extensions; no requirement at all gives true. */
  method CheckRequiredExtensions(requiredExtensions: seq<string>, extensions: seq<string>) returns (r: bool)
    ensures r <==> forall i :: 0 <= i < |requiredExtensions| ==> requiredExtensions[i] in extensions
    ensures |requiredExtensions| == 0 ==> r
  {
    r := FindAll(requiredExtensions, extensions);
  }

  /** `CheckValidationLayerSupport`: true iff the Khronos validation layer is
      among the available layers. */
  method CheckValidationLayerSupport(availableLayers: seq<string>) returns (r: bool)
    ensures r <==> "VK_LAYER_KHRONOS_validation" in availableLayers
  {
    r := FindAll(ValidationLayers, availableLayers);
    assert ValidationLayers[0] == "VK_LAYER_KHRONOS_validation";
  }

  /** The check depends only on which names are listed: it is the subset
      test, so order and repetitions on either side do not matter, and a
      missing name decides it whatever follows. */
  lemma AllFoundIsSubset(required: seq<string>, available: seq<string>, rest: seq<string>)
    ensures AllFound(required, available) <==> (set i | 0 <= i < |required| :: required[i]) <= (set j | 0 <= j < |available| :: available[j])
    ensures |required| > 0 && required[0] !in available ==> !AllFound(required + rest, available)
  {
    var req := set i | 0 <= i < |required| :: required[i];
    var av := set j | 0 <= j < |available| :: available[j];
    if AllFound(required, available) {
      forall x | x in req ensures x in av {
        var i :| 0 <= i < |required| && required[i] == x;
        var j :| 0 <= j < |available| && available[j] == x;
      }
    } else {
      var i :| 0 <= i < |required| && required[i] !in available;
      assert required[i] in req;
      assert required[i] !in av;
    }
    if |required| > 0 && required[0] !in available {
      assert (required + rest)[0] == required[0];
    }
  }
}
