/**
 * Locating the pedal: the input devices are enumerated in order, and the first
 * one whose reported name equals the configured name is used.
 */
module Locator {
  import opened Optional

  /** The configured device name, compared for exact equality. */
  const DEVICE_NAME: string := "Your Pedal Device Name"

  /** Index of the first name equal to wanted, or None when no name matches. */
  function FirstMatch(names: seq<string>, wanted: string): (r: Option<nat>)
    ensures r.Some? ==> r.value < |names| && names[r.value] == wanted
    ensures r.Some? ==> forall j :: 0 <= j < r.value ==> names[j] != wanted
    ensures r.None? <==> wanted !in names
  {
    if names == [] then None
    else if names[0] == wanted then Some(0)
    else
      match FirstMatch(names[1..], wanted)
      case None => None
      case Some(i) => Some(i + 1)
  }

  /**
   * The device search of the daemon: walks the enumerated devices in order and
   * returns at the first whose name is DEVICE_NAME.
   */
  method FindPedal(names: seq<string>) returns (r: Option<nat>)
    ensures r == FirstMatch(names, DEVICE_NAME)
  {
    for i := 0 to |names|
      invariant forall j :: 0 <= j < i ==> names[j] != DEVICE_NAME
    {
      if names[i] == DEVICE_NAME {
        return Some(i);
      }
    }
    return None;
  }

  /**
   * When exactly one device carries the configured name, it is the one found,
   * wherever the other devices stand in the enumeration.
   */
  lemma UniqueMatchFound(names: seq<string>, wanted: string, i: nat)
    requires i < |names| && names[i] == wanted
    requires forall j :: 0 <= j < |names| && j != i ==> names[j] != wanted
    ensures FirstMatch(names, wanted) == Some(i)
  {
  }

  /** Whether a device is found does not depend on the enumeration order. */
  lemma FoundIndependentOfOrder(names: seq<string>, other: seq<string>, wanted: string)
    requires multiset(names) == multiset(other)
    ensures FirstMatch(names, wanted).Some? <==> FirstMatch(other, wanted).Some?
  {
    assert wanted in names <==> wanted in multiset(names);
    assert wanted in other <==> wanted in multiset(other);
  }
}
