/** The AppContainer options of a launch and their shared validity check
    (src/common/AppContainerOptions.h). */
module AppContainer {
  import opened Text

  const MAXIMUM_CAPABILITIES: nat := 32
  const MAXIMUM_CAPABILITY_LENGTH: nat := 128

  datatype AppContainerOptions = AppContainerOptions(enabled: bool, capabilities: seq<Wide>)

  predicate IsCapabilityUnit(c: Unit) {
    0x61 <= c <= 0x7A || 0x41 <= c <= 0x5A || 0x30 <= c <= 0x39 || c == 0x2D || c == 0x5F || c == 0x2E
  }

  predicate IsAppContainerCapability(value: Wide) {
    0 < |value| <= MAXIMUM_CAPABILITY_LENGTH && forall i :: 0 <= i < |value| ==> IsCapabilityUnit(value[i])
  }

  predicate IsValidAppContainerOptions(o: AppContainerOptions) {
    && (o.enabled || o.capabilities == [])
    && |o.capabilities| <= MAXIMUM_CAPABILITIES
    && (forall i :: 0 <= i < |o.capabilities| ==> IsAppContainerCapability(o.capabilities[i]))
    && (forall i, j :: 0 <= i < j < |o.capabilities| ==> o.capabilities[i] != o.capabilities[j])
  }

  method CheckAppContainerOptions(o: AppContainerOptions) returns (valid: bool)
    ensures valid == IsValidAppContainerOptions(o)
  {
    if (!o.enabled && |o.capabilities| > 0) || |o.capabilities| > MAXIMUM_CAPABILITIES {
      return false;
    }
    for index := 0 to |o.capabilities|
      invariant IsValidAppContainerOptions(o.(capabilities := o.capabilities[..index]))
    {
      if !IsAppContainerCapability(o.capabilities[index]) || o.capabilities[index] in o.capabilities[..index] {
        return false;
      }
    }
    assert o.capabilities[..|o.capabilities|] == o.capabilities;
    return true;
  }
}
