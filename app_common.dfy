// Shared application definitions: the feature bit masks and feature list, the
// feature-cycling searches, and the device-active and calibration flags.

module Features {
  import opened Bytes

  // Bit masks of the enabled-features byte.
  const PowerOnOffMask: byte := 0x01
  const OutCtrlToBtModuleMask: byte := 0x02
  const NextFunctionMask: byte := 0x04
  const NextProfileMask: byte := 0x08
  const SoundEnabledMask: byte := 0x10
  const PowerUpInIdleMask: byte := 0x20
  const RnetSeatingMask: byte := 0x80

  // Bit masks of the second enabled-features byte.
  const RnetSleepMask: byte := 0x01
  const ModeReverseMask: byte := 0x02

  // FunctionalFeature_t: the features left in the list.
  const FeatureDriving: nat := 0
  const FeatureOutCtrlToBtModule: nat := 1
  /** FUNC_FEATURE_EOL: the number of features. */
  const FeatureEol: nat := 2

  type Feature = f: nat | f <= FeatureEol
}

module AppCommon {
  import opened Features

  /**
   * appCommonFeatureIsEnabled: the test of the enabled-features byte is
   * commented out and the function reports every feature disabled.
   */
  function FeatureIsEnabled(feature: Feature): bool
  {
    false
  }

  /** The answers of appCommonFeatureIsEnabled, feature by feature. */
  function EnabledTable(): (t: seq<bool>)
    ensures |t| == FeatureEol
  {
    seq(FeatureEol, f requires 0 <= f < FeatureEol => FeatureIsEnabled(f))
  }

  /** appCommonGetCurrentFeature: the EEPROM read is commented out; it reports the first feature. */
  function GetCurrentFeature(): Feature
  {
    FeatureDriving
  }

  /**
   * appCommonGetNextFeature: checks DRIVING + 1, DRIVING + 2, ... wrapping
   * to 0, each feature once, and answers the first enabled one, or EOL.
   * `enabled` holds the answers of appCommonFeatureIsEnabled.
   */
  method GetNextFeature(enabled: seq<bool>) returns (r: Feature)
    requires |enabled| == FeatureEol
    ensures r == FeatureEol <==> forall f :: 0 <= f < FeatureEol ==> !enabled[f]
    ensures r < FeatureEol ==> enabled[r]
    ensures r > FeatureDriving ==> forall f :: FeatureDriving < f < r ==> !enabled[f]
    ensures r == FeatureDriving ==> forall f :: FeatureDriving < f < FeatureEol ==> !enabled[f]
  {
    var next: Feature := FeatureDriving;
    var checked := 0;
    while checked < FeatureEol
      invariant 0 <= checked <= FeatureEol && next == checked % FeatureEol
      invariant forall f :: 1 <= f <= checked && f < FeatureEol ==> !enabled[f]
      invariant checked == FeatureEol ==> !enabled[0]
    {
      next := if next >= FeatureEol - 1 then 0 else next + 1;
      if enabled[next] {
        return next;
      }
      checked := checked + 1;
    }
    return FeatureEol;
  }

  /**
   * appCommonGetPreviousEnabledFeature: checks DRIVING - 1 (wrapping to the
   * last feature), then downwards, each feature once; answers the first
   * enabled one, or the last feature checked when none is.
   */
  method GetPreviousEnabledFeature(enabled: seq<bool>) returns (r: Feature)
    requires |enabled| == FeatureEol
    ensures r < FeatureEol
    ensures (exists f :: 0 <= f < FeatureEol && enabled[f]) ==>
      enabled[r] && forall f :: r < f < FeatureEol ==> !enabled[f]
    ensures (forall f :: 0 <= f < FeatureEol ==> !enabled[f]) ==> r == FeatureDriving
  {
    var feature: Feature := FeatureDriving;
    var checked := 0;
    while checked < FeatureEol
      invariant 0 <= checked <= FeatureEol
      invariant feature == (FeatureEol - checked) % FeatureEol
      invariant forall f :: FeatureEol - checked <= f < FeatureEol ==> !enabled[f]
    {
      if feature == 0 {
        feature := FeatureEol - 1;
      } else {
        feature := feature - 1;
      }
      if enabled[feature] {
        return feature;
      }
      checked := checked + 1;
    }
    return feature;
  }

  /**
   * With every feature reported disabled, as the firmware now does, the next
   * feature is always EOL and the previous one always DRIVING.
   */
  method FeatureCyclingToday() returns (next: Feature, previous: Feature)
    ensures next == FeatureEol && previous == FeatureDriving
  {
    next := GetNextFeature(EnabledTable());
    previous := GetPreviousEnabledFeature(EnabledTable());
  }

  /** The module's device-active and calibration flags. */
  class Flags {
    var deviceIsActive: bool
    var deviceInCalibration: bool

    /** AppCommonInit: both flags cleared. */
    constructor ()
      ensures !deviceIsActive && !deviceInCalibration
    {
      deviceIsActive := false;
      deviceInCalibration := false;
    }

    /** AppCommonInit on the existing module. */
    method Init()
      modifies this
      ensures !deviceIsActive && !deviceInCalibration
    {
      deviceIsActive := false;
      deviceInCalibration := false;
    }

    /**
     * AppCommonDeviceActiveSet. `requestNeutralTest` stands for the call to
     * SetNeedForNeutralTest: made only on an inactive-to-active transition.
     */
    method DeviceActiveSet(isActive: bool) returns (requestNeutralTest: bool)
      modifies this
      ensures requestNeutralTest == (!old(deviceIsActive) && isActive)
      ensures deviceIsActive == isActive && deviceInCalibration == old(deviceInCalibration)
    {
      requestNeutralTest := false;
      if !deviceIsActive {
        if isActive {
          requestNeutralTest := true;
        }
      }
      deviceIsActive := isActive;
    }

    /** AppCommonForceActiveState: sets the flag and never requests a neutral test. */
    method ForceActiveState(isActive: bool)
      modifies this
      ensures deviceIsActive == isActive && deviceInCalibration == old(deviceInCalibration)
    {
      deviceIsActive := isActive;
    }

    function DeviceActiveGet(): bool
      reads this
    {
      deviceIsActive
    }

    method CalibrationActiveSet(putIntoCalibration: bool)
      modifies this
      ensures deviceInCalibration == putIntoCalibration && deviceIsActive == old(deviceIsActive)
    {
      deviceInCalibration := putIntoCalibration;
    }

    function CalibrationActiveGet(): bool
      reads this
    {
      deviceInCalibration
    }
  }
}
