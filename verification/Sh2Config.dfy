/**
 * Sensor configurations as they travel in Set Feature requests and Get Feature responses
 * (sh2.c, setSensorConfigStart, getSensorConfigRx, sensorhubControlHdlr).
 */
module Sh2Config {
  import opened Bytes

  const SENSORHUB_SET_FEATURE_CMD: byte := 0xFD
  const SENSORHUB_GET_FEATURE_RESP: byte := 0xFC
  const FEATURE_LEN := 17

  datatype SensorConfig = SensorConfig(
    changeSensitivityEnabled: bool, changeSensitivityRelative: bool, wakeupEnabled: bool, alwaysOnEnabled: bool,
    changeSensitivity: u16, reportInterval: u32, batchInterval: u32, sensorSpecific: u32)

  datatype Feature = Feature(sensorId: byte, config: SensorConfig)

  /** Whether a flag is set. */
  predicate Flag(flags: byte, weight: nat)
    requires weight > 0
  {
    flags / weight % 2 == 1
  }

  /** The feature a response reports: a sensor and its configuration. */
  function FeatureIn(p: bytes): Feature
    requires |p| >= FEATURE_LEN
  {
    Feature(p[1], SensorConfig(Flag(p[2], 2), Flag(p[2], 1), Flag(p[2], 4), Flag(p[2], 8),
                               ReadU16(p[3..]), ReadU32(p[5..]), ReadU32(p[9..]), ReadU32(p[13..])))
  }

  /** Field by field: the sensor's id, the flags by their weights, and the little-endian numbers. */
  lemma FeatureFields(p: bytes)
    requires |p| >= 17
    ensures var f := FeatureIn(p);
      && f.sensorId == p[1]
      && (f.config.changeSensitivityRelative <==> p[2] % 2 == 1)
        && (f.config.changeSensitivityEnabled <==> p[2] / 2 % 2 == 1)
      && (f.config.wakeupEnabled <==> p[2] / 4 % 2 == 1) && (f.config.alwaysOnEnabled <==> p[2] / 8 % 2 == 1)
      && f.config.changeSensitivity == p[3] as int + 256 * p[4] as int
      && f.config.reportInterval == p[5] as int + 256 * (p[6] as int + 256 * (p[7] as int + 256 * p[8] as int))
      && f.config.batchInterval == p[9] as int + 256 * (p[10] as int + 256 * (p[11] as int + 256 * p[12] as int))
      && f.config.sensorSpecific == p[13] as int + 256 * (p[14] as int + 256 * (p[15] as int + 256 * p[16] as int))
  {
  }

  function Flags(c: SensorConfig): byte {
    (if c.changeSensitivityEnabled then 2 else 0) + (if c.changeSensitivityRelative then 1 else 0)
    + (if c.wakeupEnabled then 4 else 0) + (if c.alwaysOnEnabled then 8 else 0)
  }

  function PutU16(x: u16): (p: bytes)
    ensures |p| == 2
  {
    [x % 0x100, x / 0x100]
  }

  function PutU32(x: u32): (p: bytes)
    ensures |p| == 4
  {
    PutU16(x % 0x1_0000) + PutU16(x / 0x1_0000)
  }

  /** What setSensorConfigStart sends. */
  function SetFeature(f: Feature): (p: bytes)
    ensures |p| == FEATURE_LEN
  {
    [SENSORHUB_SET_FEATURE_CMD, f.sensorId, Flags(f.config)] + PutU16(f.config.changeSensitivity)
      + PutU32(f.config.reportInterval) + PutU32(f.config.batchInterval) + PutU32(f.config.sensorSpecific)
  }

  lemma U32RoundTrip(x: u32, more: bytes)
    ensures ReadU32(PutU32(x) + more) == x
  {
    assert x == x / 0x1_0000 * 0x1_0000 + x % 0x1_0000;
  }

  lemma FlagsRoundTrip(c: SensorConfig)
    ensures Flag(Flags(c), 2) == c.changeSensitivityEnabled && Flag(Flags(c), 1) == c.changeSensitivityRelative
    ensures Flag(Flags(c), 4) == c.wakeupEnabled && Flag(Flags(c), 8) == c.alwaysOnEnabled
  {
  }

  /** The configuration a hub reports back, with the fields of the request, is the one that was
      set, whatever follows it in memory. */
  lemma SetThenReported(f: Feature, more: bytes)
    ensures SetFeature(f)[0] == 0xFD && FeatureIn(SetFeature(f)[0 := 0xFC] + more) == f
  {
    var c, p := f.config, SetFeature(f)[0 := SENSORHUB_GET_FEATURE_RESP] + more;
    var c0, c1, c2, c3 := PutU16(c.changeSensitivity), PutU32(c.reportInterval), PutU32(c.batchInterval),
      PutU32(c.sensorSpecific);
    FlagsRoundTrip(c);
    assert p[3..] == c0 + (c1 + c2 + c3 + more);
    assert p[5..] == c1 + (c2 + c3 + more);
    assert p[9..] == c2 + (c3 + more);
    assert p[13..] == c3 + more;
    U32RoundTrip(c.reportInterval, c2 + c3 + more);
    U32RoundTrip(c.batchInterval, c3 + more);
    U32RoundTrip(c.sensorSpecific, more);
  }
}
