/**
 * Construction of a handle (open, then mode, bits per word and speed) and the
 * read-back of a cached setting, as functions of the device's answers.
 */
module Config {
  import opened Types
  import opened Spidev

  /** The device's answers to the calls made while a handle is constructed. */
  datatype DeviceAnswers = DeviceAnswers(opens: bool, acceptsMode: bool, acceptsBits: bool, acceptsSpeed: bool)

  datatype ConfigStep = ModeStep | BitsStep | SpeedStep

  /** Why no handle was returned (the C++ code returns NULL or throws). */
  datatype AcquireError =
    | InvalidChannel                          // channel > 1: GetInstance returns NULL
    | DeviceUnavailable                       // open failed: "Could not open device!"
    | ConfigurationRejected(step: ConfigStep) // a setter failed during construction

  /** Every call construction makes when the device accepts all of them, in order. */
  function FullConfig(channel: Channel, mode: int32, bits: byte, speed: int32): seq<Call>
  {
    [Open(DevicePath(channel)), WrMode(mode), WrBitsPerWord(bits), WrMaxSpeed(speed)]
  }

  /**
   * The calls construction makes: open, then mode, then bits per word, then
   * speed, stopping after the first one the device refuses. The open is
   * always attempted.
   */
  function ConfigCalls(channel: Channel, mode: int32, bits: byte, speed: int32, a: DeviceAnswers): (r: seq<Call>)
    ensures r <= FullConfig(channel, mode, bits, speed)
    ensures r == [Open(DevicePath(channel))] <==> !a.opens
  {
    [Open(DevicePath(channel))]
    + if !a.opens then []
      else
        [WrMode(mode)]
        + if !a.acceptsMode then []
          else [WrBitsPerWord(bits)] + if !a.acceptsBits then [] else [WrMaxSpeed(speed)]
  }

  /** The outcome of construction: None when the handle is fully configured. */
  function ConfigFailure(a: DeviceAnswers): (r: Option<AcquireError>)
    ensures r.None? <==> a.opens && a.acceptsMode && a.acceptsBits && a.acceptsSpeed
    ensures r == Some(DeviceUnavailable) <==> !a.opens
    ensures r.Some? && r.value.ConfigurationRejected? ==>
      match r.value.step
      case ModeStep => a.opens && !a.acceptsMode
      case BitsStep => a.opens && a.acceptsMode && !a.acceptsBits
      case SpeedStep => a.opens && a.acceptsMode && a.acceptsBits && !a.acceptsSpeed
  {
    if !a.opens then Some(DeviceUnavailable)
    else if !a.acceptsMode then Some(ConfigurationRejected(ModeStep))
    else if !a.acceptsBits then Some(ConfigurationRejected(BitsStep))
    else if !a.acceptsSpeed then Some(ConfigurationRejected(SpeedStep))
    else None
  }

  /** The call a configuration step makes. */
  function StepCall(step: ConfigStep, mode: int32, bits: byte, speed: int32): Call
  {
    match step
    case ModeStep => WrMode(mode)
    case BitsStep => WrBitsPerWord(bits)
    case SpeedStep => WrMaxSpeed(speed)
  }

  /**
   * Construction succeeds exactly when every call of the full sequence was
   * made and accepted; when a step is refused, its call is the last one made,
   * and nothing is configured after it.
   */
  lemma ConfigurationOrder(channel: Channel, mode: int32, bits: byte, speed: int32, a: DeviceAnswers)
    ensures ConfigFailure(a).None? <==> ConfigCalls(channel, mode, bits, speed, a) == FullConfig(channel, mode, bits, speed) && a.acceptsSpeed
    ensures ConfigFailure(a) == Some(DeviceUnavailable) <==> ConfigCalls(channel, mode, bits, speed, a) == [Open(DevicePath(channel))]
    ensures ConfigFailure(a).Some? && ConfigFailure(a).value.ConfigurationRejected? ==>
      var calls := ConfigCalls(channel, mode, bits, speed, a);
      calls != [] && calls[|calls| - 1] == StepCall(ConfigFailure(a).value.step, mode, bits, speed)
  {
  }

  /** What a getter reports and what it leaves cached, with the call it makes. */
  datatype Readout = Readout(call: Call, result: int32, cached: int32)

  /**
   * A getter as intended: the read request; on success the device's value is
   * cached and returned, on failure -1 is returned and the cache is kept.
   */
  function ReadBack(request: Call, transportOk: bool, deviceValue: int32, cached: int32): (r: Readout)
    ensures r.call == request
    ensures transportOk ==> r.result == deviceValue && r.cached == deviceValue
    ensures !transportOk ==> r.result == -1 && r.cached == cached
  {
    if transportOk then Readout(request, deviceValue, deviceValue) else Readout(request, -1, cached)
  }

  /**
   * GetSpeed as the source writes it: it issues SPI_IOC_WR_MAX_SPEED_HZ on a
   * local holding 0. A write request copies nothing back, so on success the
   * local is still 0, and 0 is cached and returned whatever the device's speed.
   */
  function GetSpeedAsWritten(transportOk: bool, deviceSpeed: int32, cached: int32): (r: Readout)
    ensures r.call == WrMaxSpeed(0)
    ensures transportOk ==> r.result == 0 && r.cached == 0
    ensures !transportOk ==> r.result == -1 && r.cached == cached
  {
    var speed := 0;
    if transportOk then Readout(WrMaxSpeed(speed), speed, speed) else Readout(WrMaxSpeed(speed), -1, cached)
  }

  /**
   * A device running at 500 kHz: GetSpeed as written asks to set the clock
   * to 0 and reports 0; the intended read-back reports 500000.
   */
  lemma GetSpeedAsWrittenMisreports()
    ensures GetSpeedAsWritten(true, 500000, 500000) == Readout(WrMaxSpeed(0), 0, 0)
    ensures ReadBack(RdMaxSpeed, true, 500000, 500000) == Readout(RdMaxSpeed, 500000, 500000)
  {
  }
}
