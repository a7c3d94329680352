/**
 * The PiSPI class: a handle on one SPI channel, with its cached settings and
 * its three transfer operations, and the process-wide registry (the class's
 * static arrays) that hands out one shared handle per channel.
 */
module Spi {
  import opened Types
  import opened Transfer
  import opened Spidev
  import opened Config
  import Lifecycle

  /** The bits per word used when the caller gives none. */
  const DEFAULT_BITS_PER_WORD: byte := 8

  /** A handle on one channel: what one PiSPI object holds. */
  class PiSpi {
    const channel: Channel   // set once, at construction
    const dev: Device        // the channel's device node
    var speed: int32         // cached clock speed
    var bitsPerWord: byte    // cached bits per word
    var mode: int32          // cached SPI mode
    var isOpen: bool         // the file descriptor refers to an open device

    /** The field initialisation before the device is opened. */
    constructor (channel: Channel, dev: Device)
      ensures this.channel == channel && this.dev == dev && !isOpen
    {
      this.channel := channel;
      this.dev := dev;
      speed, bitsPerWord, mode := 0, 0, 0;
      isOpen := false;
    }

    /** The open(2) of the channel's node; `succeeds` is the kernel's answer. */
    method OpenDevice(succeeds: bool)
      requires !isOpen
      modifies this`isOpen, dev
      ensures isOpen == succeeds
      ensures dev.calls == old(dev.calls) + [Open(DevicePath(channel))]
    {
      dev.calls := dev.calls + [Open(DevicePath(channel))];
      isOpen := succeeds;
    }

    /** The destructor: close(2) on the descriptor. */
    method CloseDevice()
      requires isOpen
      modifies this`isOpen, dev
      ensures !isOpen
      ensures dev.calls == old(dev.calls) + [Close]
    {
      dev.calls := dev.calls + [Close];
      isOpen := false;
    }

    /** One ioctl on the open descriptor. */
    method Submit(call: Call)
      requires isOpen
      modifies dev
      ensures dev.calls == old(dev.calls) + [call]
    {
      dev.calls := dev.calls + [call];
    }

    /**
     * The private constructor: open the node, then apply the mode, the bits
     * per word and the speed, in this order, giving up at the first failure
     * (the C++ code throws). The descriptor opened before a failed setting
     * is not closed.
     */
    static method Create(dev: Device, channel: Channel, speed: int32, mode: int32, bitsPerWord: byte,
                         answers: DeviceAnswers)
      returns (r: Result<PiSpi, AcquireError>)
      requires dev.node == channel
      modifies dev
      ensures dev.calls == old(dev.calls) + ConfigCalls(channel, mode, bitsPerWord, speed, answers)
      ensures r.Err? <==> ConfigFailure(answers).Some?
      ensures r.Err? ==> r.error == ConfigFailure(answers).value
      ensures r.Ok? ==> && fresh(r.value) && r.value.channel == channel && r.value.dev == dev && r.value.isOpen
                        && r.value.mode == mode && r.value.bitsPerWord == bitsPerWord && r.value.speed == speed
    {
      var h := new PiSpi(channel, dev);
      h.OpenDevice(answers.opens);
      if !answers.opens {
        return Err(DeviceUnavailable);
      }
      var ok := h.SetMode(mode, answers.acceptsMode);
      if !ok {
        return Err(ConfigurationRejected(ModeStep));
      }
      ok := h.SetBitsPerWord(bitsPerWord, answers.acceptsBits);
      if !ok {
        return Err(ConfigurationRejected(BitsStep));
      }
      ok := h.SetSpeed(speed, answers.acceptsSpeed);
      if !ok {
        return Err(ConfigurationRejected(SpeedStep));
      }
      r := Ok(h);
    }

    /** SetBitsPerWord: the cached value follows the argument exactly when the device accepts it. */
    method SetBitsPerWord(bits: byte, transportOk: bool) returns (ok: bool)
      requires isOpen
      modifies this`bitsPerWord, dev
      ensures ok == transportOk
      ensures dev.calls == old(dev.calls) + [WrBitsPerWord(bits)]
      ensures bitsPerWord == if ok then bits else old(bitsPerWord)
    {
      Submit(WrBitsPerWord(bits));
      if transportOk {
        bitsPerWord := bits;
        return true;
      }
      return false;
    }

    /** GetBitsPerWord: the read-back value, or -1 returned through uint8_t, which is 255. */
    method GetBitsPerWord(transportOk: bool, deviceBits: byte) returns (r: byte)
      requires isOpen
      modifies this`bitsPerWord, dev
      ensures dev.calls == old(dev.calls) + [RdBitsPerWord]
      ensures transportOk ==> r == deviceBits && bitsPerWord == deviceBits
      ensures !transportOk ==> r == 255 && bitsPerWord == old(bitsPerWord)
    {
      Submit(RdBitsPerWord);
      if !transportOk {
        MinusOneAsUint8();
        return ToUint8(-1);
      }
      bitsPerWord := deviceBits;
      r := bitsPerWord;
    }

    /** SetSpeed: the cached value follows the argument exactly when the device accepts it. */
    method SetSpeed(hz: int32, transportOk: bool) returns (ok: bool)
      requires isOpen
      modifies this`speed, dev
      ensures ok == transportOk
      ensures dev.calls == old(dev.calls) + [WrMaxSpeed(hz)]
      ensures speed == if ok then hz else old(speed)
    {
      Submit(WrMaxSpeed(hz));
      if transportOk {
        speed := hz;
        return true;
      }
      return false;
    }

    /**
     * GetSpeed with a genuine read-back request (the source issues the write
     * request here; see Config.GetSpeedAsWritten).
     */
    method GetSpeed(transportOk: bool, deviceSpeed: int32) returns (r: int32)
      requires isOpen
      modifies this`speed, dev
      ensures dev.calls == old(dev.calls) + [RdMaxSpeed]
      ensures Readout(RdMaxSpeed, r, speed) == ReadBack(RdMaxSpeed, transportOk, deviceSpeed, old(speed))
    {
      Submit(RdMaxSpeed);
      if !transportOk {
        return -1;
      }
      speed := deviceSpeed;
      r := speed;
    }

    /**
     * Write: the register byte followed by data[0..length) as one record; a
     * NULL data pointer is refused before anything is submitted.
     */
    method Write(reg: byte, data: array?<byte>, length: size_t, transportOk: bool) returns (ok: bool)
      requires isOpen
      requires data != null ==> length <= data.Length
      modifies dev
      ensures data == null ==> !ok && dev.calls == old(dev.calls)
      ensures data != null ==> ok == transportOk && dev.calls == old(dev.calls) + [Message(WriteBatch(reg, data[..length]))]
    {
      if data == null {
        return false;
      }
      var frame := BuildFrame(reg, data, length);
      var spi := Descriptor(Some(Bytes(frame)), None, ToU32(1 + length), false);
      Submit(Message([spi]));
      ok := transportOk;
    }

    /**
     * Read: the register byte out, then `length` bytes into `buf`, as one
     * two-record message; a NULL buffer is refused before anything is
     * submitted. What the device stores in `buf` is not modelled.
     */
    method Read(reg: byte, buf: array?<byte>, length: size_t, transportOk: bool) returns (ok: bool)
      requires isOpen
      modifies dev, buf
      ensures buf == null ==> !ok && dev.calls == old(dev.calls)
      ensures buf != null ==> ok == transportOk && dev.calls == old(dev.calls) + [Message(ReadBatch(reg, buf, length))]
    {
      if buf == null {
        return false;
      }
      var first := Descriptor(Some(Bytes([reg])), None, 1, false);
      var second := Descriptor(None, Some(buf), ToU32(length), false);
      Submit(Message([first, second]));
      ok := transportOk;
    }

    /**
     * SyncReadWrite: one record whose source and destination are both `buf`;
     * a NULL buffer is refused before anything is submitted. What the device
     * stores in `buf` is not modelled.
     */
    method SyncReadWrite(buf: array?<byte>, length: size_t, transportOk: bool) returns (ok: bool)
      requires isOpen
      modifies dev, buf
      ensures buf == null ==> !ok && dev.calls == old(dev.calls)
      ensures buf != null ==> ok == transportOk && dev.calls == old(dev.calls) + [Message(SyncBatch(buf, length))]
    {
      if buf == null {
        return false;
      }
      var spi := Descriptor(Some(Caller(buf)), Some(buf), ToU32(length), false);
      Submit(Message([spi]));
      ok := transportOk;
    }

    /** SetMode: the cached value follows the argument exactly when the device accepts it. */
    method SetMode(m: int32, transportOk: bool) returns (ok: bool)
      requires isOpen
      modifies this`mode, dev
      ensures ok == transportOk
      ensures dev.calls == old(dev.calls) + [WrMode(m)]
      ensures mode == if ok then m else old(mode)
    {
      Submit(WrMode(m));
      if transportOk {
        mode := m;
        return true;
      }
      return false;
    }

    /** GetMode: the read-back value, cached, or -1 with the cache kept. */
    method GetMode(transportOk: bool, deviceMode: int32) returns (r: int32)
      requires isOpen
      modifies this`mode, dev
      ensures dev.calls == old(dev.calls) + [RdMode]
      ensures Readout(RdMode, r, mode) == ReadBack(RdMode, transportOk, deviceMode, old(mode))
    {
      Submit(RdMode);
      if !transportOk {
        return -1;
      }
      mode := deviceMode;
      r := mode;
    }
  }

  /**
   * The class's static state: for channels 0 and 1, the instance pointer
   * (_pInstance) and the reference counter (_u32InstanceCounter), plus the
   * two device nodes.
   */
  class Registry {
    const devices: seq<Device>
    const instance: array<PiSpi?>
    const counter: array<nat>

    ghost predicate Valid()
      reads instance, counter, (set c | 0 <= c < instance.Length && instance[c] != null :: instance[c])`isOpen
    {
      && |devices| == 2 && instance.Length == 2 && counter.Length == 2
      && (forall c :: 0 <= c < 2 ==> devices[c].node == c)
      && (forall c :: 0 <= c < 2 ==> (instance[c] == null <==> counter[c] == 0))
      && (forall c :: 0 <= c < 2 && instance[c] != null ==>
            instance[c].channel == c && instance[c].dev == devices[c] && instance[c].isOpen)
    }

    /** The slot of channel c, as a value. */
    function View(c: Channel): Lifecycle.Slot
      reads instance, counter
      requires instance.Length == 2 && counter.Length == 2
    {
      Lifecycle.Slot(instance[c] != null, counter[c])
    }

    /** Each slot of a valid registry obeys the slot invariant the lifecycle lemmas assume. */
    lemma ViewConsistent(c: Channel)
      requires Valid()
      ensures Lifecycle.Consistent(View(c))
    {
    }

    /** The static initialisers: both pointers NULL, both counters 0. */
    constructor ()
      ensures Valid() && fresh(instance) && fresh(counter)
      ensures View(0) == Lifecycle.Empty && View(1) == Lifecycle.Empty
      ensures forall c :: 0 <= c < 2 ==> fresh(devices[c]) && devices[c].calls == []
    {
      var d0 := new Device(0);
      var d1 := new Device(1);
      devices := [d0, d1];
      instance := new PiSpi?[2](_ => null);
      counter := new nat[2](_ => 0);
    }

    /**
     * GetInstance: channels above 1 are refused with nothing changed; a
     * stored instance is returned again without being reconfigured; otherwise
     * one is built and stored only if its construction succeeds. Every handle
     * returned raises that channel's counter by one; the other channel is
     * untouched.
     */
    method GetInstance(channel: byte, speed: int32, mode: int32, bitsPerWord: byte := DEFAULT_BITS_PER_WORD,
                       nameonly answers: DeviceAnswers)
      returns (r: Result<PiSpi, AcquireError>)
      requires Valid()
      modifies instance, counter, devices
      ensures Valid()
      ensures channel > 1 ==> && r == Err(InvalidChannel) && unchanged(instance, counter)
                              && forall c :: 0 <= c < 2 ==> devices[c].calls == old(devices[c].calls)
      ensures forall c :: 0 <= c < 2 && c != channel as int ==>
                && instance[c] == old(instance[c]) && counter[c] == old(counter[c])
                && devices[c].calls == old(devices[c].calls)
      ensures channel <= 1 ==>
                View(channel) == Lifecycle.Acquire(old(View(channel)), ConfigFailure(answers).None?).slot
      ensures channel <= 1 && old(instance[channel]) != null ==>
                && r == Ok(old(instance[channel]))
                && devices[channel].calls == old(devices[channel].calls)
      ensures channel <= 1 && old(instance[channel]) == null ==>
                && devices[channel].calls
                     == old(devices[channel].calls) + ConfigCalls(channel, mode, bitsPerWord, speed, answers)
                && (r.Ok? <==> ConfigFailure(answers).None?)
                && (r.Err? ==> r.error == ConfigFailure(answers).value)
                && (r.Ok? ==> && fresh(r.value) && r.value.mode == mode
                              && r.value.bitsPerWord == bitsPerWord && r.value.speed == speed)
      ensures r.Ok? ==> && channel <= 1 && instance[channel] == r.value && r.value.channel == channel
                        && r.value.dev == devices[channel] && r.value.isOpen
    {
      if channel > 1 {
        return Err(InvalidChannel);
      }
      var ch: Channel := channel;
      if instance[ch] == null {
        var created := PiSpi.Create(devices[ch], ch, speed, mode, bitsPerWord, answers);
        if created.Err? {
          return Err(created.error);
        }
        instance[ch] := created.value;
      }
      counter[ch] := counter[ch] + 1;
      r := Ok(instance[ch]);
    }

    /**
     * ReleaseInstance with the documented rule: the channel's count goes down
     * by one but never below zero, and the instance is closed and its slot
     * cleared exactly when the count reaches zero. `h` must not be a handle
     * deleted by an earlier teardown while a newer instance holds the slot.
     */
    method ReleaseInstance(h: PiSpi)
      requires Valid()
      requires instance[h.channel] == h || instance[h.channel] == null
      modifies instance, counter, h`isOpen, h.dev
      ensures Valid()
      ensures View(h.channel) == Lifecycle.Release(old(View(h.channel))).slot
      ensures Lifecycle.Release(old(View(h.channel))).teardown ==>
                !h.isOpen && h.dev.calls == old(h.dev.calls) + [Close]
      ensures !Lifecycle.Release(old(View(h.channel))).teardown ==>
                h.isOpen == old(h.isOpen) && h.dev.calls == old(h.dev.calls)
      ensures instance[h.channel] == if View(h.channel).stored then old(instance[h.channel]) else null
      ensures forall c :: 0 <= c < 2 && c != h.channel as int ==>
                instance[c] == old(instance[c]) && counter[c] == old(counter[c])
    {
      var ch := h.channel;
      if counter[ch] == 0 {
        return;
      }
      counter[ch] := counter[ch] - 1;
      if counter[ch] == 0 {
        instance[ch] := null;
        h.CloseDevice();
      }
    }
  }

  /**
   * Two acquisitions of channel 0 share one instance, configured once with
   * the first call's settings and the default bits per word; the first
   * release keeps the connection, the second closes it, and a third release
   * changes nothing.
   */
  method SharedChannel(reg: Registry, speed: int32, mode: int32, otherSpeed: int32, otherMode: int32,
                       otherBits: byte, answers: DeviceAnswers)
    returns (h: PiSpi)
    requires reg.Valid() && reg.View(0) == Lifecycle.Empty && ConfigFailure(answers).None?
    modifies reg.instance, reg.counter, reg.devices
    ensures reg.Valid() && reg.View(0) == Lifecycle.Empty && !h.isOpen
    ensures h.channel == 0 && h.mode == mode && h.speed == speed && h.bitsPerWord == DEFAULT_BITS_PER_WORD
    ensures reg.devices[0].calls
              == old(reg.devices[0].calls) + FullConfig(0, mode, DEFAULT_BITS_PER_WORD, speed) + [Close]
  {
    var first := reg.GetInstance(0, speed, mode, answers := answers);
    ConfigurationOrder(0, mode, DEFAULT_BITS_PER_WORD, speed, answers);
    h := first.value;
    var second := reg.GetInstance(0, otherSpeed, otherMode, otherBits, answers := answers);
    assert second == first && reg.counter[0] == 2;
    reg.ReleaseInstance(h);
    assert h.isOpen && reg.instance[0] == h && reg.counter[0] == 1;
    reg.ReleaseInstance(h);
    assert !h.isOpen && reg.instance[0] == null;
    reg.ReleaseInstance(h);
  }
}
