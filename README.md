# LibPiSPI in Dafny

A verified model of the `PiSPI` class of LibPiSPI. The class is a small C++ wrapper around the Linux
spidev character device (`/dev/spidev0.0` and `/dev/spidev0.1`). It covers two things:

- **The per-channel instance registry.** The class's static arrays `_pInstance[2]` and
  `_u32InstanceCounter[2]` hand out one shared, reference-counted `PiSPI` object per channel.
  `GetInstance` creates the object lazily, reuses it, and counts it. `ReleaseInstance` is meant to
  decrement the count and tear the object down at zero.
- **The handle's operations.** The cached-setting accessors (`SetMode`/`GetMode`, `SetSpeed`/`GetSpeed`,
  `SetBitsPerWord`/`GetBitsPerWord`). The three transfers, which build `spi_ioc_transfer` records and
  submit them in one `SPI_IOC_MESSAGE` request: `Write` (register byte + payload), `Read` (register byte,
  then a receive step) and `SyncReadWrite` (in-place full duplex).

The kernel is not modelled. Every call into it (each `open` attempt, whether it succeeds or not,
`close`, each `ioctl` request) is appended to the `calls` log of a `Spidev.Device` object, one per channel. The kernel's answers come in as
parameters:
- `transportOk` for each request;
- the read-back value for each getter;
- `Config.DeviceAnswers` for the open and the three settings applied while an object is built.

Modules:
- `Types`: the C integer types. `ToUint8` and `ToU32` are the implicit C conversions.
- `Transfer`: transfer records and the three batches. `BuildFrame` is the in-place frame building of
  `Write`. A reference reading of a batch as clocked bytes (`Timeline`), with the register-write,
  register-read and exchange idioms and lemmas tying each batch to its idiom.
- `Spidev`: the kernel calls, the device node and its path.
- `Config`: the order of configuration during construction, read-back, and `GetSpeed` as written.
- `Lifecycle`: one registry slot as a value. It holds the documented acquire/release rules, their
  lemmas, and the release rule the source implements, with the inputs that show it is wrong.
- `Spi`: class `PiSpi` (one handle: channel, cached speed/bits per word/mode, open state). Class
  `Registry` (the static arrays, as two length-2 arrays). The C++ constructor becomes the static
  method `PiSpi.Create`, which returns `Result`, because the C++ throws on failure.

Where the code and the documented design disagree, the model follows the code. There are two
cases:
- `Write` refuses a NULL `pData` for every length, including 0.
- A construction that fails after `open` does not close the descriptor.

`ReleaseInstance` and `GetSpeed` are handled differently. There the classes use the evidently intended
behaviour, and the code as written is modelled beside it (see Findings).

## Model

| member | source | states |
|---|---|---|
| Types.ToUint8 | LibPiSPI/PiSPI.cpp:82 | the uint8_t conversion keeps the value modulo 256 and leaves bytes unchanged |
| Types.MinusOneAsUint8 | LibPiSPI/PiSPI.h:36 | -1 returned through uint8_t is 255, so GetBitsPerWord's failure sentinel is 255 |
| Types.ToU32 | LibPiSPI/PiSPI.cpp:125 | the size_t length stored in the __u32 `len` field is kept modulo 2^32, exact below 2^32, never larger |
| Transfer.WriteBatch | LibPiSPI/PiSPI.cpp:123-126 | one record with rx NULL and cs_change 0, whose source holds at least len bytes |
| Transfer.ReadBatch | LibPiSPI/PiSPI.cpp:146-154 | two records, cs_change 0 on both: the first with rx NULL, the second with tx NULL and rx = buf |
| Transfer.SyncBatch | LibPiSPI/PiSPI.cpp:171-174 | one record whose tx and rx are both the caller's buffer, cs_change 0 |
| Transfer.BuildFrame | LibPiSPI/PiSPI.cpp:111-121 | the local buffer of length + 1 bytes, cleared, with the register byte first and the payload copied behind it, holds exactly [reg] + data[0..length) |
| Transfer.WriteBatchIsRegisterWrite | LibPiSPI/PiSPI.cpp:123-129 | Write's batch is one record and one chip-select transaction; its clocked bytes are the register address followed by the payload, nothing received, cut to the 32-bit length, and complete when length + 1 < 2^32 |
| Transfer.ReadBatchIsRegisterRead | LibPiSPI/PiSPI.cpp:143-157 | Read's batch is two records in one transaction; the address goes out with its reply discarded, then ToU32(length) beats whose replies land in buf[0..), with no source bytes |
| Transfer.SyncBatchIsExchange | LibPiSPI/PiSPI.cpp:171-177 | SyncReadWrite's batch is one record in one transaction; byte k of buf goes out and the reply is stored at byte k of buf |
| Transfer.WriteExample | LibPiSPI/PiSPI.cpp:117-126 | writing [0x01, 0x02] to register 0x2A gives one record with bytes [0x2A, 0x01, 0x02] and length 3 |
| Transfer.ReadExample | LibPiSPI/PiSPI.cpp:143-154 | reading 4 bytes of register 0x10 gives [0x10] with length 1, then 4 bytes into buf, with cs_change 0 on both |
| Spidev.DevicePath | LibPiSPI/PiSPI.cpp:17-21 | the node path is "/dev/spidev0." plus the channel's digit and, with its NUL, fits the 16-byte buffer |
| Config.ConfigCalls | LibPiSPI/PiSPI.cpp:22-34 | construction's calls are a prefix of open, mode, bits per word, speed in that order; the open of the node path is always attempted, and it is the only call exactly when open fails |
| Config.ConfigFailure | LibPiSPI/PiSPI.cpp:24-34 | construction fails with nothing exactly when open and all three settings are accepted; DeviceUnavailable exactly when open fails; otherwise the first refused setter, in the order mode, bits per word, speed |
| Config.ConfigurationOrder | LibPiSPI/PiSPI.cpp:24-34 | construction succeeds iff the full sequence was made and the speed accepted; it fails with DeviceUnavailable iff the open attempt is the only call; a refused step is the last call made |
| Config.ReadBack | LibPiSPI/PiSPI.cpp:193-201 | a getter returns and caches the device's value on success, and returns -1 with the cache kept on failure |
| Config.GetSpeedAsWritten | LibPiSPI/PiSPI.cpp:98-106 | GetSpeed as written issues the write request carrying 0, and on success returns and caches 0 whatever the device's speed |
| Config.GetSpeedAsWrittenMisreports | LibPiSPI/PiSPI.cpp:102 | for a device at 500000 Hz, GetSpeed as written reports 0 after requesting a 0 Hz clock; the read-back reports 500000 |
| Lifecycle.Acquire | LibPiSPI/PiSPI.cpp:43-48 | a stored instance is reused and not rebuilt; otherwise one is built and stored only if configuration succeeds; the count rises by one exactly when a handle is returned, and nothing changes otherwise |
| Lifecycle.Release | LibPiSPI/PiSPI.cpp:51 | the documented release: at count 0 nothing changes; otherwise the count drops by one, and teardown with the slot cleared happens exactly when it reaches zero |
| Lifecycle.AcquireKeepsConsistent | LibPiSPI/PiSPI.cpp:43-48 | acquisition keeps "an instance is stored iff its count is positive" |
| Lifecycle.ReleaseKeepsConsistent | LibPiSPI/PiSPI.cpp:51 | the documented release keeps "an instance is stored iff its count is positive" |
| Lifecycle.AcquireTimesCounts | LibPiSPI/PiSPI.cpp:43-48 | n successful acquisitions of a consistent slot leave it stored with count + n |
| Lifecycle.ReleaseTimesCounts | LibPiSPI/PiSPI.cpp:51 | releasing j of k outstanding acquisitions leaves k - j stored, with exactly one teardown, on the k-th release |
| Lifecycle.ExtraReleasesAreNoOps | LibPiSPI/PiSPI.cpp:51 | releases on an empty slot never underflow and never tear down again |
| Lifecycle.BalancedUse | LibPiSPI/PiSPI.cpp:43-58 | from an empty slot, n acquisitions and then n releases give back an empty slot with exactly one teardown; any further releases change nothing |
| Lifecycle.ReleaseAsWritten | LibPiSPI/PiSPI.cpp:54-58 | the source's release always clears the slot, always decrements with 32-bit wrap-around, and deletes the object exactly when the count was not 1 |
| Lifecycle.ReleaseAsWrittenDeletesSharedInstance | LibPiSPI/PiSPI.cpp:54-58 | with two holders, the source's release deletes and forgets the instance while one holder remains; the documented rule keeps it |
| Lifecycle.ReleaseAsWrittenLeaksLastInstance | LibPiSPI/PiSPI.cpp:54-58 | at the last holder, the source's release forgets the instance without deleting it; the documented rule tears it down |
| Lifecycle.ReleaseAsWrittenUnderflows | LibPiSPI/PiSPI.cpp:55-58 | on an empty slot, the source's release wraps the counter to 4294967295 and deletes the object (the one leaked by the 1-to-0 release); the documented rule changes nothing |
| Spi.PiSpi.constructor | LibPiSPI/PiSPI.cpp:17-19 | a new object is bound to its channel and device node and is not yet open |
| Spi.PiSpi.OpenDevice | LibPiSPI/PiSPI.cpp:21-25 | the open of the channel's node path is recorded whatever its outcome, and the object is open exactly when it succeeds |
| Spi.PiSpi.Submit | LibPiSPI/PiSPI.cpp:129 | each ioctl on the open descriptor appends exactly that request to the device's log |
| Spi.PiSpi.CloseDevice | LibPiSPI/PiSPI.cpp:61-64 | the destructor closes the descriptor once |
| Spi.PiSpi.Create | LibPiSPI/PiSPI.cpp:15-35 | the constructor makes exactly ConfigCalls(...), fails exactly as ConfigFailure says, and on success yields a fresh open object with the given channel, mode, bits per word and speed cached |
| Spi.PiSpi.SetBitsPerWord | LibPiSPI/PiSPI.cpp:66-75 | one write request; returns true iff the device accepts; the cache takes the argument iff accepted and is otherwise unchanged |
| Spi.PiSpi.GetBitsPerWord | LibPiSPI/PiSPI.cpp:77-85 | one read request; on success returns and caches the device's value; on failure returns 255 with the cache kept |
| Spi.PiSpi.SetSpeed | LibPiSPI/PiSPI.cpp:87-96 | one write request; returns true iff the device accepts; the cache takes the argument iff accepted and is otherwise unchanged |
| Spi.PiSpi.GetSpeed | LibPiSPI/PiSPI.cpp:98-106 | corrected: one read-back request; returns and caches the device's speed on success, -1 with the cache kept on failure |
| Spi.PiSpi.Write | LibPiSPI/PiSPI.cpp:108-133 | NULL data: false, nothing submitted; otherwise exactly one message carrying WriteBatch(reg, data[0..length)), and the result is the transport's |
| Spi.PiSpi.Read | LibPiSPI/PiSPI.cpp:135-161 | NULL buffer: false, nothing submitted; otherwise exactly one message carrying the two records of ReadBatch(reg, buf, length), and the result is the transport's |
| Spi.PiSpi.SyncReadWrite | LibPiSPI/PiSPI.cpp:163-180 | NULL buffer: false, nothing submitted; otherwise exactly one message with buf as source and destination, and the result is the transport's |
| Spi.PiSpi.SetMode | LibPiSPI/PiSPI.cpp:182-191 | one write request; returns true iff the device accepts; the cache takes the argument iff accepted and is otherwise unchanged |
| Spi.PiSpi.GetMode | LibPiSPI/PiSPI.cpp:193-201 | one read request; returns and caches the device's mode on success, -1 with the cache kept on failure |
| Spi.Registry.ViewConsistent | LibPiSPI/PiSPI.h:23-24 | in a valid registry, each of the two slots holds an instance exactly while its count is positive |
| Spi.Registry.constructor | LibPiSPI/PiSPI.cpp:11-12 | the registry starts with two empty slots (NULL pointers, zero counts) and two fresh device nodes |
| Spi.Registry.GetInstance | LibPiSPI/PiSPI.cpp:38-49 | channel > 1: InvalidChannel with nothing changed; the other channel is untouched; the slot follows Lifecycle.Acquire; reuse returns the stored instance with no call to the device; a first acquisition makes ConfigCalls and stores the object only on success; bitsPerWord defaults to DEFAULT_BITS_PER_WORD (8) |
| Spi.Registry.ReleaseInstance | LibPiSPI/PiSPI.cpp:51-59 | corrected: the slot follows Lifecycle.Release; the device is closed exactly at teardown; the slot is cleared exactly when the count reaches zero; the other channel is untouched |
| Spi.SharedChannel | LibPiSPI/PiSPI.cpp:38-58 | two acquisitions share one instance configured once (default 8 bits per word, the second call's settings ignored); the first release keeps it open, the second closes it, and a third changes nothing |

## Left out

- The kernel. `open`, `close` and `ioctl` are recorded in `Device.calls`, and their results come in as parameters. Nothing models what the driver does electrically.
- The `std::mutex` locking in `Write`, `Read` and `SyncReadWrite` (PiSPI.cpp lines 128-130, 156-158, 176-178), and the unlocked configuration calls. This is concurrency, and the model is sequential.
- C++ exceptions. The constructor's throws become the `Err` results of `PiSpi.Create`, and `GetInstance` passes them on.
- Spi.PiSpi.Read: makes no promise about what the device stores in `buf` (it says `modifies buf`). The bytes the kernel writes are kernel behaviour.
- Spi.PiSpi.SyncReadWrite: makes no promise about what the device stores in `buf`, for the same reason.
- Spi.PiSpi.Write: requires `length <= data.Length` when `data` is not NULL. `memcpy` reading past the caller's buffer is undefined behaviour, and the source does not check it.
- Spi.Registry.GetInstance: the instance counter is an unbounded `nat`. The 32-bit wrap-around of `_u32InstanceCounter++` at 2^32 outstanding handles is not modelled. The as-written release keeps the 32-bit counter.
- Spi.Registry.ReleaseInstance: requires that `h` is the stored instance or that the slot is empty. In C++, a handle deleted by an earlier teardown is a dangling pointer, and nothing can be said about calling it.
- The privacy of the constructor cannot be expressed in Dafny. In the model, only `Registry.GetInstance` calls `PiSpi.Create`.
- The C++ fields `_iSpeed`, `_iBitsPerWord` and `_iMode` start uninitialised. The model starts them at 0. The difference is visible only on an object whose construction failed, and such an object is discarded.
- The kernel's mode field is 8 bits wide while `_iMode` is an `int`. This narrowing, and its byte order, are not modelled. The mode is passed and read back as `int32`.
- `Transfer.Timeline` counts beats in bytes, which matches the 8-bit words the library normally uses. Wider words are not modelled.
- The file-descriptor leak when configuration fails after `open` is kept (no `Close` is recorded) but has no lemma of its own.

## Findings

| source | as written | input that shows it | evidently intended | confidence | as-written member | corrected member |
|---|---|---|---|---|---|---|
| LibPiSPI/PiSPI.cpp:57 | `delete this` runs when the decremented count is non-zero | two holders release once: count 2 becomes 1, the shared instance is deleted | delete only when the count reaches zero | high; not executed | Lifecycle.ReleaseAsWrittenDeletesSharedInstance | Lifecycle.Release |
| LibPiSPI/PiSPI.cpp:54 | the slot is cleared before the count is looked at | the last holder releases: count 1 becomes 0, the slot is cleared but that release does not delete or close the object, so the next GetInstance opens a second connection | clear the slot only at teardown | high; not executed | Lifecycle.ReleaseAsWrittenLeaksLastInstance | Lifecycle.Release |
| LibPiSPI/PiSPI.cpp:55 | the guard compares the counter array's address with 0, so it always holds | a further release of the handle leaked by the 1-to-0 release: count 0 wraps to 4294967295 and the leaked object is deleted; the next GetInstance increment wraps the counter back to 0 | decrement only a positive count | high; not executed | Lifecycle.ReleaseAsWrittenUnderflows | Lifecycle.Release |
| LibPiSPI/PiSPI.cpp:102 | GetSpeed issues SPI_IOC_WR_MAX_SPEED_HZ with a local holding 0 | a device at 500000 Hz: the request asks for 0 Hz, and 0 is returned and cached | SPI_IOC_RD_MAX_SPEED_HZ, returning the device's speed | high; not executed | Config.GetSpeedAsWrittenMisreports | Spi.PiSpi.GetSpeed |
