/**
 * The spidev character device as the library sees it: a node per channel,
 * and the calls made on it (open, close and the ioctl requests), kept in
 * order. The kernel's answers are not computed here: every operation of the
 * library receives them as parameters.
 */
module Spidev {
  import opened Types
  import opened Transfer

  /** A channel the registry has a slot for. */
  type Channel = c: byte | c <= 1

  /** One call into the kernel. */
  datatype Call =
    | Open(path: string)          // open(path, O_RDWR), whether or not it succeeds
    | Close                       // close(fd), from the destructor
    | WrMode(mode: int32)         // SPI_IOC_WR_MODE
    | RdMode                      // SPI_IOC_RD_MODE
    | WrBitsPerWord(bits: byte)   // SPI_IOC_WR_BITS_PER_WORD
    | RdBitsPerWord               // SPI_IOC_RD_BITS_PER_WORD
    | WrMaxSpeed(hz: int32)       // SPI_IOC_WR_MAX_SPEED_HZ
    | RdMaxSpeed                  // SPI_IOC_RD_MAX_SPEED_HZ
    | Message(steps: Batch)       // SPI_IOC_MESSAGE(|steps|)

  /** The device node of one channel and the calls it has received. */
  class Device {
    const node: Channel
    var calls: seq<Call>

    constructor (node: Channel)
      ensures this.node == node && calls == []
    {
      this.node := node;
      calls := [];
    }
  }

  /**
   * The node path written into a 16-byte buffer: "/dev/spidev0." followed by
   * the channel's decimal digit; with its terminating NUL it fits the buffer,
   * so nothing is cut off.
   */
  function DevicePath(channel: Channel): (path: string)
    ensures |path| + 1 <= 16
    ensures |path| == 14 && path[..13] == "/dev/spidev0."
    ensures path[13] as int - '0' as int == channel as int
  {
    "/dev/spidev0." + [if channel == 0 then '0' else '1']
  }
}
