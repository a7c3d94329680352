/**
 * Transfer records (struct spi_ioc_transfer) built by Write, Read and
 * SyncReadWrite, and a reference reading of a batch as the sequence of
 * bytes clocked on the bus, against which the builders are proved.
 */
module Transfer {
  import opened Types

  /** Where a step's outgoing bytes come from (the tx_buf field). */
  datatype Source =
    | Bytes(bytes: seq<byte>)       // a buffer owned by the library, with these contents
    | Caller(buf: array<byte>)      // the caller's own buffer, read by the transport

  /** One struct spi_ioc_transfer: tx_buf, rx_buf (None for NULL), len, cs_change. */
  datatype Descriptor = Descriptor(tx: Option<Source>, rx: Option<array<byte>>, len: u32, csChange: bool)

  /** The records submitted together with one SPI_IOC_MESSAGE(n) request. */
  type Batch = seq<Descriptor>

  /** The single record Write submits, given the payload data[0..length). */
  function WriteBatch(reg: byte, payload: seq<byte>): (r: Batch)
    ensures |r| == 1 && r[0].rx.None? && OneTransaction(r) && AllWellFormed(r)
  {
    [Descriptor(Some(Bytes([reg] + payload)), None, ToU32(1 + |payload|), false)]
  }

  /** The two records Read submits: the register byte out, then `length` bytes into `buf`. */
  function ReadBatch(reg: byte, buf: array<byte>, length: size_t): (r: Batch)
    ensures |r| == 2 && r[0].rx.None? && r[1].tx.None? && r[1].rx == Some(buf)
    ensures OneTransaction(r) && AllWellFormed(r)
  {
    [ Descriptor(Some(Bytes([reg])), None, 1, false),
      Descriptor(None, Some(buf), ToU32(length), false) ]
  }

  /** The single record SyncReadWrite submits: `buf` is both source and destination. */
  function SyncBatch(buf: array<byte>, length: size_t): (r: Batch)
    ensures |r| == 1 && r[0].tx == Some(Caller(buf)) && r[0].rx == Some(buf)
    ensures OneTransaction(r) && AllWellFormed(r)
  {
    [Descriptor(Some(Caller(buf)), Some(buf), ToU32(length), false)]
  }

  /**
   * The frame Write sends, built in a local buffer of length + 1 bytes as the
   * source does: cleared, the register byte stored first, then `length`
   * payload bytes copied behind it.
   */
  method BuildFrame(reg: byte, data: array<byte>, length: size_t) returns (frame: seq<byte>)
    requires length <= data.Length
    ensures frame == [reg] + data[..length]
  {
    var buffer := new byte[length + 1];
    var i := 0;
    while i < length + 1
      invariant 0 <= i <= length + 1
      invariant forall k :: 0 <= k < i ==> buffer[k] == 0
    {
      buffer[i] := 0;
      i := i + 1;
    }
    buffer[0] := reg;
    var j := 0;
    while j < length
      invariant 0 <= j <= length
      invariant buffer[0] == reg
      invariant forall k :: 0 <= k < j ==> buffer[k + 1] == data[k]
    {
      buffer[j + 1] := data[j];
      j := j + 1;
    }
    frame := buffer[..];
    assert |frame| == |[reg] + data[..length]|;
    forall k | 0 <= k < |frame|
      ensures frame[k] == ([reg] + data[..length])[k]
    {
      if k > 0 {
        assert frame[k] == buffer[(k - 1) + 1];
      }
    }
  }

  // ---------------------------------------------------------------------
  // The bus reading of a batch: one beat per byte clocked while chip select
  // is held, saying what is driven out and where the byte clocked in goes.

  /** A byte position in a caller buffer. */
  datatype Cell = Cell(buf: array<byte>, at: nat)

  /** What is driven out during one beat. */
  datatype Out =
    | Sent(b: byte)        // a byte held by the library
    | Taken(from: Cell)    // whatever the caller's buffer holds at that position
    | Idle                 // no source buffer: the controller's filler

  /** One clocked byte: what goes out, and where the byte coming in is stored (None: discarded). */
  datatype Beat = Beat(out: Out, into: Option<Cell>)

  /** A record whose own source buffer holds at least `len` bytes. */
  predicate WellFormed(d: Descriptor)
  {
    d.tx.Some? && d.tx.value.Bytes? ==> d.len <= |d.tx.value.bytes|
  }

  predicate AllWellFormed(batch: Batch)
  {
    forall i :: 0 <= i < |batch| ==> WellFormed(batch[i])
  }

  /** Chip select stays asserted across every step and is released after the batch. */
  predicate OneTransaction(batch: Batch)
  {
    forall i :: 0 <= i < |batch| ==> !batch[i].csChange
  }

  function OutAt(d: Descriptor, i: nat): Out
    requires WellFormed(d) && i < d.len
  {
    match d.tx
    case None => Idle
    case Some(Bytes(bs)) => Sent(bs[i])
    case Some(Caller(b)) => Taken(Cell(b, i))
  }

  function InAt(d: Descriptor, i: nat): Option<Cell>
  {
    match d.rx
    case None => None
    case Some(b) => Some(Cell(b, i))
  }

  /** The beats of one step. */
  function Beats(d: Descriptor): (r: seq<Beat>)
    requires WellFormed(d)
    ensures |r| == d.len
  {
    seq(d.len, i requires 0 <= i < d.len => Beat(OutAt(d, i), InAt(d, i)))
  }

  /** The beats of a batch: the steps one after another. */
  function Timeline(batch: Batch): (r: seq<Beat>)
    requires AllWellFormed(batch)
    decreases |batch|
  {
    if batch == [] then [] else Beats(batch[0]) + Timeline(batch[1..])
  }

  /** The register-write idiom: the register address, then each payload byte; nothing is stored. */
  function RegisterWrite(reg: byte, payload: seq<byte>): seq<Beat>
  {
    [Beat(Sent(reg), None)] + seq(|payload|, k requires 0 <= k < |payload| => Beat(Sent(payload[k]), None))
  }

  /** The register-read idiom: the address with its reply discarded, then n filler beats whose replies fill buf[0..n). */
  function RegisterRead(reg: byte, buf: array<byte>, n: nat): seq<Beat>
  {
    [Beat(Sent(reg), None)] + seq(n, k requires 0 <= k < n => Beat(Idle, Some(Cell(buf, k))))
  }

  /** A full-duplex exchange in place: byte k of buf goes out and the reply overwrites it. */
  function Exchange(buf: array<byte>, n: nat): seq<Beat>
  {
    seq(n, k requires 0 <= k < n => Beat(Taken(Cell(buf, k)), Some(Cell(buf, k))))
  }

  lemma TimelineOfOne(d: Descriptor)
    requires WellFormed(d)
    ensures AllWellFormed([d]) && Timeline([d]) == Beats(d)
  {
    assert [d][1..] == [];
  }

  /**
   * Write's batch is one transaction that clocks out the register-write
   * idiom, cut to the 32-bit length field (the whole idiom whenever
   * length + 1 fits in 32 bits).
   */
  lemma {:induction false} WriteBatchIsRegisterWrite(reg: byte, payload: seq<byte>)
    ensures |WriteBatch(reg, payload)| == 1
    ensures AllWellFormed(WriteBatch(reg, payload)) && OneTransaction(WriteBatch(reg, payload))
    ensures Timeline(WriteBatch(reg, payload)) == RegisterWrite(reg, payload)[..ToU32(1 + |payload|)]
    ensures 1 + |payload| < 0x1_0000_0000 ==> Timeline(WriteBatch(reg, payload)) == RegisterWrite(reg, payload)
  {
    var d := WriteBatch(reg, payload)[0];
    TimelineOfOne(d);
    var w := RegisterWrite(reg, payload);
    var t := Beats(d);
    assert |w| == 1 + |payload|;
    forall k | 0 <= k < |t|
      ensures t[k] == w[k]
    {
      if k > 0 {
        assert w[k] == Beat(Sent(payload[k - 1]), None);
      }
    }
  }

  /**
   * Read's batch is one transaction of two steps that clocks out the
   * register-read idiom for ToU32(length) bytes (length itself whenever it
   * fits in 32 bits).
   */
  lemma {:induction false} ReadBatchIsRegisterRead(reg: byte, buf: array<byte>, length: size_t)
    ensures |ReadBatch(reg, buf, length)| == 2
    ensures AllWellFormed(ReadBatch(reg, buf, length)) && OneTransaction(ReadBatch(reg, buf, length))
    ensures Timeline(ReadBatch(reg, buf, length)) == RegisterRead(reg, buf, ToU32(length))
    ensures length < 0x1_0000_0000 ==> Timeline(ReadBatch(reg, buf, length)) == RegisterRead(reg, buf, length)
  {
    var b := ReadBatch(reg, buf, length);
    assert b[1..] == [b[1]];
    TimelineOfOne(b[1]);
    assert Timeline(b) == Beats(b[0]) + Beats(b[1]);
    assert Beats(b[0]) == [Beat(Sent(reg), None)];
  }

  /** SyncReadWrite's batch is one in-place exchange of ToU32(length) bytes of `buf`. */
  lemma {:induction false} SyncBatchIsExchange(buf: array<byte>, length: size_t)
    ensures |SyncBatch(buf, length)| == 1
    ensures AllWellFormed(SyncBatch(buf, length)) && OneTransaction(SyncBatch(buf, length))
    ensures Timeline(SyncBatch(buf, length)) == Exchange(buf, ToU32(length))
    ensures length < 0x1_0000_0000 ==> Timeline(SyncBatch(buf, length)) == Exchange(buf, length)
  {
    TimelineOfOne(SyncBatch(buf, length)[0]);
  }

  /** Writing [0x01, 0x02] to register 0x2A: one record carrying 0x2A, 0x01, 0x02 with length 3. */
  lemma WriteExample()
    ensures WriteBatch(0x2A, [0x01, 0x02]) == [Descriptor(Some(Bytes([0x2A, 0x01, 0x02])), None, 3, false)]
    ensures Timeline(WriteBatch(0x2A, [0x01, 0x02])) == [Beat(Sent(0x2A), None), Beat(Sent(0x01), None), Beat(Sent(0x02), None)]
  {
    assert [0x2A] + [0x01, 0x02] == [0x2A, 0x01, 0x02];
    WriteBatchIsRegisterWrite(0x2A, [0x01, 0x02]);
  }

  /** Reading 4 bytes of register 0x10: the address alone, then 4 beats into buf[0..4), one transaction. */
  lemma ReadExample(buf: array<byte>)
    ensures ReadBatch(0x10, buf, 4) == [Descriptor(Some(Bytes([0x10])), None, 1, false), Descriptor(None, Some(buf), 4, false)]
    ensures OneTransaction(ReadBatch(0x10, buf, 4))
    ensures Timeline(ReadBatch(0x10, buf, 4))
              == [Beat(Sent(0x10), None)] + seq(4, k requires 0 <= k < 4 => Beat(Idle, Some(Cell(buf, k))))
  {
    ReadBatchIsRegisterRead(0x10, buf, 4);
  }
}
