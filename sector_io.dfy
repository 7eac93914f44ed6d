/** Sector I/O on top of single command transactions: the translation of a
    sector number to the card's address argument, single-block reads (CMD17)
    and writes (CMD24 followed by the data phase of section 7.3.3 of the SD
    Physical Layer Simplified Specification), the retry of a write the card
    rejected for a CRC error, and the range loops over consecutive sectors. */
module SectorIo {
  import opened Bytes
  import opened Command
  import opened ErrorLog

  /** Bytes per sector and per data block. */
  const SECTOR_SIZE: nat := 512
  /** Attempts a sector write gets (SDCARD_WRITE_CRC_FAIL_RETRY; assumed value). */
  const WRITE_CRC_FAIL_RETRY: nat := 3
  /** Start-block token of a single block write (section 7.3.3.2). */
  const WRITE_TOKEN: Byte := 0xFE
  /** Data-response status "data accepted" (section 7.3.3.1). */
  const DATA_ACCEPTED: int := 5
  /** Data-response status "data rejected due to a CRC error" (section 7.3.3.1). */
  const DATA_CRC_ERROR: int := 11
  /** The command field of a log record for a rejected data block. */
  const DATA_PHASE_LOG: int := 240

  /** A `uint32_t` incremented: wraps to 0 after 0xFFFF_FFFF. */
  function Next(sector: U32): U32
  {
    (sector + 1) % 0x1_0000_0000
  }

  // ---------------------------------------------------------------------------
  // Addresses.

  /** sector_address_to_sd_address: a high-capacity card is addressed in
      blocks, any other card in bytes, computed in 32 bits. */
  function SdAddress(hc: bool, sector: U32): U32
  {
    if hc then sector else (sector * SECTOR_SIZE) % 0x1_0000_0000
  }

  /** A byte address is always block aligned and names the sector modulo
      2^23: the top nine bits of the sector number are lost. Below 2^23 it is
      exactly the sector's byte offset. */
  lemma SdAddressMeaning(hc: bool, sector: U32)
    ensures hc ==> SdAddress(hc, sector) == sector
    ensures !hc ==> SdAddress(hc, sector) == (sector % 0x80_0000) * SECTOR_SIZE
    ensures !hc ==> SdAddress(hc, sector) % SECTOR_SIZE == 0
    ensures !hc && sector < 0x80_0000 ==> SdAddress(hc, sector) == sector * SECTOR_SIZE
  {
    var q := sector / 0x80_0000;
    var r := sector % 0x80_0000;
    assert sector * SECTOR_SIZE == q * 0x1_0000_0000 + r * SECTOR_SIZE;
    assert 0 <= r * SECTOR_SIZE < 0x1_0000_0000;
    ModAdd(q, r * SECTOR_SIZE);
  }

  /** Multiples of 2^32 vanish modulo 2^32. */
  lemma ModAdd(q: nat, r: nat)
    requires r < 0x1_0000_0000
    ensures (q * 0x1_0000_0000 + r) % 0x1_0000_0000 == r
  {
  }

  /** The sector number a run of `count` single-sector steps from `sector`
      is at when `rem` of them are left undone. */
  function Reached(sector: U32, count: nat, rem: nat): U32
    decreases count
  {
    if count <= rem then sector else Reached(Next(sector), count - 1, rem)
  }

  /** Stepping `count - rem` times in 32 bits is adding `count - rem`
      modulo 2^32. */
  lemma {:induction false} ReachedAdds(sector: U32, count: nat, rem: nat)
    requires rem <= count
    ensures Reached(sector, count, rem) == (sector + (count - rem)) % 0x1_0000_0000
    decreases count
  {
    if rem < count {
      ReachedAdds(Next(sector), count - 1, rem);
      NextAdd(sector, count - 1 - rem);
    }
  }

  /** Counting on from the next sector number is counting on by one more. */
  lemma NextAdd(sector: U32, d: nat)
    ensures (Next(sector) + d) % 0x1_0000_0000 == (sector + (d + 1)) % 0x1_0000_0000
  {
    if sector + 1 == 0x1_0000_0000 {
      ModAdd(d / 0x1_0000_0000, d % 0x1_0000_0000);
      ModAdd(d / 0x1_0000_0000 + 1, d % 0x1_0000_0000);
      assert sector + (d + 1) == (d / 0x1_0000_0000 + 1) * 0x1_0000_0000 + d % 0x1_0000_0000;
    }
  }

  // ---------------------------------------------------------------------------
  // Reads.

  /** A sector read: the result, the payload if one was read, the bus and the log. */
  datatype SectorRead = SectorRead(result: int, data: Option<seq<Byte>>, wire: Wire, log: Log)

  /** The log record of a failed command. */
  function CommandRecord(command: int, result: int, sector: U32): ErrorRecord
  {
    ErrorRecord(command, result, ToInt32(sector), 0, 0)
  }

  /** SDCardReadSector: CMD17 for one block into the caller's buffer; a
      nonzero result is logged with the sector number. */
  function ReadSector(s: seq<Byte>, c: Checksums, hc: bool, w: Wire, log: Log, sector: U32): (r: SectorRead)
    requires Valid(log)
    ensures Valid(r.log)
    ensures r.data.Some? ==> |r.data.value| == SECTOR_SIZE
    ensures r.result == OK ==> r.data.Some?
    ensures r.log == if r.result == OK then log else Push(log, CommandRecord(17, r.result, sector))
  {
    var cmd := CommandSpec(s, c, w, 17, SdAddress(hc, sector), SECTOR_SIZE);
    SectorRead(cmd.result, cmd.data, cmd.wire,
               if cmd.result != OK then Push(log, CommandRecord(17, cmd.result, sector)) else log)
  }

  /** A sector read succeeds only when the card answered R1 == 0, sent the
      start token and 512 bytes whose CRC-16 matches the two bytes after
      them; those 512 bytes are then the data. */
  lemma ReadSectorOutcome(s: seq<Byte>, c: Checksums, hc: bool, w: Wire, log: Log, sector: U32)
    requires Valid(log)
    ensures var r := ReadSector(s, c, hc, w, log, sector);
      var k := FirstBusy(s, FrameAt(s, w.pos) + 6, SPI_MAX_WAIT + 1);
      var t := TokenAt(s, k + 1);
      var d := Window(s, t + 1, SECTOR_SIZE);
      && (r.result == OK ==>
            && In(s, k) == 0 && In(s, t) == DATA_TOKEN
            && r.data == Some(d)
            && In(s, t + 1 + SECTOR_SIZE) * 0x100 + In(s, t + 2 + SECTOR_SIZE) == c.crc16(d))
  {
    var cmd := CommandSpec(s, c, w, 17, SdAddress(hc, sector), SECTOR_SIZE);
    assert ReadSector(s, c, hc, w, log, sector).data == cmd.data;
    if cmd.result == OK {
      SuccessMeans(s, c, w.pos, 17, SECTOR_SIZE);
    }
  }

  /** Where a run of sector reads ended: its result, the caller's buffer,
      the bus, the log, how many sectors were left undone and the sector
      number it stopped at (the failing one, or the one after the range). */
  datatype ReadRun = ReadRun(result: int, buf: seq<Byte>, wire: Wire, log: Log, remaining: nat, sector: U32)

  /** SDCardDiskRead: `count` single-sector reads into consecutive 512-byte
      slots from `offset` on, stopping at the first nonzero result. It
      touches no byte outside those slots; it reports 0 exactly when every
      sector was read; it logs nothing on success and otherwise exactly the
      failing read's record, which names the sector reached by stepping once
      per completed read (ReachedAdds: the first sector plus that count,
      modulo 2^32). */
  function ReadRange(s: seq<Byte>, c: Checksums, hc: bool, buf: seq<Byte>, offset: nat, sector: U32, count: nat,
                     w: Wire, log: Log): (r: ReadRun)
    requires Valid(log) && offset + SECTOR_SIZE * count <= |buf|
    ensures Valid(r.log) && |r.buf| == |buf|
    ensures r.remaining <= count && (r.result == OK <==> r.remaining == 0)
    ensures r.buf[..offset] == buf[..offset]
    ensures r.buf[offset + SECTOR_SIZE * count..] == buf[offset + SECTOR_SIZE * count..]
    ensures r.sector == Reached(sector, count, r.remaining)
    ensures r.log == if r.result == OK then log else Push(log, CommandRecord(17, r.result, r.sector))
    decreases count
  {
    if count == 0 then ReadRun(OK, buf, w, log, 0, sector)
    else
      var x := ReadSector(s, c, hc, w, log, sector);
      var next := Store(buf, offset, x.data);
      StoreFrame(buf, offset, x.data, offset + SECTOR_SIZE * count);
      if x.result != OK then ReadRun(x.result, next, x.wire, x.log, count, sector)
      else
        var rest := ReadRange(s, c, hc, next, offset + SECTOR_SIZE, Next(sector), count - 1, x.wire, x.log);
        PrefixOfPrefix(rest.buf, offset, offset + SECTOR_SIZE);
        PrefixOfPrefix(next, offset, offset + SECTOR_SIZE);
        rest
  }

  /** One step of a range read: the first sector, then the rest. The
      driver's loop takes its steps through this lemma, which keeps the
      unfolding of the range out of the loop's larger proof. */
  lemma ReadRangeUnfold(s: seq<Byte>, c: Checksums, hc: bool, buf: seq<Byte>, offset: nat, sector: U32, count: nat,
                        w: Wire, log: Log)
    requires Valid(log) && 0 < count && offset + SECTOR_SIZE * count <= |buf|
    ensures var x := ReadSector(s, c, hc, w, log, sector);
      var stored := Store(buf, offset, x.data);
      ReadRange(s, c, hc, buf, offset, sector, count, w, log)
        == if x.result != OK then ReadRun(x.result, stored, x.wire, x.log, count, sector)
           else ReadRange(s, c, hc, stored, offset + SECTOR_SIZE, Next(sector), count - 1, x.wire, x.log)
  {
  }

  /** A range read depends on its cursor only through the cursor's value.
      The driver's loop uses it to move from its updated cursor variables
      to the range read they name, without the solver searching for the
      match itself. */
  lemma ReadRangeAt(s: seq<Byte>, c: Checksums, hc: bool, buf: seq<Byte>, offset: nat, sector: U32, count: nat,
                    w: Wire, log: Log, offset': nat, sector': U32, count': nat)
    requires Valid(log) && offset + SECTOR_SIZE * count <= |buf|
    requires offset' == offset && sector' == sector && count' == count
    ensures ReadRange(s, c, hc, buf, offset', sector', count', w, log) == ReadRange(s, c, hc, buf, offset, sector, count, w, log)
  {
  }

  /** What a range read does with its first sector: when that read fails,
      the range stops there with its result, every sector still to go, the
      buffer as that read left it and the bus after it; when it succeeds,
      the first slot ends up holding exactly the data read, and the rest of
      the range is the same range read from the next slot and sector on,
      starting where the first read left the bus and the log. Applied again
      to that rest, this gives the data of every slot in turn. */
  lemma ReadRangeFirstSlot(s: seq<Byte>, c: Checksums, hc: bool, buf: seq<Byte>, offset: nat, sector: U32,
                           count: nat, w: Wire, log: Log)
    requires Valid(log) && 0 < count && offset + SECTOR_SIZE * count <= |buf|
    ensures var x := ReadSector(s, c, hc, w, log, sector);
      var r := ReadRange(s, c, hc, buf, offset, sector, count, w, log);
      && (x.result != OK ==>
            r == ReadRun(x.result, Store(buf, offset, x.data), x.wire, x.log, count, sector))
      && (x.result == OK ==>
            && x.data == Some(Slot(r.buf, offset, 0))
            && r == ReadRange(s, c, hc, Store(buf, offset, x.data), offset + SECTOR_SIZE, Next(sector), count - 1,
                              x.wire, x.log))
  {
    var x := ReadSector(s, c, hc, w, log, sector);
    ReadRangeUnfold(s, c, hc, buf, offset, sector, count, w, log);
    if x.result == OK {
      var next := Store(buf, offset, x.data);
      var rest := ReadRange(s, c, hc, next, offset + SECTOR_SIZE, Next(sector), count - 1, x.wire, x.log);
      SlotKept(buf, offset, x.data, rest.buf);
    }
  }

  /** Slot `k` of a buffer of 512-byte slots starting at `offset`. */
  function Slot(b: seq<Byte>, offset: nat, k: nat): (r: seq<Byte>)
    requires offset + SECTOR_SIZE * (k + 1) <= |b|
    ensures |r| == SECTOR_SIZE
  {
    b[offset + SECTOR_SIZE * k..offset + SECTOR_SIZE * (k + 1)]
  }

  /** A slot stored into and then kept by everything after it holds the stored data. */
  lemma SlotKept(buf: seq<Byte>, offset: nat, data: Option<seq<Byte>>, fin: seq<Byte>)
    requires data.Some? && |data.value| == SECTOR_SIZE && offset + SECTOR_SIZE <= |buf| == |fin|
    requires fin[..offset + SECTOR_SIZE] == Store(buf, offset, data)[..offset + SECTOR_SIZE]
    ensures data == Some(Slot(fin, offset, 0))
  {
    var next := Store(buf, offset, data);
    assert fin[offset..offset + SECTOR_SIZE] == fin[..offset + SECTOR_SIZE][offset..];
    assert next[offset..offset + SECTOR_SIZE] == next[..offset + SECTOR_SIZE][offset..];
  }

  /** The first `i` bytes of the first `j` are the first `i`. */
  lemma PrefixOfPrefix(a: seq<Byte>, i: nat, j: nat)
    requires i <= j <= |a|
    ensures a[..j][..i] == a[..i]
  {
  }

  /** Storing at most `end - offset` bytes at `offset` leaves the bytes
      before `offset` and from `end` on alone. */
  lemma StoreFrame(buf: seq<Byte>, offset: nat, data: Option<seq<Byte>>, end: nat)
    requires data.Some? ==> offset + |data.value| <= end
    requires offset <= end <= |buf|
    ensures Store(buf, offset, data)[..offset] == buf[..offset]
    ensures Store(buf, offset, data)[end..] == buf[end..]
  {
    if data.Some? {
      var next := Store(buf, offset, data);
      var stop := offset + |data.value|;
      assert next[end..] == next[stop..][end - stop..];
      assert buf[end..] == buf[stop..][end - stop..];
    }
  }

  // ---------------------------------------------------------------------------
  // Writes.

  /** The first clock from `i` on at which the card drives a nonzero byte:
      the end of its busy signal. Past its script the card drives idle. */
  function ReadyAt(s: seq<Byte>, i: nat): (j: nat)
    ensures i <= j && In(s, j) != 0
    decreases if i < |s| then |s| - i else 0
  {
    if In(s, i) != 0 then i else ReadyAt(s, i + 1)
  }

  /** The card holds the line at zero (busy) from `i` up to ReadyAt. */
  lemma {:induction false} ReadyAtFirst(s: seq<Byte>, i: nat)
    ensures forall k :: i <= k < ReadyAt(s, i) ==> In(s, k) == 0
    decreases if i < |s| then |s| - i else 0
  {
    if In(s, i) == 0 {
      ReadyAtFirst(s, i + 1);
    }
  }

  /** The data packet of a single-block write: start token, the block, then
      its CRC-16 high byte first. */
  function DataPacket(c: Checksums, data: seq<Byte>): (p: seq<Byte>)
    ensures |p| == |data| + 3
  {
    var crc := c.crc16(data);
    [WRITE_TOKEN] + data + [crc / 0x100, crc % 0x100]
  }

  /** The packet carries the block unchanged between the token and a
      checksum that reads back as the block's CRC-16. */
  lemma DataPacketLayout(c: Checksums, data: seq<Byte>)
    ensures var p := DataPacket(c, data);
      && p[0] == WRITE_TOKEN
      && p[1..|data| + 1] == data
      && (p[|data| + 1] as int) * 0x100 + p[|data| + 2] == c.crc16(data)
  {
    var p := DataPacket(c, data);
    assert p[1..|data| + 1] == data;
  }

  /** The data phase of a write from bus state `w`: the packet goes out,
      one more byte is clocked for the data response (its low five bits are
      the status), then the host clocks until the card stops holding the
      line at zero. The status and the bus afterwards. */
  function DataPhase(s: seq<Byte>, c: Checksums, w: Wire, data: seq<Byte>): (int, Wire)
    requires |data| == SECTOR_SIZE
  {
    var q := w.pos + SECTOR_SIZE + 3;
    var e := ReadyAt(s, q + 1);
    (In(s, q) % 0x20, Wire(e + 1, w.sent + DataPacket(c, data) + Fill(e + 1 - q)))
  }

  /** One write attempt: the result, the bus, the log and the chip-select
      line afterwards. */
  datatype Written = Written(result: int, wire: Wire, log: Log, selected: bool)

  /** SDCardWriteSectorInternal: CMD24; a nonzero result is logged and
      returned. Otherwise chip select is asserted again and the packet goes
      out, then the data response is read: its low five bits are the status,
      5 (accepted) is reported as 0, any other status is logged with the
      packet's CRC. Last, the host clocks until the card stops holding the
      line at zero. */
  function WriteOnce(s: seq<Byte>, c: Checksums, hc: bool, w: Wire, log: Log, data: seq<Byte>, sector: U32): (r: Written)
    requires Valid(log) && |data| == SECTOR_SIZE
    ensures Valid(r.log)
  {
    var cmd := CommandSpec(s, c, w, 24, SdAddress(hc, sector), 0);
    if cmd.result != OK then Written(cmd.result, cmd.wire, Push(log, CommandRecord(24, cmd.result, sector)), false)
    else
      var (status, wire) := DataPhase(s, c, cmd.wire, data);
      if status == DATA_ACCEPTED then Written(OK, wire, log, true)
      else Written(status, wire, Push(log, ErrorRecord(DATA_PHASE_LOG, status, ToInt32(sector), c.crc16(data), 0)), true)
  }

  /** A write attempt either fails at CMD24, logging it and sending nothing
      more, or sends the packet right after the command and reads a data
      response. A status of 5 is reported as 0; any other status (0 to 31)
      is the result and is logged with the CRC, so a status of 0 is logged
      yet also reported as 0. */
  lemma WriteOnceOutcome(s: seq<Byte>, c: Checksums, hc: bool, w: Wire, log: Log, data: seq<Byte>, sector: U32)
    requires Valid(log) && |data| == SECTOR_SIZE
    ensures var cmd := CommandSpec(s, c, w, 24, SdAddress(hc, sector), 0);
      var r := WriteOnce(s, c, hc, w, log, data, sector);
      var q := cmd.wire.pos + SECTOR_SIZE + 3;
      && (cmd.result != OK ==>
            r.result == cmd.result && r.wire == cmd.wire && !r.selected
            && r.log == Push(log, CommandRecord(24, cmd.result, sector)))
      && (cmd.result == OK ==>
            && cmd.wire.sent + DataPacket(c, data) <= r.wire.sent
            && r.selected
            && 0 <= r.result < 0x20
            && (r.result == OK <==> In(s, q) % 0x20 == DATA_ACCEPTED || In(s, q) % 0x20 == 0)
            && (In(s, q) % 0x20 == DATA_ACCEPTED ==> r.log == log)
            && (In(s, q) % 0x20 != DATA_ACCEPTED ==>
                  r.result == In(s, q) % 0x20
                  && r.log == Push(log, ErrorRecord(DATA_PHASE_LOG, r.result, ToInt32(sector), c.crc16(data), 0))))
      && w.pos < r.wire.pos
  {
    CommandExtends(s, c, w, 24, SdAddress(hc, sector), 0);
  }

  /** Between the data response and the end of the attempt the card held the
      line at zero. */
  lemma WriteOnceBusy(s: seq<Byte>, c: Checksums, hc: bool, w: Wire, log: Log, data: seq<Byte>, sector: U32)
    requires Valid(log) && |data| == SECTOR_SIZE
    requires CommandSpec(s, c, w, 24, SdAddress(hc, sector), 0).result == OK
    ensures var q := CommandSpec(s, c, w, 24, SdAddress(hc, sector), 0).wire.pos + SECTOR_SIZE + 3;
      var r := WriteOnce(s, c, hc, w, log, data, sector);
      && q < r.wire.pos
      && In(s, r.wire.pos - 1) != 0
      && forall k :: q < k < r.wire.pos - 1 ==> In(s, k) == 0
  {
    var q := CommandSpec(s, c, w, 24, SdAddress(hc, sector), 0).wire.pos + SECTOR_SIZE + 3;
    ReadyAtFirst(s, q + 1);
  }

  /** A CRC-error answer needs an R1 byte of 0 from the card's script, so it
      can only come while the script lasts. */
  lemma WriteOnceProgress(s: seq<Byte>, c: Checksums, hc: bool, w: Wire, log: Log, data: seq<Byte>, sector: U32)
    requires Valid(log) && |data| == SECTOR_SIZE
    ensures var r := WriteOnce(s, c, hc, w, log, data, sector);
      w.pos < r.wire.pos && (r.result == DATA_CRC_ERROR ==> w.pos < |s|)
  {
    CommandProgress(s, c, w.pos, 24);
    CommandExtends(s, c, w, 24, SdAddress(hc, sector), 0);
  }

  /** The packet `p` went out on the bus after the bytes `before`: the bus
      record only grew from `before` to `after`, and some stretch of `after`
      starting at or past the end of `before` is `p`. */
  ghost predicate SentAfter(before: seq<Byte>, after: seq<Byte>, p: seq<Byte>)
  {
    && before <= after
    && exists i :: |before| <= i <= |after| - |p| && Stretch(after, i, |p|) == p
  }

  /** The `n` bytes of `t` from index `i` on. */
  function Stretch(t: seq<Byte>, i: nat, n: nat): (r: seq<Byte>)
    requires i + n <= |t|
    ensures |r| == n
  {
    t[i..i + n]
  }

  /** A packet sent right after `mid`, which extends `before`, was sent after `before`. */
  lemma SentAfterPrefix(before: seq<Byte>, mid: seq<Byte>, p: seq<Byte>, after: seq<Byte>)
    requires before <= mid && mid + p <= after
    ensures SentAfter(before, after, p)
  {
    var i := |mid|;
    assert Stretch(after, i, |p|) == (mid + p)[i..];
  }

  /** A packet sent after some bytes was sent after any earlier prefix of them too. */
  lemma SentAfterEarlier(early: seq<Byte>, before: seq<Byte>, after: seq<Byte>, p: seq<Byte>)
    requires early <= before && SentAfter(before, after, p)
    ensures SentAfter(early, after, p)
  {
    var i :| |before| <= i <= |after| - |p| && Stretch(after, i, |p|) == p;
    assert |early| <= i;
  }

  /** A write attempt only adds to the bus record, and one that reports
      success has sent the data packet of its block. */
  lemma WriteOnceSends(s: seq<Byte>, c: Checksums, hc: bool, w: Wire, log: Log, data: seq<Byte>, sector: U32)
    requires Valid(log) && |data| == SECTOR_SIZE
    ensures var r := WriteOnce(s, c, hc, w, log, data, sector);
      && w.sent <= r.wire.sent
      && (r.result == OK ==> SentAfter(w.sent, r.wire.sent, DataPacket(c, data)))
  {
    var cmd := CommandSpec(s, c, w, 24, SdAddress(hc, sector), 0);
    var r := WriteOnce(s, c, hc, w, log, data, sector);
    WriteOnceOutcome(s, c, hc, w, log, data, sector);
    CommandExtends(s, c, w, 24, SdAddress(hc, sector), 0);
    if cmd.result == OK {
      SentAfterPrefix(w.sent, cmd.wire.sent, DataPacket(c, data), r.wire.sent);
    }
  }

  /** The last attempt of a sector write and how many attempts were made. */
  datatype Retried = Retried(last: Written, attempts: nat)

  /** SDCardWriteSector with the retry limit honoured: one attempt per unit
      of `limit`, repeating only after a CRC-error status. */
  function WriteRetry(s: seq<Byte>, c: Checksums, hc: bool, w: Wire, log: Log, data: seq<Byte>, sector: U32,
                      limit: nat): (r: Retried)
    requires Valid(log) && |data| == SECTOR_SIZE && limit > 0
    ensures Valid(r.last.log)
    ensures 1 <= r.attempts <= limit
    decreases limit
  {
    var x := WriteOnce(s, c, hc, w, log, data, sector);
    if x.result == DATA_CRC_ERROR && limit > 1 then
      var rest := WriteRetry(s, c, hc, x.wire, x.log, data, sector, limit - 1);
      Retried(rest.last, rest.attempts + 1)
    else Retried(x, 1)
  }

  /** A bounded write gives up with the CRC-error status only after using
      every attempt; any other result ends it at once. */
  lemma {:induction false} WriteRetryBounded(s: seq<Byte>, c: Checksums, hc: bool, w: Wire, log: Log, data: seq<Byte>,
                                             sector: U32, limit: nat)
    requires Valid(log) && |data| == SECTOR_SIZE && limit > 0
    ensures var r := WriteRetry(s, c, hc, w, log, data, sector, limit);
      r.last.result == DATA_CRC_ERROR ==> r.attempts == limit
    decreases limit
  {
    var x := WriteOnce(s, c, hc, w, log, data, sector);
    if x.result == DATA_CRC_ERROR && limit > 1 {
      WriteRetryBounded(s, c, hc, x.wire, x.log, data, sector, limit - 1);
    }
  }

  /** The retry loop only adds to the bus record, and when its last
      attempt reports success that attempt has sent the block's packet. */
  lemma {:induction false} WriteRetrySends(s: seq<Byte>, c: Checksums, hc: bool, w: Wire, log: Log, data: seq<Byte>,
                                           sector: U32, limit: nat)
    requires Valid(log) && |data| == SECTOR_SIZE && limit > 0
    ensures var r := WriteRetry(s, c, hc, w, log, data, sector, limit).last;
      && w.sent <= r.wire.sent
      && (r.result == OK ==> SentAfter(w.sent, r.wire.sent, DataPacket(c, data)))
    decreases limit
  {
    var x := WriteOnce(s, c, hc, w, log, data, sector);
    WriteOnceSends(s, c, hc, w, log, data, sector);
    if x.result == DATA_CRC_ERROR && limit > 1 {
      var rest := WriteRetry(s, c, hc, x.wire, x.log, data, sector, limit - 1).last;
      WriteRetrySends(s, c, hc, x.wire, x.log, data, sector, limit - 1);
      if rest.result == OK {
        SentAfterEarlier(w.sent, x.wire.sent, rest.wire.sent, DataPacket(c, data));
      }
    }
  }

  /** SDCardWriteSector as written: a CRC-error status goes back to the loop
      test without decreasing the limit, so it repeats for as long as the
      card answers so. Here the card's script ends, and with it the
      repetition. */
  function WriteRetryAsWritten(s: seq<Byte>, c: Checksums, hc: bool, w: Wire, log: Log, data: seq<Byte>,
                               sector: U32): (r: Retried)
    requires Valid(log) && |data| == SECTOR_SIZE
    ensures Valid(r.last.log) && 1 <= r.attempts
    decreases if w.pos < |s| then |s| - w.pos else 0
  {
    var x := WriteOnce(s, c, hc, w, log, data, sector);
    WriteOnceProgress(s, c, hc, w, log, data, sector);
    if x.result == DATA_CRC_ERROR then
      var rest := WriteRetryAsWritten(s, c, hc, x.wire, x.log, data, sector);
      Retried(rest.last, rest.attempts + 1)
    else Retried(x, 1)
  }

  /** The loop as written never returns the CRC-error status. It agrees with
      the bounded loop whenever that one ends on another result, and when the
      card rejects the block `limit` times in a row it makes more than
      `limit` attempts: the retry limit does not bound it. */
  lemma {:induction false} AsWrittenIgnoresLimit(s: seq<Byte>, c: Checksums, hc: bool, w: Wire, log: Log,
                                                 data: seq<Byte>, sector: U32, limit: nat)
    requires Valid(log) && |data| == SECTOR_SIZE && limit > 0
    ensures var bounded := WriteRetry(s, c, hc, w, log, data, sector, limit);
      var asWritten := WriteRetryAsWritten(s, c, hc, w, log, data, sector);
      && asWritten.last.result != DATA_CRC_ERROR
      && (bounded.last.result != DATA_CRC_ERROR ==> asWritten == bounded)
      && (bounded.last.result == DATA_CRC_ERROR ==> asWritten.attempts > limit)
    decreases limit
  {
    var x := WriteOnce(s, c, hc, w, log, data, sector);
    WriteOnceProgress(s, c, hc, w, log, data, sector);
    if x.result == DATA_CRC_ERROR {
      var rest := WriteRetryAsWritten(s, c, hc, x.wire, x.log, data, sector);
      assert WriteRetryAsWritten(s, c, hc, w, log, data, sector) == Retried(rest.last, rest.attempts + 1);
      if limit > 1 {
        AsWrittenIgnoresLimit(s, c, hc, x.wire, x.log, data, sector, limit - 1);
      } else {
        AsWrittenNeverCrc(s, c, hc, x.wire, x.log, data, sector);
      }
    }
  }

  /** The loop as written ends only on a result other than the CRC-error status. */
  lemma {:induction false} AsWrittenNeverCrc(s: seq<Byte>, c: Checksums, hc: bool, w: Wire, log: Log,
                                             data: seq<Byte>, sector: U32)
    requires Valid(log) && |data| == SECTOR_SIZE
    ensures WriteRetryAsWritten(s, c, hc, w, log, data, sector).last.result != DATA_CRC_ERROR
    decreases if w.pos < |s| then |s| - w.pos else 0
  {
    var x := WriteOnce(s, c, hc, w, log, data, sector);
    WriteOnceProgress(s, c, hc, w, log, data, sector);
    if x.result == DATA_CRC_ERROR {
      AsWrittenNeverCrc(s, c, hc, x.wire, x.log, data, sector);
    }
  }

  /** Where a run of sector writes ended: its result, the bus, the log, the
      chip-select line, how many sectors were left undone and the sector
      number it stopped at (the failing one, or the one after the range). */
  datatype WriteRun = WriteRun(result: int, wire: Wire, log: Log, selected: bool, remaining: nat, sector: U32)

  /** SDCardDiskWrite: `count` sector writes (each with its retries) from
      consecutive 512-byte slots of `buf` from `offset` on, stopping at the
      first nonzero result. It reports 0 exactly when every sector was
      written, and stops at the sector reached by stepping once per
      completed write. */
  function WriteRange(s: seq<Byte>, c: Checksums, hc: bool, buf: seq<Byte>, offset: nat, sector: U32, count: nat,
                      w: Wire, log: Log, selected: bool): (r: WriteRun)
    requires Valid(log) && offset + SECTOR_SIZE * count <= |buf|
    ensures Valid(r.log)
    ensures r.remaining <= count && (r.result == OK <==> r.remaining == 0)
    ensures r.sector == Reached(sector, count, r.remaining)
    ensures w.sent <= r.wire.sent
    decreases count
  {
    if count == 0 then WriteRun(OK, w, log, selected, 0, sector)
    else
      var x := WriteRetry(s, c, hc, w, log, buf[offset..offset + SECTOR_SIZE], sector, WRITE_CRC_FAIL_RETRY).last;
      WriteRetrySends(s, c, hc, w, log, buf[offset..offset + SECTOR_SIZE], sector, WRITE_CRC_FAIL_RETRY);
      if x.result != OK then WriteRun(x.result, x.wire, x.log, x.selected, count, sector)
      else
        WriteRange(s, c, hc, buf, offset + SECTOR_SIZE, Next(sector), count - 1, x.wire, x.log, x.selected)
  }

  /** One step of a range write: the first sector, then the rest. The
      driver's loop takes its steps through this lemma, which keeps the
      unfolding of the range out of the loop's larger proof. */
  lemma WriteRangeUnfold(s: seq<Byte>, c: Checksums, hc: bool, buf: seq<Byte>, offset: nat, sector: U32, count: nat,
                         w: Wire, log: Log, selected: bool)
    requires Valid(log) && 0 < count && offset + SECTOR_SIZE * count <= |buf|
    ensures var x := WriteRetry(s, c, hc, w, log, buf[offset..offset + SECTOR_SIZE], sector, WRITE_CRC_FAIL_RETRY).last;
      WriteRange(s, c, hc, buf, offset, sector, count, w, log, selected)
        == if x.result != OK then WriteRun(x.result, x.wire, x.log, x.selected, count, sector)
           else WriteRange(s, c, hc, buf, offset + SECTOR_SIZE, Next(sector), count - 1, x.wire, x.log, x.selected)
  {
  }

  /** What a range write does with its first sector: it writes slot 0 of
      `buf` from `offset`, with its retries. When that write fails, the
      range stops there with its result and every sector still to go; when
      it succeeds, that slot's data packet has gone out on the bus, and the
      rest of the range is the same range written from the next slot and
      sector on, starting from the bus, log and chip-select line that write
      left. Applied again to that rest, this gives the packet of every slot
      in turn. */
  lemma WriteRangeFirstSlot(s: seq<Byte>, c: Checksums, hc: bool, buf: seq<Byte>, offset: nat, sector: U32,
                            count: nat, w: Wire, log: Log, selected: bool)
    requires Valid(log) && 0 < count && offset + SECTOR_SIZE * count <= |buf|
    ensures var x := WriteRetry(s, c, hc, w, log, Slot(buf, offset, 0), sector, WRITE_CRC_FAIL_RETRY).last;
      var r := WriteRange(s, c, hc, buf, offset, sector, count, w, log, selected);
      && w.sent <= x.wire.sent
      && (x.result != OK ==> r == WriteRun(x.result, x.wire, x.log, x.selected, count, sector))
      && (x.result == OK ==>
            && SentAfter(w.sent, x.wire.sent, DataPacket(c, Slot(buf, offset, 0)))
            && r == WriteRange(s, c, hc, buf, offset + SECTOR_SIZE, Next(sector), count - 1,
                               x.wire, x.log, x.selected))
  {
    assert Slot(buf, offset, 0) == buf[offset..offset + SECTOR_SIZE];
    WriteRangeUnfold(s, c, hc, buf, offset, sector, count, w, log, selected);
    WriteRetrySends(s, c, hc, w, log, Slot(buf, offset, 0), sector, WRITE_CRC_FAIL_RETRY);
  }

  /** A range write depends on its cursor only through the cursor's value.
      The driver's loop uses it to move from its updated cursor variables
      to the range write they name, without the solver searching for the
      match itself. */
  lemma WriteRangeAt(s: seq<Byte>, c: Checksums, hc: bool, buf: seq<Byte>, offset: nat, sector: U32, count: nat,
                     w: Wire, log: Log, selected: bool, offset': nat, sector': U32, count': nat)
    requires Valid(log) && offset + SECTOR_SIZE * count <= |buf|
    requires offset' == offset && sector' == sector && count' == count
    ensures WriteRange(s, c, hc, buf, offset', sector', count', w, log, selected)
         == WriteRange(s, c, hc, buf, offset, sector, count, w, log, selected)
  {
  }
}
