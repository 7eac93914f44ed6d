/** One SPI-mode command transaction (SD Physical Layer Simplified
    Specification, section 7.3): the 6-byte command frame, the R1 status
    byte, and for the block-read commands the start token, payload and CRC-16.
    The card side of the bus is a script of bytes; the host side is the log of
    bytes it clocked out. */
module Command {
  import opened Bytes

  // Driver result codes. sdcard.h is not part of this model: these values
  // are assumed; the model relies on them being negative and distinct.
  const OK: int := 0
  const GENERIC: int := -1
  const TRANSMIT_INTERRUPTED: int := -2
  const CRC_FAILED: int := -3
  const INVALID_SDCARD: int := -4
  const IDLE_WAIT_TIMEOUT: int := -5
  const VOLTAGE_NOT_SUPPORTED: int := -6

  /** R1 "illegal command" flag (section 7.3.2.1). */
  const R1_ILLEGAL_CMD: Byte := 0x04
  /** R1 error flags, every bit but "in idle state" (assumed value). */
  const R1_ERROR_MASK: Byte := 0x7E
  /** Polls for R1 after the frame, minus one (NCR is at most 8 bytes; assumed value). */
  const SPI_MAX_WAIT: nat := 8
  /** Start-block token of a single or multiple block read (section 7.3.3.2). */
  const DATA_TOKEN: Byte := 0xFE

  /** The bus as the host sees it: how many bytes have been clocked and what it sent. */
  datatype Wire = Wire(pos: nat, sent: seq<Byte>)

  /** What a transaction returns, what it left in the caller's buffer (if it
      reached the payload) and the bus afterwards. */
  datatype Reply = Reply(result: int, data: Option<seq<Byte>>, wire: Wire)

  /** The 6-byte command frame of section 7.3.1.1. */
  function Frame(c: Checksums, command: Byte, param: U32): (f: seq<Byte>)
    ensures |f| == 6
  {
    var head := [(command + 0x40) % 0x100] + Be32(param);
    // (crc << 1) | 1 stored into a byte
    head + [(c.crc7(head) * 2) % 0x100 + 1]
  }

  /** Frame layout: start and transmission bits over the command index, the
      argument big-endian, then CRC-7 of the first five bytes with the end bit. */
  lemma FrameLayout(c: Checksums, command: Byte, param: U32)
    ensures Frame(c, command, param)[0] == (command + 0x40) % 0x100
    ensures Be32Value(Frame(c, command, param)[1..5]) == param
    ensures Frame(c, command, param)[5] % 2 == 1
    ensures Frame(c, command, param)[5] / 2 == c.crc7(Frame(c, command, param)[..5]) % 0x80
  {
    var f := Frame(c, command, param);
    assert f[1..5] == Be32(param);
    assert f[..5] == [(command + 0x40) % 0x100] + Be32(param);
    Be32RoundTrip(param);
  }

  /** The two block-read commands, tested on the frame's first byte as the driver does. */
  predicate IsBlockRead(command: Byte)
  {
    (command + 0x40) % 0x100 == 0x40 + 17 || (command + 0x40) % 0x100 == 0x40 + 18
  }

  /** Where the wait for an idle bus before the frame ends: the first idle
      byte from clock `i` on (the script is finite, so one exists). */
  function IdleAt(s: seq<Byte>, i: nat): (j: nat)
    ensures i <= j && In(s, j) == IDLE
    decreases |s| - i
  {
    if In(s, i) == IDLE then i else IdleAt(s, i + 1)
  }

  /** The wait ends at the first idle byte: every clock before it was busy. */
  lemma {:induction false} IdleAtFirst(s: seq<Byte>, i: nat)
    ensures forall k :: i <= k < IdleAt(s, i) ==> In(s, k) != IDLE
    decreases |s| - i
  {
    if In(s, i) != IDLE {
      IdleAtFirst(s, i + 1);
    }
  }

  /** The first non-idle byte among `limit` clocks from `i`, or `i + limit` if none. */
  function FirstBusy(s: seq<Byte>, i: nat, limit: nat): (j: nat)
    ensures i <= j <= i + limit
    ensures j < i + limit ==> In(s, j) != IDLE
    decreases limit
  {
    if limit == 0 then i
    else if In(s, i) != IDLE then i
    else FirstBusy(s, i + 1, limit - 1)
  }

  /** Every clock the R1 poll skipped was idle. */
  lemma {:induction false} FirstBusyFirst(s: seq<Byte>, i: nat, limit: nat)
    ensures forall k :: i <= k < FirstBusy(s, i, limit) ==> In(s, k) == IDLE
    decreases limit
  {
    if limit > 0 && In(s, i) == IDLE {
      FirstBusyFirst(s, i + 1, limit - 1);
    }
  }

  /** Where the wait for the data token ends: the first non-idle byte from `i`
      on, or the first clock past the script if the card never sends one. */
  function TokenAt(s: seq<Byte>, i: nat): (j: nat)
    ensures i <= j
    ensures In(s, j) != IDLE || |s| <= j
    decreases |s| - i
  {
    if In(s, i) != IDLE || |s| <= i then i else TokenAt(s, i + 1)
  }

  /** Every clock the token wait skipped was idle. */
  lemma {:induction false} TokenAtFirst(s: seq<Byte>, i: nat)
    ensures forall k :: i <= k < TokenAt(s, i) ==> In(s, k) == IDLE
    decreases |s| - i
  {
    if In(s, i) == IDLE && i < |s| {
      TokenAtFirst(s, i + 1);
    }
  }

  /** The driver's failure exit: a zero result becomes GENERIC. */
  function FailCode(x: int): (r: int)
    ensures r != 0
    ensures x == 0 ==> r == GENERIC
    ensures x != 0 ==> r == x
  {
    if x == 0 then GENERIC else x
  }

  /** The clock at which the frame starts: just after the idle byte that ends
      the wait for an idle bus begun at clock `p`. */
  function FrameAt(s: seq<Byte>, p: nat): nat
  {
    IdleAt(s, p) + 1
  }

  /** The data phase of a block read whose R1 was 0, from clock `q`: the
      start token, the payload and its CRC-16. */
  function BlockData(s: seq<Byte>, c: Checksums, q: nat, n: nat): (r: (int, Option<seq<Byte>>, nat))
    ensures q < r.2
    ensures r.1.Some? ==> |r.1.value| == n
  {
    var t := TokenAt(s, q);
    // the driver keeps its last result (R1 == 0) when no token byte arrives
    var token := if In(s, t) != IDLE then In(s, t) else 0;
    if token != DATA_TOKEN then (FailCode(token * 0x100), None, t + 1)
    else
      var d := Window(s, t + 1, n);
      var crc := In(s, t + 1 + n) * 0x100 + In(s, t + 1 + n + 1);
      (if crc != c.crc16(d) then CRC_FAILED else OK, Some(d), t + 1 + n + 2)
  }

  /** The response phase, from clock `e` just after an undisturbed frame:
      result, payload if read, and the clock where the transaction ends. */
  function ResponsePhase(s: seq<Byte>, c: Checksums, e: nat, command: Byte, n: nat): (r: (int, Option<seq<Byte>>, nat))
    ensures e < r.2
    ensures r.1.Some? ==> |r.1.value| == n
  {
    var k := FirstBusy(s, e, SPI_MAX_WAIT + 1);
    if k == e + SPI_MAX_WAIT + 1 then (TRANSMIT_INTERRUPTED, None, k)
    else
      var r1 := In(s, k);
      if !IsBlockRead(command) then (r1, Some(Window(s, k + 1, n)), k + 1 + n)
      else if r1 != 0 then (r1, None, k + 1)
      else BlockData(s, c, k + 1, n)
  }

  /** Result, payload if read, and end clock of a transaction whose frame
      starts right after the idle wait that begins at clock `p`. */
  function Transaction(s: seq<Byte>, c: Checksums, p: nat, command: Byte, n: nat): (r: (int, Option<seq<Byte>>, nat))
    ensures FrameAt(s, p) + 6 <= r.2
    ensures r.1.Some? ==> |r.1.value| == n
  {
    var f := FrameAt(s, p);
    if !AllIdle(Window(s, f, 6)) then (TRANSMIT_INTERRUPTED, None, f + 6)
    else ResponsePhase(s, c, f + 6, command, n)
  }

  /** SDCardSendCommand: wait for an idle bus, send the frame, check its echo,
      then run the response phase. The caller's checksum argument plays no part:
      the frame's CRC is always computed. */
  function CommandSpec(s: seq<Byte>, c: Checksums, w: Wire, command: Byte, param: U32, n: nat): (r: Reply)
    ensures r.data.Some? ==> |r.data.value| == n
  {
    var t := Transaction(s, c, w.pos, command, n);
    var f := FrameAt(s, w.pos);
    Reply(t.0, t.1, Wire(t.2, w.sent + Fill(f - w.pos) + Frame(c, command, param) + Fill(t.2 - (f + 6))))
  }

  /** Every transaction clocks the bus; one that returns a nonnegative result
      for a command without payload has read its R1 byte from the card. */
  lemma CommandProgress(s: seq<Byte>, c: Checksums, p: nat, command: Byte)
    ensures p < Transaction(s, c, p, command, 0).2
    ensures Transaction(s, c, p, command, 0).0 >= 0 && !IsBlockRead(command)
            ==> Transaction(s, c, p, command, 0).2 <= |s|
  {
    var f := IdleAt(s, p) + 1;
    if AllIdle(Window(s, f, 6)) {
      var k := FirstBusy(s, f + 6, SPI_MAX_WAIT + 1);
      if k < f + 6 + SPI_MAX_WAIT + 1 {
        assert In(s, k) != IDLE;
      }
    }
  }

  /** TRANSMIT_INTERRUPTED is returned exactly when a frame byte was echoed
      non-idle, or when no non-idle byte arrived within SPI_MAX_WAIT + 1 polls. */
  lemma InterruptedIff(s: seq<Byte>, c: Checksums, p: nat, command: Byte, n: nat)
    ensures var f := IdleAt(s, p) + 1;
      Transaction(s, c, p, command, n).0 == TRANSMIT_INTERRUPTED
      <==> (!AllIdle(Window(s, f, 6))
            || forall k :: f + 6 <= k < f + 6 + SPI_MAX_WAIT + 1 ==> In(s, k) == IDLE)
  {
    var f := IdleAt(s, p) + 1;
    if AllIdle(Window(s, f, 6)) {
      var k := FirstBusy(s, f + 6, SPI_MAX_WAIT + 1);
      FirstBusyFirst(s, f + 6, SPI_MAX_WAIT + 1);
      if k < f + 6 + SPI_MAX_WAIT + 1 {
        assert In(s, k) != IDLE;
      }
    }
  }

  /** A transaction succeeds (result 0) only if its frame went through and the
      card answered R1 == 0; for a block read also only if the start token
      arrived and the payload's CRC-16 matched the two trailing bytes. */
  lemma SuccessMeans(s: seq<Byte>, c: Checksums, p: nat, command: Byte, n: nat)
    requires Transaction(s, c, p, command, n).0 == OK
    ensures var f := IdleAt(s, p) + 1;
      var k := FirstBusy(s, f + 6, SPI_MAX_WAIT + 1);
      && AllIdle(Window(s, f, 6))
      && k < f + 6 + SPI_MAX_WAIT + 1
      && In(s, k) == 0
      && (IsBlockRead(command) ==>
            var t := TokenAt(s, k + 1);
            var d := Window(s, t + 1, n);
            && In(s, t) == DATA_TOKEN
            && Transaction(s, c, p, command, n).1 == Some(d)
            && In(s, t + 1 + n) * 0x100 + In(s, t + 2 + n) == c.crc16(d))
  {
  }

  /** Once the frame was echoed idle, the transaction is its response phase. */
  lemma EchoedTransaction(s: seq<Byte>, c: Checksums, p: nat, command: Byte, n: nat)
    requires AllIdle(Window(s, FrameAt(s, p), 6))
    ensures Transaction(s, c, p, command, n) == ResponsePhase(s, c, FrameAt(s, p) + 6, command, n)
  {
  }

  /** The data phase, case by case: a token other than 0xFE is returned
      shifted left by 8 (GENERIC when that is 0, or when the card never sends
      one); after 0xFE the payload is read, and a CRC-16 mismatch gives
      CRC_FAILED, a match 0. */
  lemma BlockDataOutcome(s: seq<Byte>, c: Checksums, q: nat, n: nat)
    ensures var r := BlockData(s, c, q, n);
      var t := TokenAt(s, q);
      var d := Window(s, t + 1, n);
      var crcOk := In(s, t + 1 + n) * 0x100 + In(s, t + 1 + n + 1) == c.crc16(d);
      && (In(s, t) != DATA_TOKEN ==>
            r.0 == (if In(s, t) == 0 || In(s, t) == IDLE then GENERIC else In(s, t) * 0x100)
            && r.1.None? && r.2 == t + 1)
      && (In(s, t) == DATA_TOKEN ==> r.1 == Some(d) && r.2 == t + 1 + n + 2)
      && (In(s, t) == DATA_TOKEN && !crcOk ==> r.0 == CRC_FAILED)
      && (In(s, t) == DATA_TOKEN && crcOk ==> r.0 == OK)
  {
  }

  /** The outcome of a block read (commands 17 and 18) once the frame went
      through and R1 arrived: a nonzero R1 is returned as is, with nothing
      read; R1 == 0 leads into the data phase right after it. */
  lemma BlockReadOutcome(s: seq<Byte>, c: Checksums, p: nat, command: Byte, n: nat)
    requires IsBlockRead(command)
    requires AllIdle(Window(s, IdleAt(s, p) + 1, 6))
    requires FirstBusy(s, IdleAt(s, p) + 7, SPI_MAX_WAIT + 1) < IdleAt(s, p) + 7 + SPI_MAX_WAIT + 1
    ensures var k := FirstBusy(s, IdleAt(s, p) + 7, SPI_MAX_WAIT + 1);
      var r := Transaction(s, c, p, command, n);
      && (In(s, k) != 0 ==> r == (In(s, k), None, k + 1))
      && (In(s, k) == 0 ==> r == BlockData(s, c, k + 1, n))
  {
    EchoedTransaction(s, c, p, command, n);
  }

  /** Any other command returns its R1 byte, having read `n` payload bytes
      right after it, as soon as R1 arrives. */
  lemma PlainCommandOutcome(s: seq<Byte>, c: Checksums, p: nat, command: Byte, n: nat)
    requires !IsBlockRead(command)
    requires AllIdle(Window(s, IdleAt(s, p) + 1, 6))
    requires FirstBusy(s, IdleAt(s, p) + 7, SPI_MAX_WAIT + 1) < IdleAt(s, p) + 7 + SPI_MAX_WAIT + 1
    ensures var k := FirstBusy(s, IdleAt(s, p) + 7, SPI_MAX_WAIT + 1);
      var r := Transaction(s, c, p, command, n);
      && r.0 == In(s, k)
      && 0 <= r.0 < 0xFF
      && r.1 == Some(Window(s, k + 1, n))
      && r.2 == k + 1 + n
  {
  }

  /** A command moves the bus forward and only appends to what the host sent. */
  lemma CommandExtends(s: seq<Byte>, c: Checksums, w: Wire, command: Byte, param: U32, n: nat)
    ensures w.pos < CommandSpec(s, c, w, command, param, n).wire.pos
    ensures w.sent <= CommandSpec(s, c, w, command, param, n).wire.sent
    ensures w.sent + Fill(FrameAt(s, w.pos) - w.pos) + Frame(c, command, param)
            <= CommandSpec(s, c, w, command, param, n).wire.sent
  {
    var r := CommandSpec(s, c, w, command, param, n);
    var f := FrameAt(s, w.pos);
    var head := w.sent + Fill(f - w.pos) + Frame(c, command, param);
    assert r.wire.sent == head + Fill(r.wire.pos - (f + 6));
    assert r.wire.sent == w.sent + (Fill(f - w.pos) + Frame(c, command, param) + Fill(r.wire.pos - (f + 6)));
  }

  /** The codes a transaction can return: a card byte or a shifted token
      (nonnegative), TRANSMIT_INTERRUPTED, GENERIC or CRC_FAILED. */
  lemma ResultCodes(s: seq<Byte>, c: Checksums, p: nat, command: Byte, n: nat)
    ensures var r := Transaction(s, c, p, command, n).0;
      r >= 0 || r == TRANSMIT_INTERRUPTED || r == GENERIC || r == CRC_FAILED
  {
  }

  /** SDCardSendACommand: CMD55 first; a negative or illegal-command reply to
      it is the result and the real command is not sent. */
  function ACommandSpec(s: seq<Byte>, c: Checksums, w: Wire, command: Byte, param: U32, n: nat): (r: Reply)
  {
    var first := CommandSpec(s, c, w, 55, 0, 0);
    if first.result < 0 || HasBits(first.result, R1_ILLEGAL_CMD) then first
    else CommandSpec(s, c, first.wire, command, param, n)
  }

  /** The application-command wrapper either stops after CMD55, returning its
      result, or sends both frames in order and returns the second result. */
  lemma ACommandOutcome(s: seq<Byte>, c: Checksums, w: Wire, command: Byte, param: U32, n: nat)
    ensures var first := CommandSpec(s, c, w, 55, 0, 0);
      var r := ACommandSpec(s, c, w, command, param, n);
      if first.result < 0 || HasBits(first.result, R1_ILLEGAL_CMD) then
        r.result == first.result && r.wire == first.wire
      else
        var second := CommandSpec(s, c, first.wire, command, param, n);
        && r.result == second.result
        && var f1 := FrameAt(s, w.pos);
        && var f2 := FrameAt(s, first.wire.pos);
        && r.wire.sent == w.sent + Fill(f1 - w.pos) + Frame(c, 55, 0) + Fill(first.wire.pos - (f1 + 6))
                          + Fill(f2 - first.wire.pos) + Frame(c, command, param) + Fill(r.wire.pos - (f2 + 6))
  {
  }

  /** An application command, too, moves the bus forward and only appends. */
  lemma ACommandExtends(s: seq<Byte>, c: Checksums, w: Wire, command: Byte, param: U32, n: nat)
    ensures w.pos < ACommandSpec(s, c, w, command, param, n).wire.pos
    ensures w.sent <= ACommandSpec(s, c, w, command, param, n).wire.sent
  {
    var first := CommandSpec(s, c, w, 55, 0, 0);
    CommandExtends(s, c, w, 55, 0, 0);
    CommandExtends(s, c, first.wire, command, param, n);
  }
}
