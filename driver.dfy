/** The SD card driver as an object: the session state, the diagnostic log,
    and the SPI bus it drives. The card end of the bus is a script of the
    bytes it drives, one per clock; the host end is the log of bytes sent. */
module Driver {
  import opened Bytes
  import opened Command
  import opened ErrorLog
  import CardStartup
  import SectorIo

  class SdCard {
    // The bus.
    /** Bytes the card drives, one per clock; idle once it runs out. */
    const script: seq<Byte>
    /** The checksum routines of crc.h. */
    const sums: Checksums
    /** Clocks so far. */
    var pos: nat
    /** Bytes the host clocked out, in order. */
    var sent: seq<Byte>
    /** Chip select asserted (slave-select pin low). */
    var selected: bool
    /** Bus clock at the operational rate (10 MHz) rather than the probe rate (100 kHz). */
    var fast: bool
    /** Mutex take and give counts. */
    var mutexTakes: nat
    var mutexGives: nat

    // The session.
    var initialized: bool
    var isHC: bool
    /** -1 before a successful startup; then 0 MMC, 1 SD v1, 2 SD v2. */
    var version: int

    // The diagnostic log.
    const errors: array<ErrorRecord>
    var errorCount: nat

    /** The bus mutex is free: given back as often as it was taken. */
    predicate Unlocked()
      reads this
    {
      mutexGives == mutexTakes
    }

    /** No command in progress: chip select released and the mutex free. */
    predicate Released()
      reads this
    {
      !selected && Unlocked()
    }

    ghost predicate Valid()
      reads this
    {
      && errors.Length == LOG_SIZE
      && Unlocked()
      && (initialized ==> 0 <= version <= 2)
      && (isHC ==> initialized && 1 <= version)
    }

    function WireView(): Wire
      reads this
    {
      Wire(pos, sent)
    }

    /** The log as a value: the stored records and the count since the last dump. */
    function LogView(): (l: Log)
      reads this, errors
      requires errors.Length == LOG_SIZE
      ensures ErrorLog.Valid(l)
    {
      Log(errors[..Min(errorCount, LOG_SIZE)], errorCount)
    }

    /** SDCardInit with the session globals at their initial values: probe
        clock, chip select released, no card, empty log. */
    constructor (cardScript: seq<Byte>, checksums: Checksums)
      ensures Valid()
      ensures script == cardScript && sums == checksums && pos == 0 && sent == []
      ensures !selected && !fast && mutexTakes == 0
      ensures !initialized && !isHC && version == -1
      ensures fresh(errors) && LogView() == Empty
    {
      script, sums := cardScript, checksums;
      pos, sent := 0, [];
      selected, fast := false, false;
      mutexTakes, mutexGives := 0, 0;
      initialized, isHC, version := false, false, -1;
      errors := new ErrorRecord[LOG_SIZE];
      errorCount := 0;
    }

    // -------------------------------------------------------------------------
    // Transport primitives (the SPI driver, external to the core).

    /** spi_transceive_byte: clock one byte out and one in. */
    method Exchange(out: Byte) returns (b: Byte)
      modifies this`pos, this`sent
      ensures b == In(script, old(pos))
      ensures pos == old(pos) + 1 && sent == old(sent) + [out]
    {
      b := In(script, pos);
      pos, sent := pos + 1, sent + [out];
    }

    /** spi_transceive: exchange `n` bytes of `buf` from `off` in place. */
    method Transceive(buf: array<Byte>, off: nat, n: nat)
      requires off + n <= buf.Length
      modifies this`pos, this`sent, buf
      ensures pos == old(pos) + n
      ensures sent == old(sent) + old(buf[off..off + n])
      ensures buf[..] == old(buf[..off]) + Window(script, old(pos), n) + old(buf[off + n..])
    {
      var i := 0;
      while i < n
        invariant 0 <= i <= n
        invariant pos == old(pos) + i
        invariant sent == old(sent) + old(buf[off..off + i])
        invariant forall j :: 0 <= j < buf.Length ==>
          buf[j] == if off <= j < off + i then In(script, old(pos) + (j - off)) else old(buf[j])
      {
        var b := Exchange(buf[off + i]);
        buf[off + i] := b;
        assert old(buf[off..off + i + 1]) == old(buf[off..off + i]) + [old(buf[off + i])];
        i := i + 1;
      }
      WindowAt(script, old(pos), n);
      assert buf[..] == old(buf[..off]) + Window(script, old(pos), n) + old(buf[off + n..]);
    }

    /** spi_send: clock `n` bytes of `buf` out, ignoring what comes in. */
    method Send(buf: seq<Byte>)
      modifies this`pos, this`sent
      ensures pos == old(pos) + |buf|
      ensures sent == old(sent) + buf
    {
      var i := 0;
      while i < |buf|
        invariant 0 <= i <= |buf|
        invariant pos == old(pos) + i
        invariant sent == old(sent) + buf[..i]
      {
        var _ := Exchange(buf[i]);
        assert buf[..i + 1] == buf[..i] + [buf[i]];
        i := i + 1;
      }
    }

    // -------------------------------------------------------------------------
    // Commands, phase by phase.

    /** The busy wait that opens SDCardSendCommand: clock idle bytes until the
        card reads idle. */
    method AwaitIdleBus()
      modifies this`pos, this`sent
      ensures pos == FrameAt(script, old(pos))
      ensures sent == old(sent) + Fill(pos - old(pos))
    {
      var b := Exchange(IDLE);
      while b != IDLE
        invariant old(pos) < pos && b == In(script, pos - 1)
        invariant IdleAt(script, old(pos)) == IdleAt(script, pos - 1)
        invariant sent == old(sent) + Fill(pos - old(pos))
        decreases |script| - pos
      {
        b := Exchange(IDLE);
      }
    }

    /** Fill a fresh command buffer with the frame of `command` and `param`. */
    method BuildFrame(command: Byte, param: U32) returns (frame: array<Byte>)
      ensures fresh(frame) && frame[..] == Frame(sums, command, param)
    {
      frame := new Byte[6];
      frame[0] := (command + 0x40) % 0x100;
      frame[1] := param / 0x100_0000;
      frame[2] := (param / 0x1_0000) % 0x100;
      frame[3] := (param / 0x100) % 0x100;
      frame[4] := param % 0x100;
      ghost var head := [(command + 0x40) % 0x100] + Be32(param);
      assert frame[..5] == head;
      var check := sums.crc7(frame[..5]);
      frame[5] := (check * 2) % 0x100 + 1;
      assert frame[..] == head + [(check * 2) % 0x100 + 1];
    }

    /** Clock the frame out and report whether every byte the card drove
        meanwhile was idle. */
    method SendFrame(command: Byte, param: U32) returns (echoIdle: bool)
      modifies this`pos, this`sent
      ensures pos == old(pos) + 6 && sent == old(sent) + Frame(sums, command, param)
      ensures echoIdle == AllIdle(Window(script, old(pos), 6))
    {
      var frame := BuildFrame(command, param);
      ghost var echo := Window(script, pos, 6);
      Transceive(frame, 0, 6);
      assert frame[..] == echo;
      echoIdle := Idle(frame);
    }

    /** Whether every byte of `bytes` is idle, scanning up to the first one
        that is not. */
    static method Idle(bytes: array<Byte>) returns (idle: bool)
      ensures idle == AllIdle(bytes[..])
    {
      var i := 0;
      while i < bytes.Length && bytes[i] == IDLE
        invariant 0 <= i <= bytes.Length
        invariant forall k :: 0 <= k < i ==> bytes[k] == IDLE
      {
        i := i + 1;
      }
      idle := i == bytes.Length;
    }

    /** Poll for R1: at most SPI_MAX_WAIT + 1 reads, stopping at the first
        non-idle byte; idle if none came. */
    method PollR1() returns (read: Byte)
      modifies this`pos, this`sent
      ensures var k := FirstBusy(script, old(pos), SPI_MAX_WAIT + 1);
        && (k < old(pos) + SPI_MAX_WAIT + 1 ==> read == In(script, k) && pos == k + 1)
        && (k == old(pos) + SPI_MAX_WAIT + 1 ==> read == IDLE && pos == k)
      ensures sent == old(sent) + Fill(pos - old(pos))
    {
      var wait := SPI_MAX_WAIT;
      read := Exchange(IDLE);
      while read == IDLE && wait > 0
        invariant old(pos) < pos && pos - old(pos) + wait == SPI_MAX_WAIT + 1
        invariant read == In(script, pos - 1)
        invariant FirstBusy(script, old(pos), SPI_MAX_WAIT + 1) == FirstBusy(script, pos - 1, wait + 1)
        invariant sent == old(sent) + Fill(pos - old(pos))
        decreases wait
      {
        wait := wait - 1;
        read := Exchange(IDLE);
      }
    }

    /** Wait for the data token: the first non-idle byte, or the first idle
        read past the end of the card's script. */
    method AwaitToken() returns (read: Byte)
      modifies this`pos, this`sent
      ensures pos == TokenAt(script, old(pos)) + 1 && read == In(script, TokenAt(script, old(pos)))
      ensures sent == old(sent) + Fill(pos - old(pos))
    {
      read := Exchange(IDLE);
      while read == IDLE && pos <= |script|
        invariant old(pos) < pos && read == In(script, pos - 1)
        invariant TokenAt(script, old(pos)) == TokenAt(script, pos - 1)
        invariant sent == old(sent) + Fill(pos - old(pos))
        decreases |script| + 1 - pos
      {
        read := Exchange(IDLE);
      }
    }

    /** Clear `n` bytes of `buffer` at `offset` to idle and exchange them:
        they are clocked out idle and replaced by what the card drove. */
    method ReceivePayload(buffer: array<Byte>, offset: nat, n: nat)
      requires offset + n <= buffer.Length
      modifies this`pos, this`sent, buffer
      ensures pos == old(pos) + n && sent == old(sent) + Fill(n)
      ensures buffer[..] == Store(old(buffer[..]), offset, Some(Window(script, old(pos), n)))
    {
      if n > 0 {
        forall j | offset <= j < offset + n {
          buffer[j] := IDLE;
        }
        FillIdle(n);
        assert buffer[offset..offset + n] == Fill(n);
        Transceive(buffer, offset, n);
      } else {
        assert buffer[..] == old(buffer[..offset]) + [] + old(buffer[offset..]);
      }
    }

    /** Read the payload and the two CRC bytes after it, and compare them
        with the CRC-16 of the payload. */
    method ReadChecked(buffer: array<Byte>, offset: nat, n: nat) returns (crcOk: bool)
      requires offset + n <= buffer.Length
      modifies this`pos, this`sent, buffer
      ensures pos == old(pos) + n + 2 && sent == old(sent) + Fill(n + 2)
      ensures buffer[..] == Store(old(buffer[..]), offset, Some(Window(script, old(pos), n)))
      ensures crcOk == (In(script, old(pos) + n) * 0x100 + In(script, old(pos) + n + 1)
                        == sums.crc16(Window(script, old(pos), n)))
    {
      ReceivePayload(buffer, offset, n);
      assert buffer[offset..offset + n] == Window(script, old(pos), n);
      var hi := Exchange(IDLE);
      var lo := Exchange(IDLE);
      assert Fill(n + 2) == Fill(n) + [IDLE] + [IDLE];
      var crcIn := (hi as int) * 0x100 + lo;
      crcOk := crcIn == sums.crc16(buffer[offset..offset + n]);
    }

    /** The data phase of a block read after R1 == 0: wait for the start
        token, read the payload, then check its CRC-16. */
    method ReadBlock(buffer: array<Byte>, offset: nat, recvSize: nat) returns (result: int)
      requires offset + recvSize <= buffer.Length
      modifies this`pos, this`sent, buffer
      ensures var r := BlockData(script, sums, old(pos), recvSize);
        && result == r.0 && pos == r.2
        && buffer[..] == Store(old(buffer[..]), offset, r.1)
      ensures sent == old(sent) + Fill(pos - old(pos))
    {
      ghost var b0 := buffer[..];
      ghost var t := TokenAt(script, pos);
      var read := AwaitToken();
      ghost var p1 := pos;
      assert p1 == t + 1;
      // R1 == 0 stands when no token byte arrives
      var token := if read != IDLE then read else 0;
      if token != DATA_TOKEN {
        result := FailCode((token as int) * 0x100);
        assert BlockData(script, sums, old(pos), recvSize) == (result, None, pos);
        assert buffer[..] == b0;
        return;
      }
      var crcOk := ReadChecked(buffer, offset, recvSize);
      assert buffer[..] == Store(b0, offset, Some(Window(script, t + 1, recvSize)));
      FillAdd(old(sent), p1 - old(pos), recvSize + 2, pos - old(pos));
      result := if crcOk then OK else CRC_FAILED;
      assert BlockData(script, sums, old(pos), recvSize) == (result, Some(Window(script, t + 1, recvSize)), pos);
    }

    /** Everything after the frame: R1, then the payload, which for a block
        read is the data phase. */
    method Respond(command: Byte, buffer: array<Byte>, offset: nat, recvSize: nat) returns (result: int)
      requires offset + recvSize <= buffer.Length
      modifies this`pos, this`sent, buffer
      ensures var r := ResponsePhase(script, sums, old(pos), command, recvSize);
        && result == r.0 && pos == r.2
        && buffer[..] == Store(old(buffer[..]), offset, r.1)
      ensures sent == old(sent) + Fill(pos - old(pos))
    {
      ghost var b0 := buffer[..];
      ghost var spec := ResponsePhase(script, sums, pos, command, recvSize);
      ghost var k := FirstBusy(script, pos, SPI_MAX_WAIT + 1);
      result := TRANSMIT_INTERRUPTED;
      var read := PollR1();
      if read == IDLE {
        assert k == old(pos) + SPI_MAX_WAIT + 1;
        assert spec == (TRANSMIT_INTERRUPTED, None, pos);
        return;
      }
      assert k < old(pos) + SPI_MAX_WAIT + 1 && read == In(script, k);
      result := read;
      ghost var q := pos;
      if IsBlockRead(command) {
        if read == 0 {
          assert spec == BlockData(script, sums, q, recvSize);
          result := ReadBlock(buffer, offset, recvSize);
          FillAdd(old(sent), q - old(pos), pos - q, pos - old(pos));
        } else {
          assert spec == (read as int, None, q);
        }
      } else {
        assert spec == (read as int, Some(Window(script, q, recvSize)), q + recvSize);
        ReceivePayload(buffer, offset, recvSize);
        FillAdd(old(sent), q - old(pos), recvSize, pos - old(pos));
      }
    }

    /** The transaction itself: idle wait, frame, echo check, response. */
    method Transact(command: Byte, param: U32, buffer: array<Byte>, offset: nat, recvSize: nat)
      returns (result: int)
      requires offset + recvSize <= buffer.Length
      modifies this`pos, this`sent, buffer
      ensures var r := CommandSpec(script, sums, old(WireView()), command, param, recvSize);
        && result == r.result && WireView() == r.wire
        && buffer[..] == Store(old(buffer[..]), offset, r.data)
    {
      ghost var w := WireView();
      ghost var b0 := buffer[..];
      AwaitIdleBus();
      ghost var f := pos;
      result := TRANSMIT_INTERRUPTED;
      var echoIdle := SendFrame(command, param);
      assert buffer[..] == b0;
      if echoIdle {
        EchoedTransaction(script, sums, w.pos, command, recvSize);
        result := Respond(command, buffer, offset, recvSize);
      } else {
        assert Fill(pos - (f + 6)) == [];
      }
      assert sent == w.sent + Fill(f - w.pos) + Frame(sums, command, param) + Fill(pos - (f + 6));
    }

    /** SDCardSendCommand: one command transaction under the bus mutex with
        chip select asserted. `crc` plays no part: the frame's CRC-7 is
        computed. Up to `recvSize` received bytes land in `buffer` from
        `offset` on. */
    method SendCommand(command: Byte, param: U32, crc: Byte, buffer: array<Byte>, offset: nat, recvSize: nat)
      returns (result: int)
      requires Unlocked()
      requires offset + recvSize <= buffer.Length
      modifies this`pos, this`sent, this`selected, this`mutexTakes, this`mutexGives, buffer
      ensures Released()
      ensures var r := CommandSpec(script, sums, old(WireView()), command, param, recvSize);
        && result == r.result && WireView() == r.wire
        && buffer[..] == Store(old(buffer[..]), offset, r.data)
      ensures mutexTakes == old(mutexTakes) + 1 && mutexGives == old(mutexGives) + 1
    {
      mutexTakes := mutexTakes + 1;
      selected := true;
      result := Transact(command, param, buffer, offset, recvSize);
      selected := false;
      mutexGives := mutexGives + 1;
    }

    /** SDCardSendACommand: CMD55, then the application command unless CMD55
        failed or was refused as illegal. */
    method SendACommand(command: Byte, param: U32, crc: Byte, buffer: array<Byte>, offset: nat, recvSize: nat)
      returns (result: int)
      requires Unlocked()
      requires offset + recvSize <= buffer.Length
      modifies this`pos, this`sent, this`selected, this`mutexTakes, this`mutexGives, buffer
      ensures Released()
      ensures var r := ACommandSpec(script, sums, old(WireView()), command, param, recvSize);
        && result == r.result && WireView() == r.wire
        && buffer[..] == Store(old(buffer[..]), offset, r.data)
      ensures var first := CommandSpec(script, sums, old(WireView()), 55, 0, 0).result;
        var n := if first < 0 || HasBits(first, R1_ILLEGAL_CMD) then 1 else 2;
        mutexTakes == old(mutexTakes) + n && mutexGives == old(mutexGives) + n
    {
      ghost var w := WireView();
      ghost var b0 := buffer[..];
      var first := SendCommand(55, 0, 0, buffer, offset, 0);
      assert buffer[..] == b0;
      if first < 0 || HasBits(first, R1_ILLEGAL_CMD) {
        return first;
      }
      result := SendCommand(command, param, crc, buffer, offset, recvSize);
    }

    // -------------------------------------------------------------------------
    // Startup, phase by phase as CardStartup specifies it.

    /** The 80 idle clock cycles that precede the reset. */
    method WakeUp()
      modifies this`pos, this`sent
      ensures pos == old(pos) + CardStartup.WAKE_BYTES
      ensures sent == old(sent) + Fill(CardStartup.WAKE_BYTES)
    {
      var i := 0;
      while i < CardStartup.WAKE_BYTES
        invariant i <= CardStartup.WAKE_BYTES
        invariant pos == old(pos) + i && sent == old(sent) + Fill(i)
      {
        var _ := Exchange(IDLE);
        assert old(sent) + Fill(i) + [IDLE] == old(sent) + Fill(i + 1);
        i := i + 1;
      }
    }

    /** The reset loop of SDCardStartup: CMD0 until the card reports idle. */
    method ResetCard() returns (ok: bool, result: int)
      requires Released()
      modifies this`pos, this`sent, this`selected, this`mutexTakes, this`mutexGives
      ensures Released()
      ensures var r := CardStartup.ResetLoop(script, sums, old(WireView()), CardStartup.RESET_ATTEMPTS, GENERIC);
        ok == r.ok && result == r.result && WireView() == r.wire
    {
      var none := new Byte[0];
      var counter := CardStartup.RESET_ATTEMPTS;
      result := GENERIC;
      ghost var spec := CardStartup.ResetLoop(script, sums, WireView(), counter, result);
      while true
        invariant Released() && 0 < counter <= CardStartup.RESET_ATTEMPTS
        invariant CardStartup.ResetLoop(script, sums, WireView(), counter, result) == spec
        decreases if pos < |script| then |script| - pos else 0, counter
      {
        ghost var x := CommandSpec(script, sums, WireView(), 0, 0, 0);
        CommandProgress(script, sums, pos, 0);
        var response := SendCommand(0, 0, 0x95, none, 0, 0);
        assert response == x.result && WireView() == x.wire;
        if response == 1 {
          return true, result;
        }
        if response < 0 {
          result := response;
          if response == TRANSMIT_INTERRUPTED {
            counter := counter - 1;
            if counter > 0 {
              continue;
            }
          }
          return false, result;
        }
      }
    }

    /** One poll of the initialisation wait: ACMD41 (with HCS for a version 2
        card) or, for MMC, CMD1; an illegal-command answer to ACMD41 demotes
        the card to MMC. */
    method PollIdle(sdVersion: int) returns (response: int, newVersion: int)
      requires Released()
      modifies this`pos, this`sent, this`selected, this`mutexTakes, this`mutexGives
      ensures Released()
      ensures var x := CardStartup.IdleStep(script, sums, old(WireView()), sdVersion);
        response == x.0.result && newVersion == x.1 && WireView() == x.0.wire
    {
      var none := new Byte[0];
      newVersion := sdVersion;
      if sdVersion == 2 || sdVersion == 1 {
        response := SendACommand(41, if sdVersion == 2 then CardStartup.HCS else 0, 0xFF, none, 0, 0);
        if HasBits(response, R1_ILLEGAL_CMD) {
          newVersion := 0;
        }
      } else {
        response := SendCommand(1, 0, 0xFF, none, 0, 0);
      }
    }

    /** The initialisation wait of SDCardStartup: polls until the card leaves
        the idle state, at most IDLE_WAIT_ATTEMPTS of them. The bound test of
        the source's counted loop sits at the top of the body. */
    method AwaitReady(sdVersion: int) returns (result: int, newVersion: int)
      requires Released()
      modifies this`pos, this`sent, this`selected, this`mutexTakes, this`mutexGives
      ensures Released()
      ensures var r := CardStartup.IdleLoop(script, sums, old(WireView()), 0, sdVersion);
        result == r.result && newVersion == r.version && WireView() == r.wire
    {
      newVersion := sdVersion;
      var i := 0;
      ghost var spec := CardStartup.IdleLoop(script, sums, WireView(), i, newVersion);
      while true
        invariant Released() && i <= CardStartup.IDLE_WAIT_ATTEMPTS
        invariant CardStartup.IdleLoop(script, sums, WireView(), i, newVersion) == spec
        decreases CardStartup.IDLE_WAIT_ATTEMPTS - i
      {
        if i == CardStartup.IDLE_WAIT_ATTEMPTS {
          return IDLE_WAIT_TIMEOUT, newVersion;
        }
        CardStartup.IdleLoopStep(script, sums, WireView(), i, newVersion);
        var response;
        response, newVersion := PollIdle(newVersion);
        if response == 0 {
          return OK, newVersion;
        }
        if response < 0 {
          return response, newVersion;
        }
        i := i + 1;
      }
    }

    /** CMD16 and CMD59 of SDCardStartup. */
    method Finish(session: CardStartup.Session) returns (result: int, ready: bool)
      requires Released()
      modifies this`pos, this`sent, this`selected, this`mutexTakes, this`mutexGives
      ensures Released()
      ensures var b := CardStartup.Finish(script, sums, session, old(WireView()));
        result == b.result && ready == b.session.Some? && WireView() == b.wire
    {
      var none := new Byte[0];
      result := SendCommand(16, 512, 0xFF, none, 0, 0);
      if result != 0 {
        return result, false;
      }
      result := SendCommand(59, 1, 0xFF, none, 0, 0);
      ready := result == 0;
    }

    /** The OCR read (CMD58) and its checks, then Finish. */
    method Configure(carried: int, sdVersion: int) returns (result: int, session: Option<CardStartup.Session>)
      requires Released()
      modifies this`pos, this`sent, this`selected, this`mutexTakes, this`mutexGives
      ensures Released()
      ensures var b := CardStartup.Configure(script, sums, carried, sdVersion, old(WireView()));
        result == b.result && session == b.session && WireView() == b.wire
    {
      var ocr := new Byte[4](_ => 0);
      var response := SendCommand(58, 0, 0xFF, ocr, 0, 4);
      if HasBits(response, R1_ERROR_MASK) {
        return carried, None;
      }
      if !HasBits(ocr[1], CardStartup.OCR_VOLTAGE) {
        return VOLTAGE_NOT_SUPPORTED, None;
      }
      var hc := sdVersion >= 1 && HasBits(ocr[0], CardStartup.OCR_CCS);
      var ready;
      result, ready := Finish(CardStartup.Session(hc, sdVersion));
      session := if ready then Some(CardStartup.Session(hc, sdVersion)) else None;
    }

    /** The interface check (CMD8), the initialisation wait, then Configure. */
    method Identify(carried: int) returns (result: int, session: Option<CardStartup.Session>)
      requires Released()
      modifies this`pos, this`sent, this`selected, this`mutexTakes, this`mutexGives
      ensures Released()
      ensures var b := CardStartup.Identify(script, sums, carried, old(WireView()));
        result == b.result && session == b.session && WireView() == b.wire
    {
      ghost var spec := CardStartup.Identify(script, sums, carried, WireView());
      ghost var cmd8 := CommandSpec(script, sums, WireView(), 8, CardStartup.IF_COND, 4);
      var echo := new Byte[4](_ => 0);
      var response := SendCommand(8, CardStartup.IF_COND, 0xFF, echo, 0, 4);
      assert echo[..] == Store([0, 0, 0, 0], 0, cmd8.data);
      var sdVersion := 2;
      if HasBits(response, R1_ILLEGAL_CMD) {
        sdVersion := 1;
      } else if !(echo[2] == 0x01 && echo[3] == 0xAA) {
        assert spec == CardStartup.Boot(INVALID_SDCARD, None, cmd8.wire);
        return INVALID_SDCARD, None;
      }
      ghost var wake := CardStartup.IdleLoop(script, sums, cmd8.wire, 0, sdVersion);
      result, sdVersion := AwaitReady(sdVersion);
      if result != 0 {
        assert spec == CardStartup.Boot(wake.result, None, wake.wire);
        return result, None;
      }
      assert spec == CardStartup.Configure(script, sums, carried, wake.version, wake.wire);
      result, session := Configure(carried, sdVersion);
    }

    /** The bus side of SDCardStartup: release chip select, clock 80 idle
        cycles, reset the card, identify and configure it. */
    method BringUp() returns (result: int, session: Option<CardStartup.Session>)
      requires Unlocked()
      modifies this`pos, this`sent, this`selected, this`mutexTakes, this`mutexGives
      ensures Released()
      ensures var b := CardStartup.StartupSpec(script, sums, old(WireView()));
        result == b.result && session == b.session && WireView() == b.wire
      ensures session.Some? ==> 0 <= session.value.version <= 2 && (session.value.hc ==> 1 <= session.value.version)
    {
      ghost var w0 := Wire(pos + CardStartup.WAKE_BYTES, sent + Fill(CardStartup.WAKE_BYTES));
      selected := false;
      WakeUp();
      assert WireView() == w0;
      var ok, carried := ResetCard();
      if !ok {
        return carried, None;
      }
      result, session := Identify(carried);
    }

    /** SDCardStartup: bring the card up; on success switch to the fast
        clock and record the session, on failure leave the session as it
        was. */
    method Startup() returns (result: int)
      requires Valid()
      modifies this`pos, this`sent, this`selected, this`fast, this`mutexTakes, this`mutexGives
      modifies this`initialized, this`isHC, this`version
      ensures Valid() && Released()
      ensures var b := CardStartup.StartupSpec(script, sums, old(WireView()));
        && result == b.result && WireView() == b.wire
        && (b.session.Some? ==>
              fast && initialized && isHC == b.session.value.hc && version == b.session.value.version)
        && (b.session.None? ==>
              fast == old(fast) && initialized == old(initialized) && isHC == old(isHC) && version == old(version))
    {
      ghost var b := CardStartup.StartupSpec(script, sums, WireView());
      var session;
      result, session := BringUp();
      assert result == b.result && session == b.session && WireView() == b.wire;
      if session.Some? {
        fast := true;
        initialized, isHC, version := true, session.value.hc, session.value.version;
      }
    }

    // -------------------------------------------------------------------------
    // Sector I/O.

    /** SDCardReadSector: CMD17 for one 512-byte block into `buffer` from
        `offset` on; a failure is logged. */
    method ReadSector(buffer: array<Byte>, offset: nat, sector: U32) returns (result: int)
      requires Valid() && offset + SectorIo.SECTOR_SIZE <= buffer.Length
      modifies this`pos, this`sent, this`selected, this`mutexTakes, this`mutexGives, this`errorCount, errors, buffer
      ensures Valid() && Released()
      ensures var r := SectorIo.ReadSector(script, sums, isHC, old(WireView()), old(LogView()), sector);
        && result == r.result && WireView() == r.wire && LogView() == r.log
        && buffer[..] == Store(old(buffer[..]), offset, r.data)
    {
      result := SendCommand(17, SectorIo.SdAddress(isHC, sector), 0, buffer, offset, SectorIo.SECTOR_SIZE);
      if result != OK {
        LogError(SectorIo.CommandRecord(17, result, sector));
      }
    }

    /** SDCardDiskRead: `count` sectors from `sector` on into consecutive
        512-byte slots of `buffer` from `offset` on, one CMD17 each, stopping
        at the first failure. */
    method DiskRead(buffer: array<Byte>, offset: nat, sector: U32, count: nat) returns (result: int)
      requires Valid() && offset + SectorIo.SECTOR_SIZE * count <= buffer.Length
      modifies this`pos, this`sent, this`selected, this`mutexTakes, this`mutexGives, this`errorCount, errors, buffer
      ensures Valid()
      ensures selected == (old(selected) && count == 0)
      ensures var r := SectorIo.ReadRange(script, sums, isHC, old(buffer[..]), offset, sector, count,
                                          old(WireView()), old(LogView()));
        && result == r.result && WireView() == r.wire && LogView() == r.log && buffer[..] == r.buf
    {
      result := OK;
      var off: nat, cur: U32, left: nat := offset, sector, count;
      ghost var spec := SectorIo.ReadRange(script, sums, isHC, buffer[..], off, cur, left, WireView(), LogView());
      while left > 0
        invariant Valid() && off + SectorIo.SECTOR_SIZE * left <= buffer.Length
        invariant result == OK && selected == (old(selected) && left == count)
        invariant SectorIo.ReadRange(script, sums, isHC, buffer[..], off, cur, left, WireView(), LogView()) == spec
      {
        result, off, cur, left := ReadStep(buffer, off, cur, left);
        if result != OK {
          return;
        }
      }
    }

    /** One turn of SDCardDiskRead's loop: the read of sector `cur` into the
        slot at `off`, then the advance to the next slot and sector. The rest
        of the range either is abandoned with that read's result or continues
        from where the step leaves it. */
    method ReadStep(buffer: array<Byte>, off: nat, cur: U32, left: nat)
      returns (result: int, nextOff: nat, nextCur: U32, nextLeft: nat)
      requires Valid() && 0 < left && off + SectorIo.SECTOR_SIZE * left <= buffer.Length
      modifies this`pos, this`sent, this`selected, this`mutexTakes, this`mutexGives, this`errorCount, errors, buffer
      ensures Valid() && !selected
      ensures nextLeft == left - 1 && nextOff + SectorIo.SECTOR_SIZE * nextLeft <= buffer.Length
      ensures var before := SectorIo.ReadRange(script, sums, isHC, old(buffer[..]), off, cur, left,
                                               old(WireView()), old(LogView()));
        if result != OK then before == SectorIo.ReadRun(result, buffer[..], WireView(), LogView(), left, cur)
        else before == SectorIo.ReadRange(script, sums, isHC, buffer[..], nextOff, nextCur, nextLeft, WireView(), LogView())
    {
      ghost var w, l, b := WireView(), LogView(), buffer[..];
      ghost var x := SectorIo.ReadSector(script, sums, isHC, w, l, cur);
      result := ReadSector(buffer, off, cur);
      nextOff, nextCur, nextLeft := off + SectorIo.SECTOR_SIZE, SectorIo.Next(cur), left - 1;
      SectorIo.ReadRangeUnfold(script, sums, isHC, b, off, cur, left, w, l);
      SectorIo.ReadRangeAt(script, sums, isHC, Store(b, off, x.data), off + SectorIo.SECTOR_SIZE, SectorIo.Next(cur), left - 1,
                           x.wire, x.log, nextOff, nextCur, nextLeft);
    }

    /** The busy wait after a data response: clock idle bytes until the card
        stops holding the line at zero. */
    method AwaitNotBusy()
      modifies this`pos, this`sent
      ensures pos == SectorIo.ReadyAt(script, old(pos)) + 1
      ensures sent == old(sent) + Fill(pos - old(pos))
    {
      var b := Exchange(IDLE);
      while b == 0
        invariant old(pos) < pos && b == In(script, pos - 1)
        invariant SectorIo.ReadyAt(script, old(pos)) == SectorIo.ReadyAt(script, pos - 1)
        invariant sent == old(sent) + Fill(pos - old(pos))
        decreases |script| + 1 - pos
      {
        b := Exchange(IDLE);
      }
    }

    /** The data phase of a block write after CMD24 succeeded: chip select
        asserted again, the packet, then the data response, whose low five
        bits are returned, and the busy wait. */
    method SendBlock(block: seq<Byte>) returns (status: int)
      requires |block| == SectorIo.SECTOR_SIZE
      modifies this`pos, this`sent, this`selected
      ensures selected
      ensures (status, WireView()) == SectorIo.DataPhase(script, sums, old(WireView()), block)
    {
      var crc := sums.crc16(block);
      selected := true;
      var echo := Exchange(SectorIo.WRITE_TOKEN);
      Send(block);
      echo := Exchange(crc / 0x100);
      echo := Exchange(crc % 0x100);
      assert sent == old(sent) + SectorIo.DataPacket(sums, block);
      ghost var q := pos;
      ghost var head := sent;
      var response := Exchange(IDLE);
      status := response % 0x20;
      assert Fill(1) == [IDLE];
      AwaitNotBusy();
      FillAdd(head, 1, pos - (q + 1), pos - q);
    }

    /** SDCardWriteSectorInternal: CMD24, then the data phase; a failure of
        either is logged, and a data response of 5 is reported as 0. */
    method WriteOnce(buffer: array<Byte>, offset: nat, sector: U32) returns (result: int)
      requires Valid() && offset + SectorIo.SECTOR_SIZE <= buffer.Length
      modifies this`pos, this`sent, this`selected, this`mutexTakes, this`mutexGives, this`errorCount, errors
      ensures Valid()
      ensures var r := SectorIo.WriteOnce(script, sums, isHC, old(WireView()), old(LogView()),
                                          buffer[offset..offset + SectorIo.SECTOR_SIZE], sector);
        result == r.result && WireView() == r.wire && LogView() == r.log && selected == r.selected
    {
      ghost var log0 := LogView();
      var block := buffer[offset..offset + SectorIo.SECTOR_SIZE];
      ghost var spec := SectorIo.WriteOnce(script, sums, isHC, WireView(), log0, block, sector);
      ghost var cmd := CommandSpec(script, sums, WireView(), 24, SectorIo.SdAddress(isHC, sector), 0);
      var none := new Byte[0];
      result := SendCommand(24, SectorIo.SdAddress(isHC, sector), 0, none, 0, 0);
      if result != OK {
        assert spec == SectorIo.Written(result, WireView(), Push(log0, SectorIo.CommandRecord(24, result, sector)), false);
        LogError(SectorIo.CommandRecord(24, result, sector));
        return;
      }
      assert WireView() == cmd.wire;
      result := SendBlock(block);
      ghost var wire := WireView();
      if result == SectorIo.DATA_ACCEPTED {
        assert spec == SectorIo.Written(OK, wire, log0, true);
        return OK;
      }
      ghost var record := ErrorRecord(SectorIo.DATA_PHASE_LOG, result, ToInt32(sector), sums.crc16(block), 0);
      assert spec == SectorIo.Written(result, wire, Push(log0, record), true);
      LogError(ErrorRecord(SectorIo.DATA_PHASE_LOG, result, ToInt32(sector), sums.crc16(block), 0));
    }

    /** SDCardWriteSector with its retry limit honoured: at most
        WRITE_CRC_FAIL_RETRY attempts, repeating only after a CRC-error status. */
    method WriteSector(buffer: array<Byte>, offset: nat, sector: U32) returns (result: int)
      requires Valid() && offset + SectorIo.SECTOR_SIZE <= buffer.Length
      modifies this`pos, this`sent, this`selected, this`mutexTakes, this`mutexGives, this`errorCount, errors
      ensures Valid()
      ensures var r := SectorIo.WriteRetry(script, sums, isHC, old(WireView()), old(LogView()),
                                           buffer[offset..offset + SectorIo.SECTOR_SIZE], sector,
                                           SectorIo.WRITE_CRC_FAIL_RETRY).last;
        result == r.result && WireView() == r.wire && LogView() == r.log && selected == r.selected
    {
      ghost var block := buffer[offset..offset + SectorIo.SECTOR_SIZE];
      result := OK;
      var retryLimit := SectorIo.WRITE_CRC_FAIL_RETRY;
      ghost var spec := SectorIo.WriteRetry(script, sums, isHC, WireView(), LogView(), block, sector, retryLimit).last;
      while retryLimit > 0
        invariant Valid() && 0 <= retryLimit <= SectorIo.WRITE_CRC_FAIL_RETRY
        invariant retryLimit > 0 ==>
          SectorIo.WriteRetry(script, sums, isHC, WireView(), LogView(), block, sector, retryLimit).last == spec
        invariant retryLimit == 0 ==> SectorIo.Written(result, WireView(), LogView(), selected) == spec
      {
        ghost var x := SectorIo.WriteOnce(script, sums, isHC, WireView(), LogView(), block, sector);
        ghost var here := SectorIo.WriteRetry(script, sums, isHC, WireView(), LogView(), block, sector, retryLimit);
        result := WriteOnce(buffer, offset, sector);
        assert x == SectorIo.Written(result, WireView(), LogView(), selected);
        if result != SectorIo.DATA_CRC_ERROR || retryLimit == 1 {
          assert here.last == x;
          retryLimit := retryLimit - 1;
          assert spec == x;
          return;
        }
        assert here.last == SectorIo.WriteRetry(script, sums, isHC, WireView(), LogView(), block, sector, retryLimit - 1).last;
        retryLimit := retryLimit - 1;
      }
    }

    /** SDCardDiskWrite: `count` sectors from `sector` on out of consecutive
        512-byte slots of `buffer` from `offset` on, stopping at the first
        failure. */
    method DiskWrite(buffer: array<Byte>, offset: nat, sector: U32, count: nat) returns (result: int)
      requires Valid() && offset + SectorIo.SECTOR_SIZE * count <= buffer.Length
      modifies this`pos, this`sent, this`selected, this`mutexTakes, this`mutexGives, this`errorCount, errors
      ensures Valid()
      ensures var r := SectorIo.WriteRange(script, sums, isHC, buffer[..], offset, sector, count,
                                           old(WireView()), old(LogView()), old(selected));
        result == r.result && WireView() == r.wire && LogView() == r.log && selected == r.selected
    {
      result := OK;
      var off: nat, cur: U32, left: nat := offset, sector, count;
      ghost var spec := SectorIo.WriteRange(script, sums, isHC, buffer[..], off, cur, left, WireView(), LogView(), selected);
      while left > 0
        invariant Valid() && off + SectorIo.SECTOR_SIZE * left <= buffer.Length && result == OK
        invariant SectorIo.WriteRange(script, sums, isHC, buffer[..], off, cur, left, WireView(), LogView(), selected) == spec
      {
        result, off, cur, left := WriteStep(buffer, off, cur, left);
        if result != OK {
          return;
        }
      }
    }

    /** One turn of SDCardDiskWrite's loop: the write of the slot at `off` to
        sector `cur`, then the advance to the next slot and sector. */
    method WriteStep(buffer: array<Byte>, off: nat, cur: U32, left: nat)
      returns (result: int, nextOff: nat, nextCur: U32, nextLeft: nat)
      requires Valid() && 0 < left && off + SectorIo.SECTOR_SIZE * left <= buffer.Length
      modifies this`pos, this`sent, this`selected, this`mutexTakes, this`mutexGives, this`errorCount, errors
      ensures Valid()
      ensures nextLeft == left - 1 && nextOff + SectorIo.SECTOR_SIZE * nextLeft <= buffer.Length
      ensures var before := SectorIo.WriteRange(script, sums, isHC, buffer[..], off, cur, left,
                                                old(WireView()), old(LogView()), old(selected));
        if result != OK then before == SectorIo.WriteRun(result, WireView(), LogView(), selected, left, cur)
        else before == SectorIo.WriteRange(script, sums, isHC, buffer[..], nextOff, nextCur, nextLeft,
                                           WireView(), LogView(), selected)
    {
      ghost var w, l, sel := WireView(), LogView(), selected;
      result := WriteSector(buffer, off, cur);
      nextOff, nextCur, nextLeft := off + SectorIo.SECTOR_SIZE, SectorIo.Next(cur), left - 1;
      SectorIo.WriteRangeUnfold(script, sums, isHC, buffer[..], off, cur, left, w, l, sel);
      SectorIo.WriteRangeAt(script, sums, isHC, buffer[..], off + SectorIo.SECTOR_SIZE, SectorIo.Next(cur), left - 1,
                            WireView(), LogView(), selected, nextOff, nextCur, nextLeft);
    }

    // -------------------------------------------------------------------------
    // The diagnostic log.

    /** SDCardLogError: store the record while there is room; always count it. */
    method LogError(e: ErrorRecord)
      requires Valid()
      modifies this`errorCount, errors
      ensures Valid()
      ensures LogView() == Push(old(LogView()), e)
    {
      ghost var before := LogView();
      if errorCount < LOG_SIZE {
        errors[errorCount] := e;
        assert errors[..errorCount + 1] == before.records + [e];
      }
      errorCount := errorCount + 1;
    }

    /** SDCardDumpLogs: report the count, the overflow and the stored records,
        then empty the log. The report stands for the log lines it prints. */
    method DumpLogs() returns (report: Report)
      requires Valid()
      modifies this`errorCount
      ensures Valid()
      ensures (report, LogView()) == Dump(old(LogView()))
    {
      report := Report(0, 0, []);
      if errorCount > 0 {
        var overflow := if errorCount > LOG_SIZE then errorCount - LOG_SIZE else 0;
        var shown: seq<ErrorRecord> := [];
        var i := 0;
        while i < errorCount && i < LOG_SIZE
          invariant 0 <= i <= Min(errorCount, LOG_SIZE)
          invariant shown == errors[..i]
        {
          shown := shown + [errors[i]];
          i := i + 1;
        }
        report := Report(errorCount, overflow, shown);
        errorCount := 0;
      }
    }

    /** SDCardInitialized. */
    method Initialized() returns (b: bool)
      ensures b == initialized
    {
      b := initialized;
    }
  }
}
