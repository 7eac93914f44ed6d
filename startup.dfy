/** Card startup (SDCardStartup): 80 idle clocks, reset to the idle state
    with CMD0, interface check with CMD8, the initialisation wait with ACMD41
    or CMD1, the OCR read with CMD58, then block length (CMD16) and CRC
    checking (CMD59). Each phase is a function of the bus; the method in
    Driver follows the same phases. */
module CardStartup {
  import opened Bytes
  import opened Command

  /** CMD0 tries that may end in TRANSMIT_INTERRUPTED (SDCARD_RESET_ATTEMPTS; assumed value). */
  const RESET_ATTEMPTS: nat := 10
  /** Polls of the initialisation command before IDLE_WAIT_TIMEOUT. */
  const IDLE_WAIT_ATTEMPTS: nat := 10000
  /** Idle bytes clocked before the reset: 80 clock pulses. */
  const WAKE_BYTES: nat := 10
  /** CMD8 argument: 2.7-3.6 V and the check pattern 0xAA. */
  const IF_COND: U32 := 0x1AA
  /** ACMD41 argument announcing high-capacity support (HCS, bit 30). */
  const HCS: U32 := 0x4000_0000
  /** OCR byte 0: card capacity status. */
  const OCR_CCS: Byte := 0x40
  /** OCR byte 1: the two voltage-window bits checked. */
  const OCR_VOLTAGE: Byte := 0xC0

  /** The reset loop's outcome: whether CMD0 was answered with 1 (idle), the
      driver's `result` variable, the remaining interruption budget, the bus,
      and the bus as the last CMD0 found it. */
  datatype Reset = Reset(ok: bool, result: int, counter: nat, wire: Wire, last: Wire)

  /** The reset loop from clock `w`: CMD0 until the card answers 1. A
      negative answer is stored in `result`; TRANSMIT_INTERRUPTED costs one
      unit of `counter` and is retried while any is left, any other negative
      answer ends the loop. Other nonnegative answers are retried at no cost:
      each of them read an R1 byte from the card, so the card's script runs
      out eventually. */
  function ResetLoop(s: seq<Byte>, c: Checksums, w: Wire, counter: nat, result: int): (r: Reset)
    requires counter > 0
    ensures r.counter <= counter
    ensures r.counter == 0 <==> !r.ok && r.result == TRANSMIT_INTERRUPTED
    ensures !r.ok ==> r.result < 0
    ensures r.ok ==> r.result == if r.counter < counter then TRANSMIT_INTERRUPTED else result
    decreases if w.pos < |s| then |s| - w.pos else 0, counter
  {
    var x := CommandSpec(s, c, w, 0, 0, 0);
    CommandProgress(s, c, w.pos, 0);
    if x.result == 1 then Reset(true, result, counter, x.wire, w)
    else if x.result < 0 then
      if x.result == TRANSMIT_INTERRUPTED && counter > 1 then
        ResetLoop(s, c, x.wire, counter - 1, x.result)
      else
        Reset(false, x.result, if x.result == TRANSMIT_INTERRUPTED then counter - 1 else counter, x.wire, w)
    else ResetLoop(s, c, x.wire, counter, result)
  }

  /** From `w` to `last` the reset loop sent CMD0 after CMD0 and went on
      each time: every one was answered with something other than 1, and a
      negative answer was TRANSMIT_INTERRUPTED. */
  ghost predicate RetriedResets(s: seq<Byte>, c: Checksums, w: Wire, last: Wire)
    decreases if w.pos < last.pos then last.pos - w.pos else 0
  {
    if w == last then true
    else
      var x := CommandSpec(s, c, w, 0, 0, 0);
      CommandExtends(s, c, w, 0, 0, 0);
      && w.pos < last.pos
      && x.result != 1 && (x.result < 0 ==> x.result == TRANSMIT_INTERRUPTED)
      && RetriedResets(s, c, x.wire, last)
  }

  /** The TRANSMIT_INTERRUPTED answers among the CMD0s sent from `w` up to
      `last`. */
  ghost function Interruptions(s: seq<Byte>, c: Checksums, w: Wire, last: Wire): nat
    decreases if w.pos < last.pos then last.pos - w.pos else 0
  {
    if w == last || last.pos <= w.pos then 0
    else
      var x := CommandSpec(s, c, w, 0, 0, 0);
      CommandExtends(s, c, w, 0, 0, 0);
      (if x.result == TRANSMIT_INTERRUPTED then 1 else 0) + Interruptions(s, c, x.wire, last)
  }

  /** How the reset loop ends: the CMD0s before the last were all retried,
      and the last one decides. The loop succeeds exactly when that CMD0 was
      answered with 1; when it fails, that CMD0's answer is the result; the
      bus is where that CMD0 left it. The budget spent is the number of
      TRANSMIT_INTERRUPTED answers the card gave, the last CMD0's included. */
  lemma {:induction false} ResetLoopEnds(s: seq<Byte>, c: Checksums, w: Wire, counter: nat, result: int)
    requires counter > 0
    ensures var r := ResetLoop(s, c, w, counter, result);
      var x := CommandSpec(s, c, r.last, 0, 0, 0);
      && w.pos <= r.last.pos
      && RetriedResets(s, c, w, r.last)
      && x.wire == r.wire
      && (r.ok <==> x.result == 1)
      && (!r.ok ==> r.result == x.result)
      && counter - r.counter == Interruptions(s, c, w, r.last) + (if x.result == TRANSMIT_INTERRUPTED then 1 else 0)
    decreases if w.pos < |s| then |s| - w.pos else 0, counter
  {
    var x := CommandSpec(s, c, w, 0, 0, 0);
    CommandProgress(s, c, w.pos, 0);
    CommandExtends(s, c, w, 0, 0, 0);
    if x.result != 1 && x.result < 0 && x.result == TRANSMIT_INTERRUPTED && counter > 1 {
      ResetLoopEnds(s, c, x.wire, counter - 1, x.result);
    } else if x.result != 1 && x.result >= 0 {
      ResetLoopEnds(s, c, x.wire, counter, result);
    }
  }

  /** The reset loop's first step is CMD0 from clock `w`: whatever follows
      extends what that command sent. */
  lemma {:induction false} ResetLoopBegins(s: seq<Byte>, c: Checksums, w: Wire, counter: nat, result: int)
    requires counter > 0
    ensures CommandSpec(s, c, w, 0, 0, 0).wire.sent <= ResetLoop(s, c, w, counter, result).wire.sent
    decreases if w.pos < |s| then |s| - w.pos else 0, counter
  {
    var x := CommandSpec(s, c, w, 0, 0, 0);
    CommandProgress(s, c, w.pos, 0);
    if x.result != 1 && !(x.result < 0 && !(x.result == TRANSMIT_INTERRUPTED && counter > 1)) {
      var counter' := if x.result < 0 then counter - 1 else counter;
      var result' := if x.result < 0 then x.result else result;
      ResetLoopBegins(s, c, x.wire, counter', result');
      CommandExtends(s, c, x.wire, 0, 0, 0);
      PrefixTrans(x.wire.sent, CommandSpec(s, c, x.wire, 0, 0, 0).wire.sent,
                  ResetLoop(s, c, x.wire, counter', result').wire.sent);
    }
  }

  /** One poll of the initialisation wait: ACMD41 (announcing HCS for a
      version 2 card) or, for MMC (version 0), CMD1. An ACMD41 answer with
      the illegal-command bit demotes the card to MMC. */
  function IdleStep(s: seq<Byte>, c: Checksums, w: Wire, version: int): (r: (Reply, int))
    ensures r.1 == version || r.1 == 0
    ensures r.1 == if (version == 1 || version == 2) && HasBits(r.0.result, R1_ILLEGAL_CMD) then 0 else version
  {
    if version == 2 || version == 1 then
      var x := ACommandSpec(s, c, w, 41, if version == 2 then HCS else 0, 0);
      (x, if HasBits(x.result, R1_ILLEGAL_CMD) then 0 else version)
    else
      (CommandSpec(s, c, w, 1, 0, 0), version)
  }

  /** The command a poll sends: ACMD41 with the HCS bit for a version 2
      card, ACMD41 with argument 0 for a version 1 card, CMD1 with argument
      0 for any other (MMC). */
  lemma IdleStepCommand(s: seq<Byte>, c: Checksums, w: Wire, version: int)
    ensures version == 2 ==> IdleStep(s, c, w, version).0 == ACommandSpec(s, c, w, 41, HCS, 0)
    ensures version == 1 ==> IdleStep(s, c, w, version).0 == ACommandSpec(s, c, w, 41, 0, 0)
    ensures version != 1 && version != 2 ==> IdleStep(s, c, w, version).0 == CommandSpec(s, c, w, 1, 0, 0)
  {
  }

  /** A poll moves the bus forward, only appends to what was sent, and never
      answers IDLE_WAIT_TIMEOUT itself. */
  lemma IdleStepProgress(s: seq<Byte>, c: Checksums, w: Wire, version: int)
    ensures var r := IdleStep(s, c, w, version).0;
      w.pos < r.wire.pos && w.sent <= r.wire.sent && r.result != IDLE_WAIT_TIMEOUT
  {
    if version == 2 || version == 1 {
      var param: U32 := if version == 2 then HCS else 0;
      ACommandExtends(s, c, w, 41, param, 0);
      var first := CommandSpec(s, c, w, 55, 0, 0);
      ResultCodes(s, c, w.pos, 55, 0);
      ResultCodes(s, c, first.wire.pos, 41, 0);
    } else {
      CommandExtends(s, c, w, 1, 0, 0);
      ResultCodes(s, c, w.pos, 1, 0);
    }
  }

  /** The initialisation wait's outcome: 0 when the card left the idle
      state, else the error or IDLE_WAIT_TIMEOUT; the card version; the
      index of the last poll (IDLE_WAIT_ATTEMPTS on timeout); the bus; the
      bus and the version as the last poll found them (where the wait
      stopped, on timeout). */
  datatype Wake = Wake(result: int, version: int, attempts: nat, wire: Wire, last: Wire, lastVersion: int)

  /** The initialisation wait from poll `i`: at most IDLE_WAIT_ATTEMPTS polls
      in all, ending at the first answer 0 or the first negative one; it
      times out exactly when every poll was used up. It only appends to what
      was sent. */
  function IdleLoop(s: seq<Byte>, c: Checksums, w: Wire, i: nat, version: int): (r: Wake)
    requires i <= IDLE_WAIT_ATTEMPTS
    ensures i <= r.attempts <= IDLE_WAIT_ATTEMPTS
    ensures r.result <= 0
    ensures r.result == IDLE_WAIT_TIMEOUT <==> r.attempts == IDLE_WAIT_ATTEMPTS
    ensures r.version == version || r.version == 0
    ensures w.sent <= r.wire.sent
    decreases IDLE_WAIT_ATTEMPTS - i
  {
    if i == IDLE_WAIT_ATTEMPTS then Wake(IDLE_WAIT_TIMEOUT, version, i, w, w, version)
    else
      var step := IdleStep(s, c, w, version);
      IdleStepProgress(s, c, w, version);
      if step.0.result == 0 then Wake(OK, step.1, i, step.0.wire, w, version)
      else if step.0.result < 0 then Wake(step.0.result, step.1, i, step.0.wire, w, version)
      else
        var rest := IdleLoop(s, c, step.0.wire, i + 1, step.1);
        PrefixTrans(w.sent, step.0.wire.sent, rest.wire.sent);
        rest
  }

  /** From `w` with `version` the wait made `n` polls and went on after each:
      every one was answered with a positive value, and the last of them
      left the bus at `last` and the version at `lastVersion`. */
  ghost predicate BusyPolls(s: seq<Byte>, c: Checksums, w: Wire, version: int, last: Wire, lastVersion: int, n: nat)
    decreases n
  {
    if n == 0 then w == last && version == lastVersion
    else
      var step := IdleStep(s, c, w, version);
      && step.0.result > 0
      && BusyPolls(s, c, step.0.wire, step.1, last, lastVersion, n - 1)
  }

  /** The wait's outcome is its last poll's: unless it timed out, that
      poll's answer, bus and version are the wait's; on timeout the wait
      ends where the last positive poll left it. */
  ghost predicate LastPollDecides(s: seq<Byte>, c: Checksums, r: Wake)
  {
    && (r.result == IDLE_WAIT_TIMEOUT ==> r.wire == r.last && r.version == r.lastVersion)
    && (r.result != IDLE_WAIT_TIMEOUT ==>
          var p := IdleStep(s, c, r.last, r.lastVersion);
          p.0.result == r.result && p.0.wire == r.wire && p.1 == r.version)
  }

  /** The wait from poll `i` at `w` with `version` ended as `r` says:
      `r.attempts - i` busy polls brought it to `r.last`, and the last poll
      decides. */
  ghost predicate WaitTrace(s: seq<Byte>, c: Checksums, w: Wire, i: nat, version: int, r: Wake)
  {
    && i <= r.attempts
    && w.pos <= r.last.pos
    && BusyPolls(s, c, w, version, r.last, r.lastVersion, r.attempts - i)
    && LastPollDecides(s, c, r)
  }

  /** How the initialisation wait ends: it made `r.attempts - i` busy
      polls, each answered with a positive value, and then the last poll
      decides the outcome (LastPollDecides): unless the wait timed out, one
      more poll was made and its answer (0 or negative), bus and version are
      the wait's. A timeout thus follows exactly IDLE_WAIT_ATTEMPTS - i busy
      polls, and any other outcome fewer busy polls and one deciding poll. */
  lemma IdleLoopEnds(s: seq<Byte>, c: Checksums, w: Wire, i: nat, version: int)
    requires i <= IDLE_WAIT_ATTEMPTS
    ensures WaitTrace(s, c, w, i, version, IdleLoop(s, c, w, i, version))
  {
    var r := IdleLoopTraced(s, c, w, i, version);
  }

  /** IdleLoop again, recursing in step with it so that the facts about its
      polls are carried along the recursion. */
  ghost function IdleLoopTraced(s: seq<Byte>, c: Checksums, w: Wire, i: nat, version: int): (r: Wake)
    requires i <= IDLE_WAIT_ATTEMPTS
    ensures r == IdleLoop(s, c, w, i, version)
    ensures WaitTrace(s, c, w, i, version, r)
    decreases IDLE_WAIT_ATTEMPTS - i
  {
    if i == IDLE_WAIT_ATTEMPTS then Wake(IDLE_WAIT_TIMEOUT, version, i, w, w, version)
    else
      var step := IdleStep(s, c, w, version);
      IdleStepProgress(s, c, w, version);
      if step.0.result == 0 then Wake(OK, step.1, i, step.0.wire, w, version)
      else if step.0.result < 0 then Wake(step.0.result, step.1, i, step.0.wire, w, version)
      else
        IdleLoopTraced(s, c, step.0.wire, i + 1, step.1)
  }

  /** The wait after one poll: over at an answer of 0 or below, otherwise
      left to the next poll. A proof step for the driver's polling loop,
      which meets the wait one poll at a time. */
  lemma IdleLoopStep(s: seq<Byte>, c: Checksums, w: Wire, i: nat, version: int)
    requires i < IDLE_WAIT_ATTEMPTS
    ensures var step := IdleStep(s, c, w, version);
      && (step.0.result == 0 ==> IdleLoop(s, c, w, i, version) == Wake(OK, step.1, i, step.0.wire, w, version))
      && (step.0.result < 0 ==>
            IdleLoop(s, c, w, i, version) == Wake(step.0.result, step.1, i, step.0.wire, w, version))
      && (step.0.result > 0 ==> IdleLoop(s, c, w, i, version) == IdleLoop(s, c, step.0.wire, i + 1, step.1))
  {
  }

  /** What the card reported once started: high capacity, and the version
      (0 MMC, 1 SD version 1, 2 SD version 2). */
  datatype Session = Session(hc: bool, version: int)

  /** Startup's result code, the session on success, and the bus. */
  datatype Boot = Boot(result: int, session: Option<Session>, wire: Wire)

  /** A startup outcome the driver can rely on: a session exactly when the
      result is 0, naming version 0, 1 or 2, high capacity only for SD. */
  predicate Settled(r: Boot)
  {
    && (r.session.Some? <==> r.result == OK)
    && (r.session.Some? ==> 0 <= r.session.value.version <= 2)
    && (r.session.Some? && r.session.value.hc ==> r.session.value.version >= 1)
  }

  /** CMD16 (512-byte blocks) then CMD59 (CRC checking on); a nonzero answer
      to either is the result. */
  function Finish(s: seq<Byte>, c: Checksums, session: Session, w: Wire): (r: Boot)
  {
    var cmd16 := CommandSpec(s, c, w, 16, 512, 0);
    if cmd16.result != 0 then Boot(cmd16.result, None, cmd16.wire)
    else
      var cmd59 := CommandSpec(s, c, cmd16.wire, 59, 1, 0);
      if cmd59.result != 0 then Boot(cmd59.result, None, cmd59.wire)
      else Boot(OK, Some(session), cmd59.wire)
  }

  /** The last two commands succeed together; otherwise the first nonzero
      answer, CMD16's or else CMD59's, is the result. */
  lemma FinishOutcome(s: seq<Byte>, c: Checksums, session: Session, w: Wire)
    ensures var r := Finish(s, c, session, w);
      var cmd16 := CommandSpec(s, c, w, 16, 512, 0);
      var cmd59 := CommandSpec(s, c, cmd16.wire, 59, 1, 0);
      && (r.session.Some? <==> r.result == OK)
      && (r.session.Some? ==> r.session.value == session)
      && (cmd16.result != 0 ==> r.result == cmd16.result)
      && (cmd16.result == 0 && cmd59.result != 0 ==> r.result == cmd59.result)
      && w.sent <= r.wire.sent
  {
    var cmd16 := CommandSpec(s, c, w, 16, 512, 0);
    CommandExtends(s, c, w, 16, 512, 0);
    CommandExtends(s, c, cmd16.wire, 59, 1, 0);
  }

  /** CMD58 and the OCR checks, then Finish, for a card of `version` that
      left the idle state. A CMD58 answer with an R1 error bit fails with the
      driver's `result` variable as the reset loop left it (`carried`). The
      OCR buffer is taken as zeros where CMD58 did not fill it. */
  function Configure(s: seq<Byte>, c: Checksums, carried: int, version: int, w: Wire): (r: Boot)
  {
    var cmd58 := CommandSpec(s, c, w, 58, 0, 4);
    var ocr := Store([0, 0, 0, 0], 0, cmd58.data);
    if HasBits(cmd58.result, R1_ERROR_MASK) then Boot(carried, None, cmd58.wire)
    else if !HasBits(ocr[1], OCR_VOLTAGE) then Boot(VOLTAGE_NOT_SUPPORTED, None, cmd58.wire)
    else Finish(s, c, Session(version >= 1 && HasBits(ocr[0], OCR_CCS), version), cmd58.wire)
  }

  /** Configuration succeeds exactly when it reports 0, keeps the version,
      and reports high capacity exactly for an SD card whose OCR has the CCS
      bit. An R1 error on CMD58 reports the carried code; otherwise an OCR
      with neither voltage bit reports VOLTAGE_NOT_SUPPORTED; otherwise the
      outcome is that of CMD16 and CMD59. */
  lemma ConfigureOutcome(s: seq<Byte>, c: Checksums, carried: int, version: int, w: Wire)
    requires carried != OK
    ensures var r := Configure(s, c, carried, version, w);
      var cmd58 := CommandSpec(s, c, w, 58, 0, 4);
      var ocr := Store([0, 0, 0, 0], 0, cmd58.data);
      && (r.session.Some? <==> r.result == OK)
      && (r.session.Some? ==> r.session.value.version == version)
      && (r.session.Some? ==> (r.session.value.hc <==> version >= 1 && HasBits(ocr[0], OCR_CCS)))
      && (HasBits(cmd58.result, R1_ERROR_MASK) ==> r.result == carried)
      && (!HasBits(cmd58.result, R1_ERROR_MASK) && !HasBits(ocr[1], OCR_VOLTAGE) ==> r.result == VOLTAGE_NOT_SUPPORTED)
      && (!HasBits(cmd58.result, R1_ERROR_MASK) && HasBits(ocr[1], OCR_VOLTAGE) ==>
            r.result == Finish(s, c, Session(version >= 1 && HasBits(ocr[0], OCR_CCS), version), cmd58.wire).result)
  {
    var r := Configure(s, c, carried, version, w);
    var cmd58 := CommandSpec(s, c, w, 58, 0, 4);
    var ocr := Store([0, 0, 0, 0], 0, cmd58.data);
    if !HasBits(cmd58.result, R1_ERROR_MASK) && HasBits(ocr[1], OCR_VOLTAGE) {
      var session := Session(version >= 1 && HasBits(ocr[0], OCR_CCS), version);
      assert r == Finish(s, c, session, cmd58.wire);
      FinishOutcome(s, c, session, cmd58.wire);
    }
  }

  /** Configuration only appends to what was sent. */
  lemma ConfigureExtends(s: seq<Byte>, c: Checksums, carried: int, version: int, w: Wire)
    ensures w.sent <= Configure(s, c, carried, version, w).wire.sent
  {
    var r := Configure(s, c, carried, version, w);
    var cmd58 := CommandSpec(s, c, w, 58, 0, 4);
    var ocr := Store([0, 0, 0, 0], 0, cmd58.data);
    CommandExtends(s, c, w, 58, 0, 4);
    if !HasBits(cmd58.result, R1_ERROR_MASK) && HasBits(ocr[1], OCR_VOLTAGE) {
      var session := Session(version >= 1 && HasBits(ocr[0], OCR_CCS), version);
      assert r == Finish(s, c, session, cmd58.wire);
      FinishOutcome(s, c, session, cmd58.wire);
      PrefixTrans(w.sent, cmd58.wire.sent, r.wire.sent);
    } else {
      assert r.wire == cmd58.wire;
    }
  }

  /** Everything after a successful reset: the CMD8 interface check (an
      illegal-command answer means an SD version 1 card; otherwise the card
      must echo 0x01, 0xAA, and the buffer is taken as zeros where CMD8 did
      not fill it), the initialisation wait, then Configure. */
  function Identify(s: seq<Byte>, c: Checksums, carried: int, w: Wire): (r: Boot)
  {
    var cmd8 := CommandSpec(s, c, w, 8, IF_COND, 4);
    var echo := Store([0, 0, 0, 0], 0, cmd8.data);
    var legacy := HasBits(cmd8.result, R1_ILLEGAL_CMD);
    if !legacy && !(echo[2] == 0x01 && echo[3] == 0xAA) then Boot(INVALID_SDCARD, None, cmd8.wire)
    else
      var wake := IdleLoop(s, c, cmd8.wire, 0, if legacy then 1 else 2);
      if wake.result != 0 then Boot(wake.result, None, wake.wire)
      else Configure(s, c, carried, wake.version, wake.wire)
  }

  /** Identification succeeds exactly when it reports 0, with a version of
      0, 1 or 2, and high capacity only for an SD card. A card that answers
      CMD8 without the illegal-command bit but does not echo 0x01, 0xAA is
      INVALID_SDCARD. Otherwise the initialisation wait starts with version
      1 after an illegal-command answer and 2 after a valid echo; its error
      or timeout is the result, and a session carries the version it ended
      with (the starting one, or 0 for MMC). */
  lemma IdentifyOutcome(s: seq<Byte>, c: Checksums, carried: int, w: Wire)
    requires carried != OK
    ensures Settled(Identify(s, c, carried, w))
    ensures var r := Identify(s, c, carried, w);
      var cmd8 := CommandSpec(s, c, w, 8, IF_COND, 4);
      var echo := Store([0, 0, 0, 0], 0, cmd8.data);
      var legacy := HasBits(cmd8.result, R1_ILLEGAL_CMD);
      var wake := IdleLoop(s, c, cmd8.wire, 0, if legacy then 1 else 2);
      && (!legacy && !(echo[2] == 0x01 && echo[3] == 0xAA) ==> r.result == INVALID_SDCARD)
      && (legacy || (echo[2] == 0x01 && echo[3] == 0xAA) ==>
            && (wake.result != OK ==> r.result == wake.result)
            && (wake.result == OK ==> r == Configure(s, c, carried, wake.version, wake.wire))
            && (r.session.Some? ==> r.session.value.version == wake.version)
            && (r.session.Some? ==> r.session.value.version == (if legacy then 1 else 2) || r.session.value.version == 0))
  {
    var r := Identify(s, c, carried, w);
    var cmd8 := CommandSpec(s, c, w, 8, IF_COND, 4);
    var echo := Store([0, 0, 0, 0], 0, cmd8.data);
    var legacy := HasBits(cmd8.result, R1_ILLEGAL_CMD);
    if !legacy && !(echo[2] == 0x01 && echo[3] == 0xAA) {
      assert r == Boot(INVALID_SDCARD, None, cmd8.wire);
    } else {
      var wake := IdleLoop(s, c, cmd8.wire, 0, if legacy then 1 else 2);
      if wake.result != 0 {
        assert r == Boot(wake.result, None, wake.wire);
      } else {
        assert r == Configure(s, c, carried, wake.version, wake.wire);
        ConfigureOutcome(s, c, carried, wake.version, wake.wire);
      }
    }
  }

  /** Identification only appends to what was sent. */
  lemma IdentifyExtends(s: seq<Byte>, c: Checksums, carried: int, w: Wire)
    ensures w.sent <= Identify(s, c, carried, w).wire.sent
  {
    var r := Identify(s, c, carried, w);
    var cmd8 := CommandSpec(s, c, w, 8, IF_COND, 4);
    var echo := Store([0, 0, 0, 0], 0, cmd8.data);
    var legacy := HasBits(cmd8.result, R1_ILLEGAL_CMD);
    CommandExtends(s, c, w, 8, IF_COND, 4);
    if !legacy && !(echo[2] == 0x01 && echo[3] == 0xAA) {
      assert r == Boot(INVALID_SDCARD, None, cmd8.wire);
    } else {
      var wake := IdleLoop(s, c, cmd8.wire, 0, if legacy then 1 else 2);
      if wake.result != 0 {
        assert r == Boot(wake.result, None, wake.wire);
      } else {
        assert r == Configure(s, c, carried, wake.version, wake.wire);
        ConfigureExtends(s, c, carried, wake.version, wake.wire);
        PrefixTrans(cmd8.wire.sent, wake.wire.sent, r.wire.sent);
      }
      PrefixTrans(w.sent, cmd8.wire.sent, r.wire.sent);
    }
  }

  /** SDCardStartup from bus state `w`. It always settles: it succeeds
      exactly when it reports 0, and the session then names a version of 0,
      1 or 2 and high capacity only for an SD card. On the bus the host first
      sends the idle wake-up bytes, then (after waiting for an idle bus) the
      CMD0 frame. */
  function StartupSpec(s: seq<Byte>, c: Checksums, w: Wire): (r: Boot)
    ensures Settled(r)
    ensures var p := w.pos + WAKE_BYTES;
      w.sent + Fill(WAKE_BYTES) + Fill(FrameAt(s, p) - p) + Frame(c, 0, 0) <= r.wire.sent
  {
    var w0 := Wire(w.pos + WAKE_BYTES, w.sent + Fill(WAKE_BYTES));
    var reset := ResetLoop(s, c, w0, RESET_ATTEMPTS, GENERIC);
    ResetLoopBegins(s, c, w0, RESET_ATTEMPTS, GENERIC);
    CommandExtends(s, c, w0, 0, 0, 0);
    var head := w0.sent + Fill(FrameAt(s, w0.pos) - w0.pos) + Frame(c, 0, 0);
    PrefixTrans(head, CommandSpec(s, c, w0, 0, 0, 0).wire.sent, reset.wire.sent);
    if !reset.ok then Boot(reset.result, None, reset.wire)
    else
      IdentifyOutcome(s, c, reset.result, reset.wire);
      IdentifyExtends(s, c, reset.result, reset.wire);
      var r := Identify(s, c, reset.result, reset.wire);
      PrefixTrans(head, reset.wire.sent, r.wire.sent);
      r
  }

  /** Which code startup reports. A failed reset ends it with the reset
      loop's negative code, TRANSMIT_INTERRUPTED exactly when its attempts
      ran out, and sends nothing more. After a successful reset the outcome
      is identification's (IdentifyOutcome), with the code the reset loop
      left behind (GENERIC, or TRANSMIT_INTERRUPTED after an interrupted
      attempt) reported if CMD58 answers with an R1 error. */
  lemma StartupOutcome(s: seq<Byte>, c: Checksums, w: Wire)
    ensures var reset := ResetLoop(s, c, Wire(w.pos + WAKE_BYTES, w.sent + Fill(WAKE_BYTES)), RESET_ATTEMPTS, GENERIC);
      var r := StartupSpec(s, c, w);
      && (!reset.ok ==> r.result == reset.result && r.result < 0 && r.wire == reset.wire)
      && (!reset.ok ==> (r.result == TRANSMIT_INTERRUPTED <==> reset.counter == 0))
      && (reset.ok ==> reset.result == GENERIC || reset.result == TRANSMIT_INTERRUPTED)
      && (reset.ok ==> r == Identify(s, c, reset.result, reset.wire))
  {
    var w0 := Wire(w.pos + WAKE_BYTES, w.sent + Fill(WAKE_BYTES));
    var reset := ResetLoop(s, c, w0, RESET_ATTEMPTS, GENERIC);
    assert StartupSpec(s, c, w) == if !reset.ok then Boot(reset.result, None, reset.wire)
                                   else Identify(s, c, reset.result, reset.wire);
  }
}
