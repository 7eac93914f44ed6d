# SD/MMC card driver over SPI: a Dafny model

This project models the card protocol engine of the SD/MMC card driver used
by the FreeRTOS blinky example (`sdcard.c`). The driver talks to the card in
SPI mode, following the SD Physical Layer Simplified Specification. The model
covers:

- one command transaction (`SDCardSendCommand`) and the application-command
  wrapper (`SDCardSendACommand`);
- the startup handshake (`SDCardStartup`): wake-up clocks, CMD0 reset, the
  CMD8 interface check, the ACMD41/CMD1 initialisation wait, the CMD58 OCR
  read, then CMD16 and CMD59;
- the translation of a sector number into the card's address argument;
- single-sector reads and writes, the write retry after a CRC rejection, and
  the range loops (`SDCardDiskRead`, `SDCardDiskWrite`);
- the fixed-size diagnostic error log and its dump, and the `initialized`
  query.

The card side of the bus is a finite script of bytes, one per clock. Once the
script runs out the card drives the idle value 0xFF, as a pulled-up MISO line
does. The host side is the sequence of bytes it clocked out. Each operation
is first a function from the bus state `Wire(pos, sent)` to its result and
the new bus state. The driver is then a class, `Driver.SdCard`, whose fields
are the driver's globals: the bus, chip select, clock rate, mutex, session
flags and the error-record array. Its methods are proved to follow those
functions step by step. The CRC-7 and CRC-16 routines are parameters
(`Bytes.Checksums`), so everything holds for any pair of checksum functions.

Modules:

- `Bytes`: bytes, the card script, big-endian words, bit tests on C `int`s.
- `Command`: the command frame and the transaction.
- `ErrorLog`: the diagnostic log.
- `CardStartup`: startup.
- `SectorIo`: addresses, sector reads and writes, retries and ranges.
- `Driver`: the stateful driver.

Points of the code's behaviour that the model keeps as they are:

- `SDCardDiskRead` and `SDCardDiskWrite` (lines 347-411) do not check that
  startup succeeded before they talk to the card.
- The mutex is held only around each command frame and its response
  (lines 85-175). The write data phase (lines 368-379) runs outside it and
  leaves chip select asserted.
- Three waits have no bound: for an idle bus before a frame (line 93), for
  the data token (lines 134-140), and for the end of the busy signal after a
  write (line 379).
- The write retry loop (lines 387-399) does not spend its budget on CRC
  rejections, which is recorded under Findings. Here alone the model departs
  from the code: the driver class uses the corrected, bounded loop, and the
  loop as written is modelled beside it.

A write whose data response has status bits 0 is logged, yet reported as
success (0), because only status 5 is turned into 0 before the log call.
`SectorIo.WriteOnceOutcome` states this.

## Model

| member | source | states |
|---|---|---|
| Bytes.ToInt32 | src/freertos_blinky/example/src/drivers/sdcard.c:342 | a `uint32_t` sector passed as an `int` log argument is the two's-complement value congruent to it modulo 2^32 |
| Command.FrameLayout | src/freertos_blinky/example/src/drivers/sdcard.c:97-102 | frame byte 0 is the command index plus 0x40; bytes 1-4 decode big-endian back to the argument; byte 5 has the end bit set and carries CRC-7 of the first five bytes |
| Command.FailCode | src/freertos_blinky/example/src/drivers/sdcard.c:169-172 | the failure exit never returns 0: a code of 0 becomes GENERIC, and any nonzero code is returned unchanged |
| Command.IdleAtFirst | src/freertos_blinky/example/src/drivers/sdcard.c:93 | the wait for an idle bus stops at the first 0xFF; every byte clocked before it was busy |
| Command.FirstBusyFirst | src/freertos_blinky/example/src/drivers/sdcard.c:115-125 | every byte the R1 poll skipped was idle |
| Command.TokenAtFirst | src/freertos_blinky/example/src/drivers/sdcard.c:134-140 | every byte the data-token wait skipped was idle |
| Command.CommandProgress | src/freertos_blinky/example/src/drivers/sdcard.c:115-125 | every transaction clocks the bus; a nonnegative answer to a command without payload was read from the card's script |
| Command.InterruptedIff | src/freertos_blinky/example/src/drivers/sdcard.c:95-125 | TRANSMIT_INTERRUPTED is returned if and only if a frame byte echoed non-idle or all SPI_MAX_WAIT + 1 polls read idle |
| Command.SuccessMeans | src/freertos_blinky/example/src/drivers/sdcard.c:104-167 | result 0 means the echo was idle and R1 was 0; for CMD17/18 also that the 0xFE token came, the payload is the card's bytes and their CRC-16 matched |
| Command.BlockDataOutcome | src/freertos_blinky/example/src/drivers/sdcard.c:133-167 | a token other than 0xFE is returned shifted left by 8 (GENERIC when that is 0) with nothing read; after 0xFE the payload is read and a CRC mismatch gives CRC_FAILED, a match 0 |
| Command.BlockReadOutcome | src/freertos_blinky/example/src/drivers/sdcard.c:128-147 | for CMD17/18, a nonzero R1 is returned as is with no payload; R1 0 leads into the data phase |
| Command.PlainCommandOutcome | src/freertos_blinky/example/src/drivers/sdcard.c:115-153 | any other command returns its R1 byte (0 to 0xFE) and reads `recvSize` bytes right after it, whatever R1 said |
| Command.CommandExtends | src/freertos_blinky/example/src/drivers/sdcard.c:91-104 | a transaction moves the bus forward and only appends to what was sent, and what it appends begins with idle filler up to the frame start, then the 6-byte frame |
| Command.ResultCodes | src/freertos_blinky/example/src/drivers/sdcard.c:83-176 | the result is a card byte or shifted token (nonnegative), TRANSMIT_INTERRUPTED, GENERIC or CRC_FAILED |
| Command.ACommandOutcome | src/freertos_blinky/example/src/drivers/sdcard.c:180-184 | a negative or illegal-command answer to CMD55 is returned and nothing more is sent; otherwise both frames go out in order and the second answer is returned |
| Command.ACommandExtends | src/freertos_blinky/example/src/drivers/sdcard.c:180-184 | an application command moves the bus forward and only appends to what was sent |
| ErrorLog.Push | src/freertos_blinky/example/src/drivers/sdcard.c:21-30 | a record is stored only while fewer than LOG_SIZE are held; the count always grows by one and stored records are kept |
| ErrorLog.PushAllKeepsEarliest | src/freertos_blinky/example/src/drivers/sdcard.c:21-30 | after any sequence of errors the log holds exactly the earliest LOG_SIZE records, and the count grows by the number of errors |
| ErrorLog.PushAllAppend | src/freertos_blinky/example/src/drivers/sdcard.c:21-30 | logging two batches one after the other is logging their concatenation |
| ErrorLog.Dump | src/freertos_blinky/example/src/drivers/sdcard.c:31-44 | the dump reports the count and the stored records; shown plus overflow equals the count; the log starts over empty |
| ErrorLog.DumpAfterErrors | src/freertos_blinky/example/src/drivers/sdcard.c:31-44 | after any errors the dump reports all of them, shows the earliest LOG_SIZE and counts the rest as overflow |
| CardStartup.ResetLoop | src/freertos_blinky/example/src/drivers/sdcard.c:210-226 | CMD0 until it answers 1; the budget runs out exactly when the loop fails with TRANSMIT_INTERRUPTED; any other failure is negative; on success `result` is GENERIC, or TRANSMIT_INTERRUPTED if an attempt was spent; `last` is the bus as the final CMD0 found it (the budget's link to the card's answers is ResetLoopEnds) |
| CardStartup.ResetLoopEnds | src/freertos_blinky/example/src/drivers/sdcard.c:210-226 | every CMD0 before the last answered other than 1 (and TRANSMIT_INTERRUPTED when it failed); the loop succeeds exactly when the last CMD0 answers 1, fails with that CMD0's code otherwise, and leaves the bus where that CMD0 left it; the budget spent equals the number of TRANSMIT_INTERRUPTED answers, the last CMD0's included, so only those spend it and the loop gives up at the SDCARD_RESET_ATTEMPTS-th |
| CardStartup.ResetLoopBegins | src/freertos_blinky/example/src/drivers/sdcard.c:210-212 | the reset loop's traffic begins with the first CMD0 transaction |
| CardStartup.IdleStep | src/freertos_blinky/example/src/drivers/sdcard.c:249-263 | one initialisation poll demotes an SD card (version 1 or 2) to MMC (0) exactly when the ACMD41 answer has the illegal-command bit; an MMC poll (CMD1) never changes the version |
| CardStartup.IdleStepCommand | src/freertos_blinky/example/src/drivers/sdcard.c:249-262 | the poll sends ACMD41 with the HCS bit (1<<30) for version 2, ACMD41 with argument 0 for version 1, and CMD1 for an MMC card |
| CardStartup.IdleStepProgress | src/freertos_blinky/example/src/drivers/sdcard.c:247-263 | a poll moves the bus forward, only appends, and never itself answers IDLE_WAIT_TIMEOUT |
| CardStartup.IdleLoop | src/freertos_blinky/example/src/drivers/sdcard.c:247-276 | the result is 0 or negative; IDLE_WAIT_TIMEOUT exactly when `attempts` reached 10000; the version is kept or becomes 0; `last` and `lastVersion` are the bus and version the final poll started from (the poll count is IdleLoopEnds) |
| CardStartup.IdleLoopEnds | src/freertos_blinky/example/src/drivers/sdcard.c:247-276 | the wait from poll `i` made exactly `attempts - i` busy polls (positive R1) and, unless it timed out, one more deciding poll whose answer, bus and version are the wait's; so a card that stays busy is polled exactly 10000 - i times before IDLE_WAIT_TIMEOUT, and no wait polls more often |
| CardStartup.FinishOutcome | src/freertos_blinky/example/src/drivers/sdcard.c:302-310 | CMD16 then CMD59: a session, the one handed in, exactly when the result is 0; a nonzero CMD16 answer is the result, and after CMD16 answered 0 a nonzero CMD59 answer is the result; only appends to what was sent |
| CardStartup.ConfigureOutcome | src/freertos_blinky/example/src/drivers/sdcard.c:280-310 | the OCR step succeeds exactly when it reports 0 and keeps the version; high capacity exactly for an SD card (version 1 or 2) whose OCR has the CCS bit; an R1 error on CMD58 reports the code carried from the reset loop; otherwise an OCR with both voltage bits clear reports VOLTAGE_NOT_SUPPORTED; otherwise the result is that of CMD16 and CMD59 |
| CardStartup.ConfigureExtends | src/freertos_blinky/example/src/drivers/sdcard.c:280-310 | the OCR step and the last two commands only append to what was sent |
| CardStartup.IdentifyOutcome | src/freertos_blinky/example/src/drivers/sdcard.c:228-310 | from CMD8 on, startup settles (a session exactly when the result is 0, version 0-2, high capacity only for SD); a CMD8 answer without the illegal-command bit whose echo is not 0x01 0xAA reports INVALID_SDCARD; otherwise the wait starts with version 1 when CMD8 was illegal and 2 when not, a failed wait's code is the result, a successful one leads to the OCR step with the wait's version, and the session's version is the wait's |
| CardStartup.IdentifyExtends | src/freertos_blinky/example/src/drivers/sdcard.c:228-310 | from CMD8 on, startup only appends to what was sent |
| CardStartup.StartupSpec | src/freertos_blinky/example/src/drivers/sdcard.c:193-324 | startup settles (a session exactly when it reports 0, with version 0-2 and high capacity only for SD); on the bus it first sends 10 idle bytes, then the CMD0 frame |
| CardStartup.StartupOutcome | src/freertos_blinky/example/src/drivers/sdcard.c:208-243 | a failed reset ends startup with the reset loop's negative code, TRANSMIT_INTERRUPTED exactly when the attempts ran out, and nothing more sent; a successful reset leaves GENERIC or TRANSMIT_INTERRUPTED in `result` and startup goes on to identification with it |
| SectorIo.SdAddressMeaning | src/freertos_blinky/example/src/drivers/sdcard.c:330-336 | a high-capacity card gets the sector number; any other card gets the byte address, which is block aligned, wraps at 2^23 sectors, and equals sector × 512 below that |
| SectorIo.ReachedAdds | src/freertos_blinky/example/src/drivers/sdcard.c:354 | stepping the `uint32_t` sector once per completed sector is adding that count modulo 2^32 |
| SectorIo.ReadSector | src/freertos_blinky/example/src/drivers/sdcard.c:338-345 | a read returns 512 bytes when it reads any, and always does when it reports 0; the log gains exactly the record (17, result, sector) when the result is nonzero, and nothing otherwise |
| SectorIo.ReadSectorOutcome | src/freertos_blinky/example/src/drivers/sdcard.c:338-345 | a read reports 0 only when R1 was 0 and the 0xFE token came; the data are then the card's 512 bytes, and their CRC-16 matched |
| SectorIo.ReadRange | src/freertos_blinky/example/src/drivers/sdcard.c:347-358 | `count` reads into consecutive 512-byte slots, stopping at the first failure; bytes outside the slots are untouched; 0 exactly when all sectors were read; the stop sector is the first plus the completed count; only the failing read is logged |
| SectorIo.ReadRangeFirstSlot | src/freertos_blinky/example/src/drivers/sdcard.c:350-356 | a failing first read ends the range with its code, every sector still to go, and the bus and log it left; a successful one leaves exactly its 512 bytes in the first slot, and the rest of the range is the same read from the next slot and sector on |
| SectorIo.ReadyAtFirst | src/freertos_blinky/example/src/drivers/sdcard.c:379 | the card held the line at zero up to the end of the busy wait |
| SectorIo.DataPacketLayout | src/freertos_blinky/example/src/drivers/sdcard.c:368-375 | the data packet is the 0xFE token, the block unchanged, then the block's CRC-16 high byte first |
| SectorIo.WriteOnceOutcome | src/freertos_blinky/example/src/drivers/sdcard.c:360-385 | a failed CMD24 is logged and returned, with nothing more sent; otherwise the packet follows and the low five bits of the data response decide: 5 gives 0 with no log entry; any other status is logged with the CRC and returned, so status 0 is logged yet gives 0 |
| SectorIo.WriteOnceBusy | src/freertos_blinky/example/src/drivers/sdcard.c:377-379 | after the data response the host clocks while the card drives zero and stops after the first nonzero byte |
| SectorIo.WriteOnceSends | src/freertos_blinky/example/src/drivers/sdcard.c:360-379 | an attempt only appends to what was sent, and one that reports 0 has sent the block's data packet after the bytes that were on the bus before it |
| SectorIo.WriteOnceProgress | src/freertos_blinky/example/src/drivers/sdcard.c:362-377 | an attempt always clocks the bus, and a CRC rejection can only come while the card's script lasts |
| SectorIo.WriteRetry | src/freertos_blinky/example/src/drivers/sdcard.c:387-399 | corrected retry: between 1 and the limit attempts, repeating only after a CRC rejection |
| SectorIo.WriteRetrySends | src/freertos_blinky/example/src/drivers/sdcard.c:387-399 | the retry loop only appends to what was sent, and when it reports 0 the block's data packet has gone out after the bytes that were on the bus before it |
| SectorIo.WriteRetryBounded | src/freertos_blinky/example/src/drivers/sdcard.c:387-399 | the corrected retry returns the CRC-rejection status only after using every attempt |
| SectorIo.WriteRetryAsWritten | src/freertos_blinky/example/src/drivers/sdcard.c:387-399 | the retry as written makes at least one attempt and repeats on every CRC rejection |
| SectorIo.AsWrittenIgnoresLimit | src/freertos_blinky/example/src/drivers/sdcard.c:390-394 | the loop as written agrees with the corrected one whenever that ends on another result; when the card rejects the block `limit` times in a row, it makes more than `limit` attempts |
| SectorIo.AsWrittenNeverCrc | src/freertos_blinky/example/src/drivers/sdcard.c:390-398 | the loop as written can end only on a result other than the CRC-rejection status |
| SectorIo.WriteRange | src/freertos_blinky/example/src/drivers/sdcard.c:401-411 | `count` sector writes, stopping at the first failure; 0 exactly when every sector was written; the stop sector is the first plus the completed count; only appends to what was sent |
| SectorIo.WriteRangeFirstSlot | src/freertos_blinky/example/src/drivers/sdcard.c:403-409 | the first write sends the first 512-byte slot of the buffer; when it fails the range ends with its code and every sector still to go; when it succeeds that slot's data packet has gone out, and the rest of the range is the same write from the next slot and sector on |
| Driver.SdCard.constructor | src/freertos_blinky/example/src/drivers/sdcard.c:186-191 | a fresh driver has chip select released, the slow clock, a free mutex, not initialised, not high capacity, version -1 and an empty log |
| Driver.SdCard.AwaitIdleBus | src/freertos_blinky/example/src/drivers/sdcard.c:93 | the host clocks 0xFF until the card reads idle, ending at the frame start |
| Driver.SdCard.BuildFrame | src/freertos_blinky/example/src/drivers/sdcard.c:97-102 | the command buffer holds the command frame |
| Driver.SdCard.Idle | src/freertos_blinky/example/src/drivers/sdcard.c:106-113 | the echo scan answers whether every echoed frame byte was 0xFF |
| Driver.SdCard.SendFrame | src/freertos_blinky/example/src/drivers/sdcard.c:104-113 | six bytes go out as the frame, and the echo check is true exactly when the card drove idle throughout |
| Driver.SdCard.PollR1 | src/freertos_blinky/example/src/drivers/sdcard.c:115-125 | the poll returns the first non-idle byte within SPI_MAX_WAIT + 1 clocks, or 0xFF after all of them |
| Driver.SdCard.AwaitToken | src/freertos_blinky/example/src/drivers/sdcard.c:134-140 | the wait returns the first non-idle byte |
| Driver.SdCard.ReceivePayload | src/freertos_blinky/example/src/drivers/sdcard.c:149-153 | the caller's buffer receives the card's next `recvSize` bytes while 0xFF goes out; nothing else in it changes |
| Driver.SdCard.ReadChecked | src/freertos_blinky/example/src/drivers/sdcard.c:155-167 | the payload is stored, and the CRC check is true exactly when the two trailing bytes equal the payload's CRC-16 |
| Driver.SdCard.ReadBlock | src/freertos_blinky/example/src/drivers/sdcard.c:133-167 | the block-read data phase computes `Command.BlockData` on the bus and the buffer |
| Driver.SdCard.Respond | src/freertos_blinky/example/src/drivers/sdcard.c:115-167 | the response phase computes `Command.ResponsePhase` on the bus and the buffer |
| Driver.SdCard.Transact | src/freertos_blinky/example/src/drivers/sdcard.c:91-167 | the whole transaction computes `Command.CommandSpec`: result, bus and buffer |
| Driver.SdCard.SendCommand | src/freertos_blinky/example/src/drivers/sdcard.c:83-178 | `Command.CommandSpec` on the bus and buffer; chip select is released and the mutex taken and given once on every exit path |
| Driver.SdCard.SendACommand | src/freertos_blinky/example/src/drivers/sdcard.c:180-184 | `Command.ACommandSpec` on the bus and buffer; chip select and mutex are released afterwards; the mutex is taken and given once for CMD55 and once more exactly when CMD55 neither failed nor was illegal |
| Driver.SdCard.WakeUp | src/freertos_blinky/example/src/drivers/sdcard.c:200-206 | ten 0xFF bytes (80 clock pulses) go out |
| Driver.SdCard.ResetCard | src/freertos_blinky/example/src/drivers/sdcard.c:208-226 | the reset loop computes `CardStartup.ResetLoop` |
| Driver.SdCard.PollIdle | src/freertos_blinky/example/src/drivers/sdcard.c:249-263 | one initialisation poll computes `CardStartup.IdleStep` |
| Driver.SdCard.AwaitReady | src/freertos_blinky/example/src/drivers/sdcard.c:247-276 | the `for` loop of polls computes `CardStartup.IdleLoop` from poll 0 |
| Driver.SdCard.Finish | src/freertos_blinky/example/src/drivers/sdcard.c:302-310 | CMD16 and CMD59 compute `CardStartup.Finish` |
| Driver.SdCard.Configure | src/freertos_blinky/example/src/drivers/sdcard.c:278-310 | the OCR step computes `CardStartup.Configure` |
| Driver.SdCard.Identify | src/freertos_blinky/example/src/drivers/sdcard.c:228-310 | from CMD8 on, startup computes `CardStartup.Identify` |
| Driver.SdCard.BringUp | src/freertos_blinky/example/src/drivers/sdcard.c:193-311 | the protocol part of startup computes `CardStartup.StartupSpec`; a session names version 0-2, and high capacity only for SD |
| Driver.SdCard.Startup | src/freertos_blinky/example/src/drivers/sdcard.c:193-324 | startup follows `CardStartup.StartupSpec`; on success it switches to the fast clock and records initialised, high capacity and version; on failure the session globals are unchanged |
| Driver.SdCard.ReadSector | src/freertos_blinky/example/src/drivers/sdcard.c:338-345 | computes `SectorIo.ReadSector` on the bus, the log and the caller's buffer, with the address from the recorded capacity |
| Driver.SdCard.DiskRead | src/freertos_blinky/example/src/drivers/sdcard.c:347-358 | the `while` loop computes `SectorIo.ReadRange` on the bus, the log and the whole buffer |
| Driver.SdCard.ReadStep | src/freertos_blinky/example/src/drivers/sdcard.c:350-356 | one loop iteration: on failure the range read ends here; otherwise it continues from the next slot and sector |
| Driver.SdCard.AwaitNotBusy | src/freertos_blinky/example/src/drivers/sdcard.c:379 | the host clocks until the card drives a nonzero byte |
| Driver.SdCard.SendBlock | src/freertos_blinky/example/src/drivers/sdcard.c:368-379 | the data phase computes `SectorIo.DataPhase` and leaves chip select asserted |
| Driver.SdCard.WriteOnce | src/freertos_blinky/example/src/drivers/sdcard.c:360-385 | computes `SectorIo.WriteOnce` on the bus, the log and chip select |
| Driver.SdCard.WriteSector | src/freertos_blinky/example/src/drivers/sdcard.c:387-399 | computes the corrected `SectorIo.WriteRetry` with WRITE_CRC_FAIL_RETRY attempts |
| Driver.SdCard.DiskWrite | src/freertos_blinky/example/src/drivers/sdcard.c:401-411 | the `while` loop computes `SectorIo.WriteRange` on the bus, the log and chip select |
| Driver.SdCard.WriteStep | src/freertos_blinky/example/src/drivers/sdcard.c:403-409 | one loop iteration: on failure the range write ends here; otherwise it continues from the next slot and sector |
| Driver.SdCard.LogError | src/freertos_blinky/example/src/drivers/sdcard.c:21-30 | the record array and count change as `ErrorLog.Push` says |
| Driver.SdCard.DumpLogs | src/freertos_blinky/example/src/drivers/sdcard.c:31-44 | the report and the emptied log are `ErrorLog.Dump` of the log before |
| Driver.SdCard.Initialized | src/freertos_blinky/example/src/drivers/sdcard.c:326-328 | returns whether startup has succeeded |

## Left out

- GPIO and SPI hardware: chip select is a boolean field, and the clock rate is a flag (`fast`) instead of the calls at lines 48-54. The SPI transfer routines are the card script. The debug pin toggle at line 84 and the `nop` at line 109 are not modelled.
- The FreeRTOS mutex is a pair of take/give counters. Blocking and the interleaving of concurrent callers are not modelled.
- `crc_crc7` and `crc_crc16` (crc.h is not part of this model) are arbitrary functions passed as parameters. The `crc` argument of `SDCardSendCommand` is ignored by the code, and the model ignores it too.
- The text of the `LOG_*` messages is not modelled. The `ErrorLog.Report` value stands for what `SDCardDumpLogs` prints.
- sdcard.h is not part of this model. The values of the error codes, SDCARD_ERROR_LOG_SIZE (16), SDCARD_SPI_MAX_WAIT (8), SDCARD_RESET_ATTEMPTS (10), SDCARD_WRITE_CRC_FAIL_RETRY (3) and SDCARD_R1_ERROR_MASK (0x7E) are assumed. The proofs rely only on the error codes being negative and distinct. SDCARD_R1_ILLEGAL_CMD is 0x04, as the SD specification defines it.
- `SDCardWaitIdle` (lines 70-81) is not modelled: none of the modelled operations calls it.
- Unbounded busy-waits: the wait for an idle bus (line 93), the data-token wait (lines 134-140), the post-write busy wait (line 379), and reset retries after nonnegative answers (lines 211-226). These end in the model because the script is finite and the card drives 0xFF or R1 bytes past its end. A card that keeps the line busy forever is therefore not modelled. When no token arrives before the script ends, the model reports GENERIC.
- The CMD8 and CMD58 reply buffers are uninitialised stack arrays in the code. Where a transaction did not fill them, the model takes their bytes as zeros.
- The pointer arithmetic of the range loops is an offset into one buffer array. The caller's buffer is modelled as a Dafny array, and aliasing between buffers is not modelled.
- Command.CommandSpec, Command.Transaction, Command.ResponsePhase, Command.BlockData, SectorIo.WriteOnce and CardStartup.Identify: their own ensures clauses state only shapes and bounds. Their behaviour is stated by the outcome lemmas in the table (Command.SuccessMeans, Command.BlockReadOutcome, Command.BlockDataOutcome, Command.PlainCommandOutcome, SectorIo.WriteOnceOutcome, CardStartup.IdentifyOutcome with CardStartup.ConfigureOutcome and CardStartup.FinishOutcome).
- SectorIo.ReadSectorOutcome: states only the success direction (result 0 implies R1 0, the token, the data and a CRC match). The failure codes are stated by Command.BlockReadOutcome and Command.BlockDataOutcome.
- SectorIo.WriteRange: does not characterise the log beyond its validity. Each step's log change is stated by SectorIo.WriteOnceOutcome.
- SectorIo.ReadRange and SectorIo.WriteRange: what each slot receives or sends is stated one slot at a time, by SectorIo.ReadRangeFirstSlot and SectorIo.WriteRangeFirstSlot, rather than by one statement quantified over every slot.
- SectorIo.WriteOnceSends, SectorIo.WriteRetrySends and SectorIo.WriteRangeFirstSlot: they place a packet after the bytes sent before the write, not at its exact position; that position is stated by SectorIo.WriteOnceOutcome.
- SectorIo.WriteRetry: the bound on attempts is the corrected behaviour (see Findings). The code as written is SectorIo.WriteRetryAsWritten.

## Findings

| source | as written | input that shows it | evidently intended | confidence | as-written member | corrected member |
|---|---|---|---|---|---|---|
| src/freertos_blinky/example/src/drivers/sdcard.c:390-394 | on data-response status 11 (CRC error) the loop `continue`s before `retry_limit --`, so the limit is never spent on CRC errors | a card that answers every write attempt with data-response status 11 | at most SDCARD_WRITE_CRC_FAIL_RETRY attempts, then return 11 | not executed | SectorIo.AsWrittenIgnoresLimit | SectorIo.WriteRetryBounded |
