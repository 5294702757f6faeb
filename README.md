# W3K SDHCI host driver: command engine, chunking, clock and descriptor model

This project models the core of U-Boot's SD/eMMC host driver for the
Wave3000 SoC, `drivers/mmc/w3k_sdhci.c`, and proves properties of that model.
It covers the following parts of the driver:

- **Chunking dispatcher** `w3k_sdhci_send_command`. It splits a large
  multi-block request into chunks of 32 KiB worth of blocks. Between chunks
  it sends CMD12, then CMD13 (writes only), then CMD16. The primitive it
  calls is an abstract function of the call history (`Dispatch`).
- **Primitive command engine** `__w3k_sdhci_send_command`. It covers the
  idle wait, the argument write, the DMA flush and the data-phase
  programming with its SRAM staging copy. Then come the interrupt clear,
  the command word, the bounded command-status poll with the broken-R1b
  escape, `sdhci_cmd_done` and the data wait `sdhci_transfer_data`. Last
  come the status re-read, the copy back to `dest` and the final decision.
  - `Engine` holds it as functions over a log of register accesses.
  - `Host.Controller` holds it as a class whose methods append to that log.
    Each method is proved equal to its function.
- **Command word and polls.** The command-word encoding is in `Command`,
  and the two polling loops are in `Polls`.
- **Clock divider.** This is `w3k_sdhci_set_clock`'s divisor search and
  field encoding, plus `emmc_fck_divider_set` and the same formula in
  `w3k_sdhci_host_init` (`Clock`).
- **`set_ios` and `clk_ctrl` read-modify-writes**: bus width, the HS400
  delay-line and DLL tuning, and the clock-gate bit (`Ios`, `Host`).
- **ADMA descriptor table.** `w3k_sdhci_prepare_adma_table` fills an array
  in place (`Adma`). The driver is built for simple DMA, so this code is
  compiled but never called.

How registers and memory are modelled:

- **Configuration registers** read back the last value written to them.
  `Mmio.RegValue` gives that value from the access log and a reset value.
- **Status registers.** The two status registers the driver polls
  (INT_STATUS at 0x0C, DMA status at 0x110) are scripts indexed by read
  count. The response registers are a fixed function.
- **Memory** is a byte map.

The code fixes `HS400` (line 17) and `W3C_SDHCI_SDMA_ENABLE` (line 35), so
the model follows the branches those select. The engine returns only 0 or
`-ETIMEDOUT`. The data wait's -1 and a command CRC error are both replaced
by the decision on the status re-read. The model follows that code.

## Model

| member | source | states |
|---|---|---|
| Dispatch.SendCommand | drivers/mmc/w3k_sdhci.c:268-378 | The calls made are a prefix of the plan. Without a split there is exactly one call, with the caller's own command and data. The result is the last call's result. Every earlier call succeeded. Either the result is negative or the whole plan was issued. After a split the caller's response changes only when the result is not negative, and then to the chunk commands' response. Without a split it takes whatever the single call wrote, whatever the result. |
| Dispatch.SendChunks | drivers/mmc/w3k_sdhci.c:323-372 | The chunk loop issues a prefix of the split plan, and stops at the first negative result or after the last chunk. The response is the chunks' response when the result is not negative, and the caller's otherwise. |
| Dispatch.ChunkRound | drivers/mmc/w3k_sdhci.c:334-372 | One pass issues the chunk, then the between-chunk calls of the plan. It stops on a failure or after the last chunk. Otherwise every call it made succeeded. |
| Dispatch.StopChunk | drivers/mmc/w3k_sdhci.c:346-354 | After a chunk, CMD12 is sent, then CMD13 on writes only. The calls stay in plan order, and the response is left alone. |
| Dispatch.Issue | drivers/mmc/w3k_sdhci.c:337 | One primitive call extends the history by the next call of the plan. Only a data-carrying call updates the chunk response. |
| Dispatch.CountChunk | drivers/mmc/w3k_sdhci.c:339-359 | The countdown reports the last chunk exactly at the plan's last chunk. Otherwise the remaining block and byte counts match the chunks still to go. |
| Dispatch.NextChunk | drivers/mmc/w3k_sdhci.c:360-367 | The card address advances by `tran_blocks` modulo 2^32, and the buffer by 32768 bytes, giving the cursor of the next chunk. |
| Dispatch.LastChunkBounds | drivers/mmc/w3k_sdhci.c:310-322 | When the request splits, `tran_blocks` is at least 1, there are at least two chunks, and the last chunk's size lies in (t, 2t]. |
| Dispatch.NextChunkBlocks | drivers/mmc/w3k_sdhci.c:339-359 | The blocks left after a non-final chunk are still more than 2t, unless the next chunk is the last one. |
| Dispatch.PlanPositions | drivers/mmc/w3k_sdhci.c:334-372 | In the plan, chunk k is followed by CMD12, then CMD13 on writes, then CMD16 with the block size, and then chunk k+1. The last chunk ends the plan. |
| Dispatch.ChunkSizes | drivers/mmc/w3k_sdhci.c:313-359 | Every chunk but the last holds exactly t blocks. The last holds more than t and at most 2t. |
| Dispatch.PlanFromBlocks | drivers/mmc/w3k_sdhci.c:332-367 | The chunks from k onwards carry exactly the blocks (and bytes) not carried by the chunks before k. |
| Dispatch.PlanMovesEverything | drivers/mmc/w3k_sdhci.c:310-376 | A fully issued plan moves `blocks` blocks and `blocks * blocksize` bytes, whether or not it splits. |
| Dispatch.ChunkBytesBounded | drivers/mmc/w3k_sdhci.c:313-359 | No chunk moves more than 64 KiB. |
| Dispatch.PlanFromFits | drivers/mmc/w3k_sdhci.c:334-372 | Every call in the plan from chunk k on moves at most 64 KiB. |
| Dispatch.PlanFits | drivers/mmc/w3k_sdhci.c:310-376 | Every call the dispatcher issues, split or not, moves at most 64 KiB, well within the 20 bits the engine writes to `SDMA_LEN`. |
| Dispatch.CardAddressesContiguous | drivers/mmc/w3k_sdhci.c:360 | Chunk k+1 starts at the card block right after the last block of chunk k, modulo 2^32. |
| Dispatch.BufferContiguousIff | drivers/mmc/w3k_sdhci.c:362-367 | Each chunk's buffer starts where the previous chunk's bytes end if and only if the block size divides 32768. |
| Dispatch.BufferGapAt3000 | drivers/mmc/w3k_sdhci.c:310-367 | With 3000-byte blocks a chunk holds 30000 bytes, but the next chunk's buffer starts 32768 bytes on, while its card address advances by 10 blocks. |
| Dispatch.PlanFromLength | drivers/mmc/w3k_sdhci.c:334-372 | The plan from chunk k has one chunk call plus one between-chunk group per remaining chunk. |
| Dispatch.PlanFromChunk | drivers/mmc/w3k_sdhci.c:334-372 | Chunk k+n sits at a fixed stride in the plan, and is preceded exactly by the between-chunk calls. |
| Dispatch.PlanOrder | drivers/mmc/w3k_sdhci.c:323-372 | The split plan is chunk 0, then for every later chunk the between-chunk calls followed by that chunk, and nothing else. So CMD16 is never sent before the first chunk. |
| Dispatch.ChunkResponseAppend | drivers/mmc/w3k_sdhci.c:334-376 | Appending a call updates the chunk response exactly when the call carries data. |
| Command.RespFlags | drivers/mmc/w3k_sdhci.c:485-506 | The switch yields one of the five controller codes, and each code only for its own response type. Unknown types give "no response". |
| Command.RespFlagsTable | drivers/mmc/w3k_sdhci.c:485-506 | With distinct case labels, each MMC response type maps to its own controller code (NONE→0, R1 and PRESENT\|OPCODE→1, R1b→7, R2→2, R3→3). |
| Command.CommandWordFields | drivers/mmc/w3k_sdhci.c:32 | The command word carries the command index in bits 0..5 and the response flags in bits 7..9. |
| Command.CommandWordCrc | drivers/mmc/w3k_sdhci.c:508-509 | Bit 30 is set if and only if the response type asks for a CRC check. |
| Command.CommandWordReserved | drivers/mmc/w3k_sdhci.c:410-421 | Bits 6, 10 and 31 of the command word are always clear. |
| Command.CommandWordTransfer | drivers/mmc/w3k_sdhci.c:410-421 | Without data, no transfer bits are set. With data: the block size sits in bits 16..27; 0x800 is set iff there is one block, 0x1000 iff there are several, and 0x2000 iff the direction is write. |
| Polls.PollFrom | drivers/mmc/w3k_sdhci.c:532-548 | The poll stops at its first event read, and is exhausted only after all 10000 reads show no event. |
| Polls.CommandPollExhaustedIff | drivers/mmc/w3k_sdhci.c:532-548 | The command poll is exhausted if and only if none of its 10000 reads shows bit 0x100, 0x200 or 0x400. |
| Polls.PollCommand | drivers/mmc/w3k_sdhci.c:532-548 | The `retry` countdown loop as written computes the poll function, and ends with `retry == 0` exactly on exhaustion. |
| Polls.WaitFrom | drivers/mmc/w3k_sdhci.c:157-208 | The data wait makes at most 1000001 rounds. |
| Polls.Round | drivers/mmc/w3k_sdhci.c:158-196 | One round updates the flags from the two status words, and fails exactly on interrupt bit 0x4000 or 0x8000. In that case it logs the DMA acknowledgement and `sdhci_disable_dma`. |
| Polls.TransferData | drivers/mmc/w3k_sdhci.c:148-211 | The loop as written returns the data-wait function's result, number of rounds, sync flag and accesses. |
| Polls.SyncAfterFlags | drivers/mmc/w3k_sdhci.c:161-181 | After round k, the DMA flag is set iff some round up to k saw DMA bit 0x2 or 0x8. The data flag is set iff some round saw interrupt bit 0x1000. |
| Polls.SyncOnlyGains | drivers/mmc/w3k_sdhci.c:161-181 | `sync_flag` only gains bits from round to round. |
| Polls.WaitFromEnds | drivers/mmc/w3k_sdhci.c:157-208 | The wait ends at the first round that sees a data error or has both flags, or at the end of the budget, with that round's flags. |
| Polls.WaitFromVerdict | drivers/mmc/w3k_sdhci.c:184-207 | It aborts iff its last round saw a data error. It returns 0 iff that round saw no error and both flags are set. Otherwise it returns -1. |
| Polls.AbortedLogEnds | drivers/mmc/w3k_sdhci.c:186-190 | A wait that aborts on a data error ends its accesses with `sdhci_disable_dma`, and clears no interrupt status. |
| Polls.DataWaitSucceedsIff | drivers/mmc/w3k_sdhci.c:148-211 | The data wait returns 0 if and only if, at some round within the budget, both completion bits have been seen and no data error has. |
| Polls.SuccessWitness | drivers/mmc/w3k_sdhci.c:148-211 | A successful wait completes cleanly at some round within the budget. |
| Polls.FailureExcludes | drivers/mmc/w3k_sdhci.c:148-211 | A failed wait completes cleanly at no round within the budget. |
| Polls.CleanRoundStops | drivers/mmc/w3k_sdhci.c:157-208 | A round by which both completion bits and no error have been seen stops the wait. |
| Polls.DataErrorAbortsAtOnce | drivers/mmc/w3k_sdhci.c:184-190 | A data timeout or CRC error ends the wait in the round it is first seen, with -1, the abort flag set and `sdhci_disable_dma` last. |
| Polls.DmaErrorBitIgnored | drivers/mmc/w3k_sdhci.c:161-174 | Two DMA status scripts that differ only in error bit 0x4 give the same result and the same number of rounds. |
| Polls.DmaDoneIgnoresBit2 | drivers/mmc/w3k_sdhci.c:161-163 | The DMA-done test does not depend on bit 0x4. |
| Engine.FlushWordBits | drivers/mmc/w3k_sdhci.c:838-847 | The flush request sets bit 17 and keeps every other bit as read. |
| Engine.CmdDone | drivers/mmc/w3k_sdhci.c:214-229 | `sdhci_cmd_done` keeps the response at four words. |
| Engine.CmdDoneOrder | drivers/mmc/w3k_sdhci.c:214-229 | A 136-bit response takes word i from register 0x24 + (3-i)*4. Any other response sets only word 0, from 0x24. |
| Engine.Engine | drivers/mmc/w3k_sdhci.c:380-599 | The engine returns 0 or -ETIMEDOUT, keeps four response words, and reads INT_STATUS at least once. |
| Engine.ProgramLog | drivers/mmc/w3k_sdhci.c:401-529 | Up to the command write, the engine waits for idle, writes the argument, optionally programs the data phase, clears the interrupt status and writes the command word, in that order. |
| Engine.CommandWordLogged | drivers/mmc/w3k_sdhci.c:401-529 | Every engine run logs the idle wait, the argument write and the encoded command word. |
| Engine.EngineLogRest | drivers/mmc/w3k_sdhci.c:532-598 | The engine's accesses extend those up to the command write. |
| Engine.TransferLogRest | drivers/mmc/w3k_sdhci.c:532-575 | The accesses up to the data wait extend those up to the command write. |
| Engine.FinishLogRest | drivers/mmc/w3k_sdhci.c:574-598 | The final clears extend the accesses before them. |
| Engine.PollTimeout | drivers/mmc/w3k_sdhci.c:550-557 | When the command poll runs out, the engine returns 0 under the broken-R1b quirk and -ETIMEDOUT otherwise, for every response type. The response is untouched and no access follows. |
| Engine.ResponseWords | drivers/mmc/w3k_sdhci.c:559-565 | The response changes only when the poll saw command-done, and then as `sdhci_cmd_done` reads it. |
| Engine.NoDataPhaseWithoutDone | drivers/mmc/w3k_sdhci.c:559-565 | Without command-done, no data wait happens and the internal result is -1. |
| Engine.FinalDecision | drivers/mmc/w3k_sdhci.c:574-598 | Unless a data command completed, the result is -ETIMEDOUT iff the status re-read has bit 0x200 or 0x4000, and 0 otherwise. |
| Engine.CommandCrcErrorDiscarded | drivers/mmc/w3k_sdhci.c:559-598 | A command-CRC failure whose status re-read is clean is reported as success. |
| Engine.DataSuccess | drivers/mmc/w3k_sdhci.c:559-584 | A data command whose data wait succeeds returns 0, whatever the re-read says. |
| Engine.FailedReadLeavesMemory | drivers/mmc/w3k_sdhci.c:579-598 | A read whose transfer fails is not copied out: no byte outside the SRAM area the DMA may have partly filled changes, and `dest` is untouched when it lies apart from that area. |
| Engine.StoredBytes | drivers/mmc/w3k_sdhci.c:184-190 | The DMA stores at most the `trans_bytes & 0xFFFFF` bytes programmed into `SDMA_LEN`, and all of them when the data wait succeeds. |
| Engine.ProgramStartsWithSetup | drivers/mmc/w3k_sdhci.c:401-475 | With data, the accesses up to the command write start with the idle wait, the argument and the data-phase programming. |
| Engine.LaunchExtends | drivers/mmc/w3k_sdhci.c:523-529 | The interrupt clear and the command write add two accesses, the command word last. |
| Engine.LenWordIsRemainder | drivers/mmc/w3k_sdhci.c:464 | The word written to `SDMA_LEN` is `trans_bytes` modulo 2^20, so it is below 1 MiB. |
| Engine.SetupLogged | drivers/mmc/w3k_sdhci.c:407-464 | After the flush, the data-phase programming writes the block count first, then the SDMA start address (0x40020000 for writes, 0x40050000 for reads), then the length `trans_bytes & 0xFFFFF`. |
| Engine.DataProgrammed | drivers/mmc/w3k_sdhci.c:423-464 | Every data command's log holds the block-count, SDMA-address and SDMA-length writes. |
| Engine.WriteStaged | drivers/mmc/w3k_sdhci.c:437-454 | After a write, the SRAM staging area holds the `blocks * blocksize` bytes of `src`. |
| Engine.NoDataPhaseMemoryOnWrite | drivers/mmc/w3k_sdhci.c:437-598 | On a write, nothing after the staging copy changes memory. |
| Engine.ReadDelivers | drivers/mmc/w3k_sdhci.c:578-584 | After a successful read, `dest` holds the card's first `trans_bytes & 0xFFFFF` bytes followed by whatever SRAM held beyond them. Below 1 MiB that is exactly the card's `trans_bytes` bytes. |
| Engine.ReadMemory | drivers/mmc/w3k_sdhci.c:462-582 | A successful read leaves memory as the full SDMA deposit into SRAM followed by the copy of `trans_bytes` bytes to `dest`. |
| Engine.StagingRoundTrip | drivers/mmc/w3k_sdhci.c:437-584 | A write through the staging area followed by a successful read of the same length returns the written bytes to `dest`, when the card hands back what it stored and the transfer is below 1 MiB. |
| Host.Controller.ReadReg | drivers/mmc/w3k_sdhci.c:638 | A configuration register reads back its reset value or a value written to it, and its reset value if it was never written. |
| Host.Controller.CmdDone | drivers/mmc/w3k_sdhci.c:214-229 | Filling the response array in place gives `sdhci_cmd_done`'s words. |
| Host.Controller.DmaFlush | drivers/mmc/w3k_sdhci.c:838-847 | The flush method does what the flush function says. |
| Host.Controller.SetupData | drivers/mmc/w3k_sdhci.c:407-475 | The data-phase programming method does what its function says. |
| Host.Controller.Prelude | drivers/mmc/w3k_sdhci.c:401-403 | The idle wait and argument write method does what its function says. |
| Host.Controller.Launch | drivers/mmc/w3k_sdhci.c:523-529 | The interrupt clear and command write do what their function says. |
| Host.Controller.Stage | drivers/mmc/w3k_sdhci.c:401-475 | The idle wait, the argument and, with data, the data-phase programming. |
| Host.Controller.Issue | drivers/mmc/w3k_sdhci.c:401-529 | Everything up to the command write equals `Engine.Program`. |
| Host.Controller.Respond | drivers/mmc/w3k_sdhci.c:559-565 | The response is read only on command-done. A data command then runs the data wait; without command-done the result is -1. |
| Host.Controller.WaitData | drivers/mmc/w3k_sdhci.c:565 | The data wait as run by the controller equals the data-phase function. |
| Host.Controller.Complete | drivers/mmc/w3k_sdhci.c:574-598 | The status re-read, the copy-out and the final clears equal `Engine.Finish`. |
| Host.Controller.SendCommand | drivers/mmc/w3k_sdhci.c:380-599 | The imperative engine returns the result, response and state of `Engine.Engine`. |
| Host.Controller.SetClock | drivers/mmc/w3k_sdhci.c:603-655 | Setting the clock logs exactly the accesses of `SetClockAccesses` on the current clock-control value. |
| Host.Controller.WriteReg | drivers/mmc/w3k_sdhci.c:657-797 | A register write changes the read-back value of that register only. |
| Host.Controller.Await | drivers/mmc/w3k_sdhci.c:652 | A busy-wait changes no register's read-back value. |
| Host.Controller.SetIos | drivers/mmc/w3k_sdhci.c:657-797 | `set_ios` logs exactly `IosAccesses` on the register values it starts from. |
| Host.Controller.Hs400 | drivers/mmc/w3k_sdhci.c:685-741 | The HS400 tuning logs the delay-line writes, then the DLL reset. |
| Host.Controller.DelayLines | drivers/mmc/w3k_sdhci.c:687-717 | The four delay-line read-modify-writes, in source order. |
| Host.Controller.OutputDelayLines | drivers/mmc/w3k_sdhci.c:687-702 | The ODL and KDL updates and the wait for KDL bits 7..8 to clear. |
| Host.Controller.SamplingDelayLines | drivers/mmc/w3k_sdhci.c:705-717 | The PCH1 and latency updates. |
| Host.Controller.Modify | drivers/mmc/w3k_sdhci.c:687-717 | A read-modify-write writes `f` of the current value. |
| Host.Controller.ResetDll | drivers/mmc/w3k_sdhci.c:720-740 | DLL off, DLL on, then wait for lock. |
| Host.Controller.ClkCtrl | drivers/mmc/w3k_sdhci.c:806-814 | The clock-gate register gets `GateWord` of its current value. |
| Host.Controller.FckDividerSet | drivers/mmc/w3k_sdhci.c:957-972 | Writes `FckWord` of the clock-control value, then waits for bit 7 to clear. |
| Clock.EvenFromSpec | drivers/mmc/w3k_sdhci.c:620-625 | The even search returns the smallest even divisor from its start at which `f_max / div <= clock`, or stops at the bound. |
| Clock.Pow2FromSpec | drivers/mmc/w3k_sdhci.c:626-631 | The power-of-two search returns the smallest power of two from its start at which `f_max / div <= clock`, or stops at the bound. |
| Clock.FindDivisor | drivers/mmc/w3k_sdhci.c:616-632 | The search loop as written computes `Divisor`. |
| Clock.DivisorBounded | drivers/mmc/w3k_sdhci.c:616-632 | The divisor is at least 1 and fits in 32 bits. |
| Clock.DivisorIsSmallest | drivers/mmc/w3k_sdhci.c:616-632 | On spec 3.00: div = 1 when `f_max <= clock`, else the smallest even div ≥ 2 with `f_max/div <= clock` (below the bound). On 2.00: the smallest power of two with that property. |
| Clock.ClockField | drivers/mmc/w3k_sdhci.c:636-645 | The encoded field stays inside bits 8..21, and is the bypass bit exactly when the halved divisor is 0. |
| Clock.ClockWord | drivers/mmc/w3k_sdhci.c:638-645 | Bits outside 0x003FFF00 are kept; the field holds the encoded divisor. |
| Clock.SetClockWord | drivers/mmc/w3k_sdhci.c:603-649 | A zero clock leaves the register untouched. Otherwise, bits outside the divider field are preserved. |
| Clock.FckWord | drivers/mmc/w3k_sdhci.c:957-967 | A factor below 2 selects the bypass bit and keeps the other bits. |
| Clock.FckMatchesClock | drivers/mmc/w3k_sdhci.c:957-967 | `emmc_fck_divider_set` with factor 2h encodes the same word as `set_clock` with halved divisor h, and factors 0 and 1 are the bypass. |
| Clock.FckWrapsAtLowBitsZero | drivers/mmc/w3k_sdhci.c:963-967 | A factor whose low 13 bits are zero makes `/ 2 - 1` wrap, filling the register's upper 24 bits. |
| Clock.HostInitClockWord | drivers/mmc/w3k_sdhci.c:866-869 | The host-init word holds the same divider field as `emmc_fck_divider_set`. |
| Clock.HostInitDefault | drivers/mmc/w3k_sdhci.c:866-869 | The boot default (divider 30, clock enabled) gives 0x00800E0A. |
| Clock.ClockExampleHalf | drivers/mmc/w3k_sdhci.c:603-649 | 50 MHz down to 25 MHz gives field 0. |
| Clock.ExampleDivisor | drivers/mmc/w3k_sdhci.c:616-625 | 50 MHz down to 25 MHz picks divisor 2. |
| Clock.ClockExampleBypass | drivers/mmc/w3k_sdhci.c:603-649 | 50 MHz at 50 MHz sets the bypass bit 0x00200000. |
| Clock.Pow2Gap | drivers/mmc/w3k_sdhci.c:628-631 | Two distinct powers of two are at least a factor of two apart, so the doubling search skips none. |
| Ios.FieldBits | drivers/mmc/w3k_sdhci.c:687-717 | A field update keeps the bits it neither clears nor sets, and sets the bits it puts. |
| Ios.FieldClears | drivers/mmc/w3k_sdhci.c:687-717 | The bits a field update clears and does not put back are zero. |
| Ios.WidthBits | drivers/mmc/w3k_sdhci.c:670-680 | Width 8 sets the 8-bit flag only on spec 3.00 or with the wide-8 quirk. Width 4 sets the 4-bit flag, and any other width sets none. |
| Ios.WidthBitsAccumulate | drivers/mmc/w3k_sdhci.c:670-680 | The mask clears only bits 16..17, so earlier width flags stay set. |
| Ios.EightToFourKeepsEightBit | drivers/mmc/w3k_sdhci.c:670-680 | Switching from 8-bit to 4-bit leaves the 8-bit flag set alongside the 4-bit one. |
| Ios.DllBits | drivers/mmc/w3k_sdhci.c:720-726 | DLL off clears bit 0 and DLL on sets it, all other bits kept. |
| Ios.WritesAppend | drivers/mmc/w3k_sdhci.c:657-797 | A register is written by two access runs iff one of them writes it. |
| Ios.RegValueUntouched | drivers/mmc/w3k_sdhci.c:657-797 | Accesses that do not write a register leave its read-back value. |
| Ios.ClockWritesOnlyClock | drivers/mmc/w3k_sdhci.c:603-655 | `set_clock` writes no register other than clock control. |
| Ios.IosPrefixKeeps | drivers/mmc/w3k_sdhci.c:664-680 | The clock part of `set_ios` leaves every other register for the later read-modify-writes. |
| Ios.TuningWrites | drivers/mmc/w3k_sdhci.c:685-741 | The HS400 tuning writes the DLL and never clock control. |
| Ios.ClockWrites | drivers/mmc/w3k_sdhci.c:603-655 | `set_clock` writes clock control iff the clock is not zero, and never the DLL. |
| Ios.IosTouches | drivers/mmc/w3k_sdhci.c:657-797 | `set_ios` writes the DLL iff the clock is at least 100 MHz. It writes clock control iff the clock differs from the host's and is not zero, and always writes the bus width. |
| Ios.GateWord | drivers/mmc/w3k_sdhci.c:806-814 | The gate value keeps every bit but bit 1, and bit 1 is clear iff `enable == 1`. |
| Adma.AdmaDesc | drivers/mmc/w3k_sdhci.c:43-56 | A descriptor holds the address, the length truncated to 16 bits, and a zero reserved byte. |
| Adma.AdmaDescAttr | drivers/mmc/w3k_sdhci.c:43-56 | Every descriptor is valid and transfers data. The end bit is set iff it was asked for. |
| Adma.DescCountBounds | drivers/mmc/w3k_sdhci.c:79-80 | `DIV_ROUND_UP` gives the least n ≥ 1 with n * ADMA_MAX_LEN ≥ total. |
| Adma.PrepareAdmaTable | drivers/mmc/w3k_sdhci.c:76-106 | The in-place fill leaves the array equal to the table function. |
| Adma.TableShape | drivers/mmc/w3k_sdhci.c:76-106 | Every descriptor but the last covers ADMA_MAX_LEN bytes, without the end bit. The last covers the rest (between 1 and ADMA_MAX_LEN) and carries the end bit. |
| Adma.TableContiguous | drivers/mmc/w3k_sdhci.c:90-95 | Each descriptor starts where the previous one ends, modulo 2^32. |
| Adma.SumLensUniform | drivers/mmc/w3k_sdhci.c:90-95 | A run of equal-length descriptors covers its count times that length. |
| Adma.PrefixLens | drivers/mmc/w3k_sdhci.c:90-95 | The full descriptors before the last cover k * ADMA_MAX_LEN bytes. |
| Adma.TableCoversTotal | drivers/mmc/w3k_sdhci.c:76-106 | The descriptors cover exactly the transfer's bytes. |
| Adma.TableExample128K | drivers/mmc/w3k_sdhci.c:76-106 | 128 KiB gives three descriptors of 65532, 65532 and 8 bytes, the last one with attribute 0x23. |
| Mmio.RegValue | drivers/mmc/w3k_sdhci.c:657-814 | A register reads back its reset value or some value written to it, and its reset value if it was never written. |
| Mmio.RegValueLastWrite | drivers/mmc/w3k_sdhci.c:657-814 | A register reads back the value of its last write, whatever accesses follow it on other registers. |
| Mmio.RegValueAfterWrite | drivers/mmc/w3k_sdhci.c:657-814 | After a write, the register reads the written value, and every other register is unchanged. |
| Mmio.RegValueAfterAwait | drivers/mmc/w3k_sdhci.c:652 | A busy-wait leaves every register's read-back value. |
| Mmio.Bytes | drivers/mmc/w3k_sdhci.c:449 | A byte run has the requested length. |
| Mmio.BytesCopy | drivers/mmc/w3k_sdhci.c:449 | After `memcpy`, the destination holds the source bytes. |
| Mmio.BytesDeposit | drivers/mmc/w3k_sdhci.c:579-581 | After the DMA deposit, SRAM holds the deposited bytes. |
| Mmio.BytesShortDeposit | drivers/mmc/w3k_sdhci.c:462-582 | Reading past a shorter deposit gives the deposited bytes, then what memory held beyond them. |
| Mmio.CopyAt | drivers/mmc/w3k_sdhci.c:449 | `memcpy` changes exactly the destination range. |

## Left out

- The unbounded busy-waits (lines 145, 401, 652, 702, 845, 876, 969) are single `Await` events that the hardware eventually satisfies. No loop is proved to terminate.
- The DLL lock loop with its retry every 10000 polls (lines 728-740) is one `AwaitDllLock` event. Its inner DLL resets are not modelled.
- `udelay`/`mdelay` are left out, including the one in the `WAIT_SEND_CMD` quirk (lines 571-572). So are `dcache_l1_invalid` and the unused `ccache2_flush` (lines 121-135), which are cache operations.
- Debug reads of the command register inside the poll are left out. Configuration-register reads have no side effects in the model.
- Self-clearing bits are not modelled: a register reads back what was last written to it.
- Driver-model glue is left out: probe, bind, `of_to_plat`, `mmc_of_parse`, `sdhci_setup_cfg`, and `memalign`/`free` in `w3k_sdhci_init`.
- The fixed bring-up sequences are left out: `w3k_sdhci_hw_reset`, `chip_reset`, `ck_reset` and the pin writes of `w3k_sdhci_host_init`. Only its clock-word formula is modelled.
- Dead code is left out: the `if(0)` block (lines 510-521), the `#if 0` block (lines 744-783) and the unused `w3k_sdhci_reset`.
- `w3k_sdhci_adma_init` and `w3k_sdhci_adma_start` only allocate and program the table, which simple DMA never does.
- sdhci.h and mmc.h are not part of this model. Their constants are parameters: `ADMA_MAX_LEN`, the attribute bits, the divisor bounds, the `MMC_RSP_*` codes and the bus-width bits. `ETIMEDOUT` is taken as 110.
- The `memcpy` of `struct mmc_data` (line 325) is a field copy. Addresses are naturals.
- `host->clock` is held constant in `set_ios`, so `mmc->clock != host->clock` compares with a fixed value.
- Dispatch.SendCommand: the primitive is an abstract function of the call history, not the engine itself. The model requires `0 < blocksize <= 32768` (line 313 divides by it, and a zero quotient never ends the loop), and requires that `blocks * blocksize` does not wrap a `u32`.
- Engine.Engine: `trans_bytes` is an `int`, so staging needs a byte count below 2^31.
- Engine.Engine: how many bytes the DMA stores before a read's data wait fails is a hardware parameter (`partial`), so after a failed read the SRAM read area beyond what it states is unspecified.
- Engine.StagingRoundTrip: holds only below 1 MiB, because `SDMA_LEN` receives `trans_bytes & 0xFFFFF`. Engine.ReadDelivers states what arrives above that, and Dispatch.PlanFits shows the dispatcher never issues more than 64 KiB.
- Engine.SdmaBytes: Engine.LenWordIsRemainder proves the logged word is the 32-bit `trans_bytes` modulo 2^20, but the step from that word to the number `trans_bytes % 2^20` (a conversion between `int` and `bv32`) is not proved.
- Clock.FckField: line 966 left-shifts a negative `int` when the factor's low 13 bits are zero, which C leaves undefined. The model takes the two's-complement result.
- Adma.PrepareAdmaTable: requires at least one byte (with none, `--i` underflows), and a descriptor count that does not wrap in `DIV_ROUND_UP`.
