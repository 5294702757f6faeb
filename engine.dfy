/**
  The primitive command engine `__w3k_sdhci_send_command`: one command,
  with an optional SDMA data phase staged through on-chip SRAM.

  The engine is specified here as a function of the hardware's behaviour
  (`Hw`) and of the driver-visible state before the call (`HostState`);
  `Host.Controller.SendCommand` carries it out step by step.
*/
module Engine {
  import opened Wrappers
  import opened Mmio
  import opened Command
  import opened Polls

  /** `ETIMEDOUT` (errno.h is not part of this model). */
  const ETIMEDOUT: int := 110

  /** SRAM the controller's DMA reads from on a read command. */
  const SRAM_READ: nat := 0x4005_0000
  /** SRAM the driver stages write data in. */
  const SRAM_WRITE: nat := 0x4002_0000

  /** Command-timeout and data-timeout bits of INT_STATUS. */
  const INT_TIMEOUT_BITS: Word := 0x0000_4200

  /** What the hardware does: the scripts of the two polled status registers,
      the response registers, the bytes a read brings from the card, how
      many of them the DMA has stored in SRAM when a read's data wait that
      starts at INT_STATUS read `i` fails (`partial(i)`), the response-type
      codes, and the `SDHCI_QUIRK_BROKEN_R1B` quirk. */
  datatype Hw = Hw(
    intS: nat -> Word, dmaS: nat -> Word, respRegs: nat -> Word,
    card: nat -> bv8, partial: nat -> nat, codes: RspCodes, brokenR1b: bool)

  /** The access log, the number of INT_STATUS and DMA_STATUS reads made so
      far, and system memory. */
  datatype HostState = HostState(log: seq<Access>, intReads: nat, dmaReads: nat, mem: Memory)

  /** The engine's return value, the command's response words and the new state. */
  datatype Completion = Completion(ret: int, response: seq<Word>, st: HostState)

  /** A result and a state, between two phases of the engine. */
  datatype Phase = Phase(ret: int, st: HostState)

  /** `trans_bytes`. */
  function TransBytes(d: Data): nat { d.blocks * d.blocksize }

  /** The int-sized transfers the engine can stage: `trans_bytes` is an `int`. */
  predicate Stageable(data: Option<Data>) {
    data.Some? ==> TransBytes(data.value) < 0x8000_0000
  }

  /** The value the DMA flush writes back. */
  function FlushWord(v: Word): Word {
    (v & !0x0002_0000) | 0x0002_0000
  }

  /** The flush request sets bit 17 and keeps all other bits as read. */
  lemma FlushWordBits(v: Word)
    ensures FlushWord(v) & 0x0002_0000 != 0
    ensures FlushWord(v) & !0x0002_0000 == v & !0x0002_0000
  {
  }

  /** `w3k_sdhci_dma_flush`: request the flush and wait until it is done. */
  function DmaFlush(hw: Hw, st: HostState): HostState {
    var v := hw.dmaS(st.dmaReads);
    st.(log := st.log + [Write(DMA_STATUS, FlushWord(v)), AwaitClear(DMA_STATUS, 0x0002_0000)],
        dmaReads := st.dmaReads + 1)
  }

  /** The SDMA address the controller is given: the read or the write
      staging area. */
  function StartWord(d: Data): Word {
    if d.dir == DataRead then 0x4005_0000 else 0x4002_0000
  }

  /** The SDMA length register takes the low 20 bits of `trans_bytes`. */
  function LenWord(d: Data): Word
    requires TransBytes(d) < 0x8000_0000
  {
    (TransBytes(d) as Word) & 0xF_FFFF
  }

  /** Masking with 0xFFFFF keeps the length word's remainder modulo 2^20:
      the logged word is the 32-bit `trans_bytes` reduced as `SdmaBytes`
      reduces the number. */
  lemma LenWordIsRemainder(d: Data)
    requires TransBytes(d) < 0x8000_0000
    ensures LenWord(d) == (TransBytes(d) as Word) % 0x10_0000
    ensures LenWord(d) < 0x10_0000
  {
    var x := TransBytes(d) as Word;
    assert x & 0xF_FFFF == x % 0x10_0000;
  }

  /** The bytes the controller is asked to move: the low 20 bits of
      `trans_bytes`, the value `LenWord` writes, as a number. */
  function SdmaBytes(d: Data): nat {
    TransBytes(d) % 0x10_0000
  }

  /** The bytes a read's DMA has stored in SRAM when the data wait that
      started at INT_STATUS read `start` returns `ret`: all it was asked for
      on success, and a prefix of them otherwise. */
  function StoredBytes(hw: Hw, start: nat, d: Data, ret: int): (n: nat)
    ensures n <= SdmaBytes(d)
    ensures ret == 0 ==> n == SdmaBytes(d)
  {
    if ret == 0 then SdmaBytes(d)
    else if hw.partial(start) < SdmaBytes(d) then hw.partial(start)
    else SdmaBytes(d)
  }

  /** The register writes that program the data phase. */
  function DataSetupWrites(d: Data, dmaStat: Word): seq<Access>
    requires TransBytes(d) < 0x8000_0000
  {
    [Write(BLOCK_COUNT, d.blocks as Word),
     Write(DMA_STATUS, dmaStat),
     Write(DMA_CTL, if d.dir == DataWrite then 0 else 0x8000_0000),
     Write(SDMA_ADDR, StartWord(d)),
     Write(SDMA_LEN, LenWord(d))]
  }

  /** Flush, then program the data phase; a write is copied into SRAM. */
  function SetupData(hw: Hw, st: HostState, d: Data): HostState
    requires TransBytes(d) < 0x8000_0000
  {
    var f := DmaFlush(hw, st);
    var v := hw.dmaS(f.dmaReads);
    var m := if d.dir == DataWrite then Copy(f.mem, SRAM_WRITE, d.addr, TransBytes(d)) else f.mem;
    f.(log := f.log + DataSetupWrites(d, v), dmaReads := f.dmaReads + 1, mem := m)
  }

  /** Wait for the controller to be idle (bits 0..1 of the status register
      clear), then write the argument. */
  function Prelude(st: HostState, arg: Word): HostState {
    st.(log := st.log + [AwaitClear(STATUS, 0x3), Write(ARGUMENT, arg)])
  }

  /** Clear the interrupt status by writing back what it reads, then write
      the command word. */
  function Launch(hw: Hw, st: HostState, command: Word): HostState {
    st.(log := st.log + [Write(INT_STATUS, hw.intS(st.intReads)), Write(COMMAND, command)],
        intReads := st.intReads + 1)
  }

  /** Everything up to and including the write of the command word. */
  function Program(hw: Hw, st: HostState, cmd: Cmd, data: Option<Data>): HostState
    requires Stageable(data)
  {
    var a := Prelude(st, cmd.arg as Word);
    var b := if data.Some? then SetupData(hw, a, data.value) else a;
    Launch(hw, b, CommandWord(cmd, data, hw.codes))
  }

  /** The command-status poll that follows the command write. */
  function EnginePoll(hw: Hw, st: HostState, cmd: Cmd, data: Option<Data>): CmdPoll
    requires Stageable(data)
  {
    CommandPoll(hw.intS, Program(hw, st, cmd, data).intReads)
  }

  /** The state after the command-status poll. */
  function AfterPoll(hw: Hw, st: HostState, cmd: Cmd, data: Option<Data>): HostState
    requires Stageable(data)
  {
    var p := Program(hw, st, cmd, data);
    p.(intReads := p.intReads + EnginePoll(hw, st, cmd, data).polls)
  }

  /** `sdhci_cmd_done`: a 136-bit response is read highest register first,
      any other response fills only `response[0]`. */
  function CmdDone(hw: Hw, cmd: Cmd, response: seq<Word>): (r: seq<Word>)
    requires |response| == 4
    ensures |r| == 4
  {
    if cmd.respType & hw.codes.long136 != 0 then
      [hw.respRegs(RESPONSE + 12), hw.respRegs(RESPONSE + 8), hw.respRegs(RESPONSE + 4), hw.respRegs(RESPONSE)]
    else response[0 := hw.respRegs(RESPONSE)]
  }

  /** The data wait, run when the command is done and carries data; during
      a read the DMA stores the card's bytes in SRAM, all of them when the
      wait succeeds. */
  function DataPhase(hw: Hw, q: HostState, d: Data): Phase
    requires TransBytes(d) < 0x8000_0000
  {
    var w := DataWaitResult(hw.intS, hw.dmaS, q.intReads, q.dmaReads);
    var stored := StoredBytes(hw, q.intReads, d, w.ret);
    var m := if d.dir == DataRead then Deposit(q.mem, SRAM_READ, hw.card, stored) else q.mem;
    Phase(w.ret, q.(log := q.log + w.log, intReads := q.intReads + w.rounds,
                    dmaReads := q.dmaReads + w.rounds, mem := m))
  }

  /** Result and state after the response read and the data wait. */
  function Transfer(hw: Hw, st: HostState, cmd: Cmd, data: Option<Data>): Phase
    requires Stageable(data)
  {
    var q := AfterPoll(hw, st, cmd, data);
    var done := EnginePoll(hw, st, cmd, data).stat & INT_CMD_DONE != 0;
    if !done then Phase(-1, q)
    else if data.Some? then DataPhase(hw, q, data.value)
    else Phase(0, q)
  }

  /** The status re-read after the transfer. */
  function FinalStatus(hw: Hw, st: HostState, cmd: Cmd, data: Option<Data>): Word
    requires Stageable(data)
  {
    hw.intS(Transfer(hw, st, cmd, data).st.intReads)
  }

  /** The interrupt clear, then either the copy-out of a successful data
      command or the DMA acknowledgement and the timeout decision. */
  function Finish(hw: Hw, p: Phase, data: Option<Data>): Phase
    requires Stageable(data)
  {
    var s2 := hw.intS(p.st.intReads);
    var st1 := p.st.(log := p.st.log + [Write(INT_STATUS, s2)], intReads := p.st.intReads + 1);
    if p.ret == 0 && data.Some? then
      var d := data.value;
      var m := if d.dir == DataRead then Copy(st1.mem, d.addr, SRAM_READ, TransBytes(d)) else st1.mem;
      Phase(0, st1.(mem := m))
    else
      var v := hw.dmaS(st1.dmaReads);
      Phase(if s2 & INT_TIMEOUT_BITS != 0 then -ETIMEDOUT else 0,
            st1.(log := st1.log + [Write(DMA_STATUS, v)], dmaReads := st1.dmaReads + 1))
  }

  /** `__w3k_sdhci_send_command`: the engine returns 0 or `-ETIMEDOUT` and
      always leaves four response words. */
  function Engine(hw: Hw, st: HostState, cmd: Cmd, data: Option<Data>, response: seq<Word>): (c: Completion)
    requires |response| == 4 && Stageable(data)
    ensures c.ret == 0 || c.ret == -ETIMEDOUT
    ensures |c.response| == 4
    ensures c.st.intReads > st.intReads
  {
    var poll := EnginePoll(hw, st, cmd, data);
    if poll.exhausted then
      Completion(if hw.brokenR1b then 0 else -ETIMEDOUT, response, AfterPoll(hw, st, cmd, data))
    else
      var resp := if poll.stat & INT_CMD_DONE != 0 then CmdDone(hw, cmd, response) else response;
      var f := Finish(hw, Transfer(hw, st, cmd, data), data);
      Completion(f.ret, resp, f.st)
  }

  // ---------------------------------------------------------------------
  // Properties of the engine
  // ---------------------------------------------------------------------

  lemma ProgramLog(hw: Hw, st: HostState, cmd: Cmd, data: Option<Data>)
    requires Stageable(data)
    ensures var p := Program(hw, st, cmd, data);
      && |p.log| >= |st.log| + 4
      && p.log[|p.log| - 1] == Write(COMMAND, CommandWord(cmd, data, hw.codes))
      && p.log[|st.log|] == AwaitClear(STATUS, 0x3)
      && p.log[|st.log| + 1] == Write(ARGUMENT, cmd.arg as Word)
      && p.log[..|st.log|] == st.log
  {
    // One case per shape of `Program`: with and without a data phase.
    if data.Some? {
    } else {
    }
  }

  /** The engine waits for the controller to be idle and writes the
      argument before anything else, and the command word it writes
      encodes the command as `CommandWord` describes. */
  lemma CommandWordLogged(hw: Hw, st: HostState, cmd: Cmd, data: Option<Data>, response: seq<Word>)
    requires |response| == 4 && Stageable(data)
    ensures var c := Engine(hw, st, cmd, data, response);
      && |c.st.log| >= |st.log| + 4 && c.st.log[..|st.log|] == st.log
      && c.st.log[|st.log|] == AwaitClear(STATUS, 0x3)
      && c.st.log[|st.log| + 1] == Write(ARGUMENT, cmd.arg as Word)
      && Write(COMMAND, CommandWord(cmd, data, hw.codes)) in c.st.log
  {
    var p := Program(hw, st, cmd, data);
    ProgramLog(hw, st, cmd, data);
    var c := Engine(hw, st, cmd, data, response);
    var rest := EngineLogRest(hw, st, cmd, data, response);
    assert c.st.log == p.log + rest;
    assert c.st.log[|p.log| - 1] == p.log[|p.log| - 1];
    assert c.st.log[..|st.log|] == p.log[..|st.log|];
  }

  /** The accesses the engine makes after the command write. */
  lemma EngineLogRest(hw: Hw, st: HostState, cmd: Cmd, data: Option<Data>, response: seq<Word>)
    returns (rest: seq<Access>)
    requires |response| == 4 && Stageable(data)
    ensures Program(hw, st, cmd, data).log + rest == Engine(hw, st, cmd, data, response).st.log
  {
    var p := Program(hw, st, cmd, data);
    if EnginePoll(hw, st, cmd, data).exhausted {
      rest := [];
      assert p.log + [] == p.log;
    } else {
      var t := Transfer(hw, st, cmd, data);
      var tail := TransferLogRest(hw, st, cmd, data);
      var fin := FinishLogRest(hw, t, data);
      SeqAssoc(p.log, tail, fin);
      rest := tail + fin;
    }
  }

  /** The accesses of the final status clears. */
  lemma FinishLogRest(hw: Hw, p: Phase, data: Option<Data>) returns (fin: seq<Access>)
    requires Stageable(data)
    ensures Finish(hw, p, data).st.log == p.st.log + fin
  {
    var s2 := hw.intS(p.st.intReads);
    if p.ret == 0 && data.Some? {
      fin := [Write(INT_STATUS, s2)];
    } else {
      fin := [Write(INT_STATUS, s2), Write(DMA_STATUS, hw.dmaS(p.st.dmaReads))];
    }
  }

  /** The accesses of the data wait, when there is one. */
  function TransferLogRest(hw: Hw, st: HostState, cmd: Cmd, data: Option<Data>): (rest: seq<Access>)
    requires Stageable(data)
    ensures Program(hw, st, cmd, data).log + rest == Transfer(hw, st, cmd, data).st.log
  {
    var p := Program(hw, st, cmd, data);
    var q := AfterPoll(hw, st, cmd, data);
    var done := EnginePoll(hw, st, cmd, data).stat & INT_CMD_DONE != 0;
    if done && data.Some? then
      DataWaitResult(hw.intS, hw.dmaS, q.intReads, q.dmaReads).log
    else
      assert p.log + [] == p.log; []
  }

  /** When the command poll runs out, the engine returns at once: 0 under
      the broken-R1b quirk, `-ETIMEDOUT` otherwise, whatever the response
      type; the response is untouched and no access follows the poll. */
  lemma PollTimeout(hw: Hw, st: HostState, cmd: Cmd, data: Option<Data>, response: seq<Word>)
    requires |response| == 4 && Stageable(data)
    requires var base := Program(hw, st, cmd, data).intReads;
      forall a :: base <= a < base + CMD_RETRY ==> !CmdEvent(hw.intS(a))
    ensures var c := Engine(hw, st, cmd, data, response);
      && c.ret == (if hw.brokenR1b then 0 else -ETIMEDOUT)
      && c.response == response
      && c.st.log == Program(hw, st, cmd, data).log
      && c.st.intReads == Program(hw, st, cmd, data).intReads + CMD_RETRY
  {
    CommandPollExhaustedIff(hw.intS, Program(hw, st, cmd, data).intReads);
  }

  /** The response words change only when the poll saw command-done, and
      then as `sdhci_cmd_done` reads them. */
  lemma ResponseWords(hw: Hw, st: HostState, cmd: Cmd, data: Option<Data>, response: seq<Word>)
    requires |response| == 4 && Stageable(data)
    ensures var poll := EnginePoll(hw, st, cmd, data);
      Engine(hw, st, cmd, data, response).response
      == if !poll.exhausted && poll.stat & INT_CMD_DONE != 0 then CmdDone(hw, cmd, response) else response
  {
  }

  /** A 136-bit response holds registers 0x30, 0x2C, 0x28, 0x24 in that
      order (the CRC byte is stripped, so the words are shifted); any other
      response changes only `response[0]`. */
  lemma CmdDoneOrder(hw: Hw, cmd: Cmd, response: seq<Word>)
    requires |response| == 4
    ensures var r := CmdDone(hw, cmd, response);
      cmd.respType & hw.codes.long136 != 0 ==>
        forall i :: 0 <= i < 4 ==> r[i] == hw.respRegs(RESPONSE + (3 - i) * 4)
    ensures var r := CmdDone(hw, cmd, response);
      cmd.respType & hw.codes.long136 == 0 ==>
        r[0] == hw.respRegs(RESPONSE) && r[1..] == response[1..]
  {
    var r := CmdDone(hw, cmd, response);
    if cmd.respType & hw.codes.long136 != 0 {
      forall i | 0 <= i < 4
        ensures r[i] == hw.respRegs(RESPONSE + (3 - i) * 4)
      {
        if i == 0 { } else if i == 1 { } else if i == 2 { } else { }
      }
    }
  }

  /** Only a poll that saw command-done leads to a data phase: after a
      command timeout or CRC error the engine goes straight to the
      status re-read. */
  lemma NoDataPhaseWithoutDone(hw: Hw, st: HostState, cmd: Cmd, data: Option<Data>)
    requires Stageable(data)
    requires EnginePoll(hw, st, cmd, data).stat & INT_CMD_DONE == 0
    ensures Transfer(hw, st, cmd, data) == Phase(-1, AfterPoll(hw, st, cmd, data))
  {
  }

  /** Unless a data command completed, the engine's result is decided by
      the status re-read alone: `-ETIMEDOUT` exactly when it shows the
      command-timeout or data-timeout bit.  A command CRC error therefore
      counts as success when the re-read is clean. */
  lemma FinalDecision(hw: Hw, st: HostState, cmd: Cmd, data: Option<Data>, response: seq<Word>)
    requires |response| == 4 && Stageable(data)
    requires !EnginePoll(hw, st, cmd, data).exhausted
    requires !(Transfer(hw, st, cmd, data).ret == 0 && data.Some?)
    ensures var c := Engine(hw, st, cmd, data, response);
      c.ret == -ETIMEDOUT <==> FinalStatus(hw, st, cmd, data) & INT_TIMEOUT_BITS != 0
  {
  }

  /** A command CRC error with a clean re-read is reported as success. */
  lemma CommandCrcErrorDiscarded(hw: Hw, st: HostState, cmd: Cmd, data: Option<Data>, response: seq<Word>)
    requires |response| == 4 && Stageable(data)
    requires EnginePoll(hw, st, cmd, data).stat & INT_CMD_DONE == 0
    requires !EnginePoll(hw, st, cmd, data).exhausted
    requires FinalStatus(hw, st, cmd, data) & INT_TIMEOUT_BITS == 0
    ensures var c := Engine(hw, st, cmd, data, response);
      c.ret == 0 && c.response == response
  {
    NoDataPhaseWithoutDone(hw, st, cmd, data);
  }

  /** A data command whose data wait succeeded returns 0, whatever the
      re-read shows. */
  lemma DataSuccess(hw: Hw, st: HostState, cmd: Cmd, d: Data, response: seq<Word>)
    requires |response| == 4 && Stageable(Some(d))
    requires !EnginePoll(hw, st, cmd, Some(d)).exhausted
    requires EnginePoll(hw, st, cmd, Some(d)).stat & INT_CMD_DONE != 0
    requires DataWaitResult(hw.intS, hw.dmaS, AfterPoll(hw, st, cmd, Some(d)).intReads,
                            AfterPoll(hw, st, cmd, Some(d)).dmaReads).ret == 0
    ensures Transfer(hw, st, cmd, Some(d)).ret == 0
    ensures Engine(hw, st, cmd, Some(d), response).ret == 0
  {
  }

  /** A read that does not complete writes no memory outside the SRAM the
      DMA may have filled in part: `dest` is written only after a
      successful data wait, so it keeps its bytes when it lies apart from
      that SRAM. */
  lemma FailedReadLeavesMemory(hw: Hw, st: HostState, cmd: Cmd, d: Data, response: seq<Word>)
    requires |response| == 4 && Stageable(Some(d)) && d.dir == DataRead
    requires Transfer(hw, st, cmd, Some(d)).ret != 0
    ensures forall a: nat :: !(SRAM_READ <= a < SRAM_READ + SdmaBytes(d)) ==>
      Engine(hw, st, cmd, Some(d), response).st.mem(a) == st.mem(a)
    ensures d.addr + TransBytes(d) <= SRAM_READ || SRAM_READ + SdmaBytes(d) <= d.addr ==>
      Bytes(Engine(hw, st, cmd, Some(d), response).st.mem, d.addr, TransBytes(d))
      == Bytes(st.mem, d.addr, TransBytes(d))
  {
  }

  /** The accesses up to the data-phase programming are those of
      `SetupData`, after the idle wait and the argument write. */
  lemma ProgramStartsWithSetup(hw: Hw, st: HostState, cmd: Cmd, d: Data)
    requires Stageable(Some(d))
    ensures var a := st.(log := st.log + [AwaitClear(STATUS, 0x3), Write(ARGUMENT, cmd.arg as Word)]);
      var s := SetupData(hw, a, d);
      Program(hw, st, cmd, Some(d)).log[..|s.log|] == s.log
  {
    var s := SetupData(hw, Prelude(st, cmd.arg as Word), d);
    LaunchExtends(hw, s, CommandWord(cmd, Some(d), hw.codes));
  }

  lemma LaunchExtends(hw: Hw, s: HostState, command: Word)
    ensures var l := Launch(hw, s, command).log;
      |l| == |s.log| + 2 && l[..|s.log|] == s.log && l[|l| - 1] == Write(COMMAND, command)
  {
  }

  /** The data-phase programming follows the argument write and the DMA
      flush, in this order. */
  lemma SetupLogged(hw: Hw, st: HostState, cmd: Cmd, d: Data)
    requires Stageable(Some(d))
    ensures var p := Program(hw, st, cmd, Some(d)); var n := |st.log| + 4;
      && |p.log| > n + 4
      && p.log[n] == Write(BLOCK_COUNT, d.blocks as Word)
      && p.log[n + 3] == Write(SDMA_ADDR, StartWord(d))
      && p.log[n + 4] == Write(SDMA_LEN, LenWord(d))
  {
    var a := st.(log := st.log + [AwaitClear(STATUS, 0x3), Write(ARGUMENT, cmd.arg as Word)]);
    var f := DmaFlush(hw, a);
    var ws := DataSetupWrites(d, hw.dmaS(f.dmaReads));
    var s := SetupData(hw, a, d);
    var n := |st.log| + 4;
    assert s.log[n..] == ws;
    ProgramStartsWithSetup(hw, st, cmd, d);
    var p := Program(hw, st, cmd, Some(d));
    assert p.log[n] == s.log[n] && p.log[n + 3] == s.log[n + 3] && p.log[n + 4] == s.log[n + 4];
  }

  /** The data-phase programming is in the log of every data command. */
  lemma DataProgrammed(hw: Hw, st: HostState, cmd: Cmd, d: Data, response: seq<Word>)
    requires |response| == 4 && Stageable(Some(d))
    ensures var c := Engine(hw, st, cmd, Some(d), response);
      && Write(BLOCK_COUNT, d.blocks as Word) in c.st.log
      && Write(SDMA_ADDR, StartWord(d)) in c.st.log
      && Write(SDMA_LEN, LenWord(d)) in c.st.log
  {
    SetupLogged(hw, st, cmd, d);
    var p := Program(hw, st, cmd, Some(d));
    var rest := EngineLogRest(hw, st, cmd, Some(d), response);
    var log := Engine(hw, st, cmd, Some(d), response).st.log;
    var n := |st.log| + 4;
    assert log[n] == p.log[n] && log[n + 3] == p.log[n + 3] && log[n + 4] == p.log[n + 4];
  }

  /** After a write the SRAM staging area holds the `blocks * blocksize`
      source bytes, the bytes the controller's DMA sends to the card. */
  lemma WriteStaged(hw: Hw, st: HostState, cmd: Cmd, d: Data, response: seq<Word>)
    requires |response| == 4 && Stageable(Some(d)) && d.dir == DataWrite
    ensures Bytes(Engine(hw, st, cmd, Some(d), response).st.mem, SRAM_WRITE, TransBytes(d))
         == Bytes(st.mem, d.addr, TransBytes(d))
  {
    var m := Engine(hw, st, cmd, Some(d), response).st.mem;
    assert m == Program(hw, st, cmd, Some(d)).mem by {
      NoDataPhaseMemoryOnWrite(hw, st, cmd, d, response);
    }
  }

  /** On a write nothing after the staging copy changes memory. */
  lemma NoDataPhaseMemoryOnWrite(hw: Hw, st: HostState, cmd: Cmd, d: Data, response: seq<Word>)
    requires |response| == 4 && Stageable(Some(d)) && d.dir == DataWrite
    ensures Engine(hw, st, cmd, Some(d), response).st.mem == Program(hw, st, cmd, Some(d)).mem
  {
  }

  /** On a successful read `dest` receives the bytes the DMA stored in SRAM:
      the card's first `trans_bytes & 0xFFFFF` bytes, then whatever SRAM
      held beyond them. Below 1 MiB that is exactly the card's bytes. */
  lemma ReadDelivers(hw: Hw, st: HostState, cmd: Cmd, d: Data, response: seq<Word>)
    requires |response| == 4 && Stageable(Some(d)) && d.dir == DataRead
    requires !EnginePoll(hw, st, cmd, Some(d)).exhausted
    requires Transfer(hw, st, cmd, Some(d)).ret == 0
    ensures var n, l := TransBytes(d), SdmaBytes(d);
      Bytes(Engine(hw, st, cmd, Some(d), response).st.mem, d.addr, n)
      == Bytes(hw.card, 0, l) + Bytes(st.mem, SRAM_READ + l, n - l)
    ensures TransBytes(d) < 0x10_0000 ==>
      Bytes(Engine(hw, st, cmd, Some(d), response).st.mem, d.addr, TransBytes(d))
      == Bytes(hw.card, 0, TransBytes(d))
  {
    var n, l := TransBytes(d), SdmaBytes(d);
    var dep := Deposit(st.mem, SRAM_READ, hw.card, l);
    ReadMemory(hw, st, cmd, d, response);
    BytesCopy(dep, d.addr, SRAM_READ, n);
    BytesShortDeposit(st.mem, SRAM_READ, hw.card, l, n);
    if n < 0x10_0000 {
      assert l == n;
      assert Bytes(st.mem, SRAM_READ + l, n - l) == [];
    }
  }

  /** The memory a successful read leaves: the full deposit in SRAM,
      then the copy of `trans_bytes` bytes from SRAM to `dest`. */
  lemma ReadMemory(hw: Hw, st: HostState, cmd: Cmd, d: Data, response: seq<Word>)
    requires |response| == 4 && Stageable(Some(d)) && d.dir == DataRead
    requires !EnginePoll(hw, st, cmd, Some(d)).exhausted
    requires Transfer(hw, st, cmd, Some(d)).ret == 0
    ensures Engine(hw, st, cmd, Some(d), response).st.mem
         == Copy(Deposit(st.mem, SRAM_READ, hw.card, SdmaBytes(d)), d.addr, SRAM_READ, TransBytes(d))
  {
    var q := AfterPoll(hw, st, cmd, Some(d));
    var t := Transfer(hw, st, cmd, Some(d));
    assert t == DataPhase(hw, q, d);
    assert q.mem == st.mem;
    assert t.st.mem == Deposit(st.mem, SRAM_READ, hw.card, SdmaBytes(d));
  }

  /** Writing bytes through the SRAM staging and reading them back is
      lossless below 1 MiB: when the card returns what the write sent, a
      successful read of the same length delivers the written bytes to
      `dest`. (The dispatcher never issues a call of more than 64 KiB.) */
  lemma StagingRoundTrip(hw: Hw, st: HostState, wcmd: Cmd, wd: Data, rcmd: Cmd, rd: Data, response: seq<Word>)
    requires |response| == 4 && wd.dir == DataWrite && rd.dir == DataRead
    requires Stageable(Some(wd)) && TransBytes(rd) == TransBytes(wd) && TransBytes(wd) < 0x10_0000
    requires var w := Engine(hw, st, wcmd, Some(wd), response);
      Bytes(hw.card, 0, TransBytes(wd)) == Bytes(w.st.mem, SRAM_WRITE, TransBytes(wd))
    requires var w := Engine(hw, st, wcmd, Some(wd), response);
      && !EnginePoll(hw, w.st, rcmd, Some(rd)).exhausted
      && Transfer(hw, w.st, rcmd, Some(rd)).ret == 0
    ensures var w := Engine(hw, st, wcmd, Some(wd), response);
      var r := Engine(hw, w.st, rcmd, Some(rd), w.response);
      Bytes(r.st.mem, rd.addr, TransBytes(rd)) == Bytes(st.mem, wd.addr, TransBytes(wd))
  {
    var w := Engine(hw, st, wcmd, Some(wd), response);
    WriteStaged(hw, st, wcmd, wd, response);
    ReadDelivers(hw, w.st, rcmd, rd, w.response);
  }
}
