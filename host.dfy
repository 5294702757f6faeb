/**
  The driver's host object: the controller's register conversation, the
  read counts of its two polled status registers and system memory, with
  the driver operations that change them carried out step by step.

  `SendCommand` is `__w3k_sdhci_send_command` and is proved to do what
  `Engine.Engine` specifies; `SetClock`, `SetIos`, `ClkCtrl` and
  `FckDividerSet` append exactly the accesses `Clock` and `Ios` describe.
*/
module Host {
  import opened Wrappers
  import opened Mmio
  import opened Command
  import opened Polls
  import Engine
  import opened Clock
  import opened Ios

  class Controller {
    /** What the hardware does (status scripts, response registers, card bytes, quirk). */
    const hw: Engine.Hw
    /** Reset values of the configuration registers. */
    const reset: nat -> Word
    /** Clock limits, controller version and bus-width bits. */
    const cfg: IosConfig
    /** `host->clock`, which this driver never updates. */
    const hostClock: nat

    var log: seq<Access>
    var intReads: nat
    var dmaReads: nat
    var mem: Memory

    constructor (hw: Engine.Hw, reset: nat -> Word, cfg: IosConfig, hostClock: nat, mem: Memory)
      ensures this.hw == hw && this.reset == reset && this.cfg == cfg && this.hostClock == hostClock
      ensures State() == Engine.HostState([], 0, 0, mem)
    {
      this.hw := hw;
      this.reset := reset;
      this.cfg := cfg;
      this.hostClock := hostClock;
      log := [];
      intReads := 0;
      dmaReads := 0;
      this.mem := mem;
    }

    /** The state the engine's specification is written over. */
    function State(): Engine.HostState
      reads this
    {
      Engine.HostState(log, intReads, dmaReads, mem)
    }

    /** What each configuration register reads now. */
    function Regs(): nat -> Word
      reads this
    {
      RegFile(reset, log)
    }

    /** `sdhci_readl` of a configuration register: its last written value,
        or its reset value when it was never written. */
    method ReadReg(off: nat) returns (v: Word)
      ensures v == RegValue(reset, log, off)
      ensures v == reset(off) || Write(off, v) in log
      ensures (forall a :: a in log && a.Write? ==> a.offset != off) ==> v == reset(off)
    {
      v := RegValue(reset, log, off);
    }

    /** `sdhci_cmd_done`: fill the response words in place. */
    method CmdDone(cmd: Cmd, response: array<Word>)
      requires response.Length == 4
      modifies response
      ensures response[..] == Engine.CmdDone(hw, cmd, old(response[..]))
    {
      if cmd.respType & hw.codes.long136 != 0 {
        for i := 0 to 4
          invariant forall j :: 0 <= j < i ==> response[j] == hw.respRegs(RESPONSE + (3 - j) * 4)
        {
          response[i] := hw.respRegs(RESPONSE + (3 - i) * 4);
        }
      } else {
        response[0] := hw.respRegs(RESPONSE);
      }
    }

    /** `w3k_sdhci_dma_flush`: read the DMA control word, set bit 17, wait
        for the controller to clear it. */
    method DmaFlush()
      modifies this`log, this`dmaReads
      ensures State() == Engine.DmaFlush(hw, old(State()))
    {
      var v := hw.dmaS(dmaReads);
      dmaReads := dmaReads + 1;
      log := log + [Write(DMA_STATUS, Engine.FlushWord(v)), AwaitClear(DMA_STATUS, 0x0002_0000)];
    }

    /** The part of `__w3k_sdhci_send_command` that programs the data phase. */
    method SetupData(d: Data)
      requires Engine.TransBytes(d) < 0x8000_0000
      modifies this`log, this`dmaReads, this`mem
      ensures State() == Engine.SetupData(hw, old(State()), d)
    {
      DmaFlush();
      var stat := hw.dmaS(dmaReads);
      dmaReads := dmaReads + 1;
      var transBytes := d.blocks * d.blocksize;
      var startAddr: Word;
      if d.dir == DataRead {
        startAddr := 0x4005_0000;
      } else {
        mem := Copy(mem, Engine.SRAM_WRITE, d.addr, transBytes);
        startAddr := 0x4002_0000;
      }
      var ws := [Write(BLOCK_COUNT, d.blocks as Word), Write(DMA_STATUS, stat),
                 Write(DMA_CTL, if d.dir == DataWrite then 0 else 0x8000_0000),
                 Write(SDMA_ADDR, startAddr), Write(SDMA_LEN, Engine.LenWord(d))];
      assert ws == Engine.DataSetupWrites(d, stat);
      log := log + ws;
    }

    /** Wait for the controller to be idle (bits 0..1 of the status
        register clear), then program the argument. */
    method Prelude(arg: Word)
      modifies this`log
      ensures State() == Engine.Prelude(old(State()), arg)
    {
      log := log + [AwaitClear(STATUS, 0x3), Write(ARGUMENT, arg)];
    }

    /** Clear the interrupt status (write back what it reads), then write
        the command word. */
    method Launch(command: Word)
      modifies this`log, this`intReads
      ensures State() == Engine.Launch(hw, old(State()), command)
    {
      var stat := hw.intS(intReads);
      intReads := intReads + 1;
      log := log + [Write(INT_STATUS, stat), Write(COMMAND, command)];
    }

    /** The start of `__w3k_sdhci_send_command`: wait for the controller,
        program the argument and the data phase, clear the interrupt status
        and write the command word. */
    method Issue(cmd: Cmd, data: Option<Data>)
      requires Engine.Stageable(data)
      modifies this`log, this`intReads, this`dmaReads, this`mem
      ensures State() == Engine.Program(hw, old(State()), cmd, data)
    {
      Stage(cmd.arg as Word, data);
      Launch(CommandWord(cmd, data, hw.codes));
    }

    /** Wait for the controller, program the argument and, for a data
        command, the data phase. */
    method Stage(arg: Word, data: Option<Data>)
      requires Engine.Stageable(data)
      modifies this`log, this`dmaReads, this`mem
      ensures var a := Engine.Prelude(old(State()), arg);
        State() == if data.Some? then Engine.SetupData(hw, a, data.value) else a
    {
      Prelude(arg);
      if data.Some? {
        SetupData(data.value);
      }
    }

    /** The data-completion wait; during a read the controller's DMA stores
        the card's bytes in SRAM, all of them on success. */
    method WaitData(d: Data) returns (ret: int)
      requires Engine.TransBytes(d) < 0x8000_0000
      modifies this`log, this`intReads, this`dmaReads, this`mem
      ensures Engine.Phase(ret, State()) == Engine.DataPhase(hw, old(State()), d)
    {
      var rounds, sync, acks;
      ret, rounds, sync, acks := TransferData(hw.intS, hw.dmaS, intReads, dmaReads);
      var stored := Engine.StoredBytes(hw, intReads, d, ret);
      log := log + acks;
      intReads := intReads + rounds;
      dmaReads := dmaReads + rounds;
      if d.dir == DataRead {
        mem := Deposit(mem, Engine.SRAM_READ, hw.card, stored);
      }
    }

    /** The end of `__w3k_sdhci_send_command`: clear the interrupt status;
        copy a successful read out of SRAM and return 0 for a successful data
        command; otherwise clear the DMA status and decide the result by the
        timeout bits of the interrupt status. */
    method Complete(ret0: int, data: Option<Data>) returns (ret: int)
      requires Engine.Stageable(data)
      modifies this`log, this`intReads, this`dmaReads, this`mem
      ensures Engine.Phase(ret, State()) == Engine.Finish(hw, Engine.Phase(ret0, old(State())), data)
    {
      var stat := hw.intS(intReads);
      intReads := intReads + 1;
      log := log + [Write(INT_STATUS, stat)];
      if ret0 == 0 && data.Some? && data.value.dir == DataRead {
        mem := Copy(mem, data.value.addr, Engine.SRAM_READ, Engine.TransBytes(data.value));
      }
      if ret0 == 0 && data.Some? {
        return 0;
      }
      var regValue := hw.dmaS(dmaReads);
      dmaReads := dmaReads + 1;
      log := log + [Write(DMA_STATUS, regValue)];
      if stat & Engine.INT_TIMEOUT_BITS != 0 {
        ret := -Engine.ETIMEDOUT;
      } else {
        ret := 0;
      }
    }

    /** `__w3k_sdhci_send_command`: one command and its data phase. */
    method SendCommand(cmd: Cmd, data: Option<Data>, response: array<Word>) returns (ret: int)
      requires response.Length == 4 && Engine.Stageable(data)
      modifies this, response
      ensures var c := Engine.Engine(hw, old(State()), cmd, data, old(response[..]));
        ret == c.ret && response[..] == c.response && State() == c.st
    {
      ghost var st0 := State();
      Issue(cmd, data);
      var stat, retry, polls := PollCommand(hw.intS, intReads);
      intReads := intReads + polls;
      assert State() == Engine.AfterPoll(hw, st0, cmd, data);
      if retry == 0 {
        ret := if hw.brokenR1b then 0 else -Engine.ETIMEDOUT;
        return;
      }
      ret := Respond(cmd, data, stat, response);
      assert Engine.Phase(ret, State()) == Engine.Transfer(hw, st0, cmd, data);
      ret := Complete(ret, data);
    }

    /** What follows a command poll that did not run out: read the response
        if the command completed, then wait for its data phase; -1 if the
        command-complete bit is not set. */
    method Respond(cmd: Cmd, data: Option<Data>, stat: Word, response: array<Word>) returns (ret: int)
      requires response.Length == 4 && Engine.Stageable(data)
      modifies this`log, this`intReads, this`dmaReads, this`mem, response
      ensures var done := stat & INT_CMD_DONE != 0;
        && response[..] == (if done then Engine.CmdDone(hw, cmd, old(response[..])) else old(response[..]))
        && Engine.Phase(ret, State()) ==
             if !done then Engine.Phase(-1, old(State()))
             else if data.Some? then Engine.DataPhase(hw, old(State()), data.value)
             else Engine.Phase(0, old(State()))
    {
      ret := 0;
      if stat & INT_CMD_DONE != 0 {
        CmdDone(cmd, response);
      } else {
        ret := -1;
      }
      if ret == 0 && data.Some? {
        ret := WaitData(data.value);
      }
    }

    /** `w3k_sdhci_set_clock`. */
    method SetClock(clock: nat)
      requires cfg.lim.Valid()
      modifies this`log
      ensures log == old(log) + SetClockAccesses(RegValue(reset, old(log), CLOCK_CONTROL), cfg.fMax, clock, cfg.v300, cfg.lim)
    {
      if clock == 0 {
        return;
      }
      var div := FindDivisor(cfg.fMax, clock, cfg.v300, cfg.lim);
      DivisorBounded(cfg.fMax, clock, cfg.v300, cfg.lim);
      div := div / 2;
      var clk := ReadReg(CLOCK_CONTROL);
      clk := ClockWord(clk, div);
      log := log + [Write(CLOCK_CONTROL, clk), AwaitClear(CLOCK_CONTROL, 0x80)];
    }

    /** `sdhci_writel` of a configuration register. */
    method WriteReg(off: nat, v: Word)
      modifies this`log
      ensures log == old(log) + [Write(off, v)]
      ensures forall o: nat :: o != off ==> RegValue(reset, log, o) == RegValue(reset, old(log), o)
    {
      log := log + [Write(off, v)];
      forall o: nat | o != off
        ensures RegValue(reset, log, o) == RegValue(reset, old(log), o)
      {
        RegValueAfterWrite(reset, old(log), off, v, o);
      }
    }

    /** A busy-wait the hardware ends; it writes nothing. */
    method Await(a: Access)
      requires !a.Write?
      modifies this`log
      ensures log == old(log) + [a]
      ensures forall o: nat :: RegValue(reset, log, o) == RegValue(reset, old(log), o)
    {
      log := log + [a];
      forall o: nat
        ensures RegValue(reset, log, o) == RegValue(reset, old(log), o)
      {
        RegValueAfterAwait(reset, old(log), a, o);
      }
    }

    /** `w3k_sdhci_set_ios`. */
    method SetIos(clock: nat, width: int)
      requires cfg.lim.Valid()
      modifies this`log
      ensures log == old(log) + IosAccesses(RegFile(reset, old(log)), cfg, hostClock, clock, width)
    {
      ghost var reg := RegFile(reset, log);
      ghost var clockPart := IosClockPart(reg, cfg, hostClock, clock);
      if clock != hostClock {
        SetClock(clock);
      }
      assert log == old(log) + clockPart;
      RegValueUntouched(reset, old(log), clockPart, HOST_CONTROL) by {
        if clock != hostClock {
          ClockWritesOnlyClock(reg(CLOCK_CONTROL), cfg.fMax, clock, cfg.v300, cfg.lim, HOST_CONTROL);
        }
      }
      var ctrl := ReadReg(HOST_CONTROL);
      ctrl := BusWidthWord(ctrl, width, cfg.v300, cfg.wide8, cfg.bits);
      log := log + [Write(HOST_CONTROL, ctrl)];
      ghost var bw := [Write(HOST_CONTROL, ctrl)];
      ghost var mid := log;
      ghost var hs: seq<Access> := [];
      if clock >= HS_CLOCK {
        IosPrefixKeeps(reset, old(log), cfg, hostClock, clock, ctrl, ODL);
        IosPrefixKeeps(reset, old(log), cfg, hostClock, clock, ctrl, KDL);
        IosPrefixKeeps(reset, old(log), cfg, hostClock, clock, ctrl, PCH1);
        IosPrefixKeeps(reset, old(log), cfg, hostClock, clock, ctrl, LATENCY);
        IosPrefixKeeps(reset, old(log), cfg, hostClock, clock, ctrl, DLL);
        Hs400(reg);
        hs := Hs400Tuning(reg);
      }
      assert log == mid + hs;
      assert IosAccesses(reg, cfg, hostClock, clock, width) == clockPart + bw + hs;
      SeqAssoc(old(log), clockPart, bw);
      SeqAssoc(old(log), clockPart + bw, hs);
    }

    /** The HS400 tuning of `w3k_sdhci_set_ios`, when the delay registers
        still read as `reg` says. */
    method Hs400(ghost reg: nat -> Word)
      requires RegValue(reset, log, ODL) == reg(ODL) && RegValue(reset, log, KDL) == reg(KDL)
      requires RegValue(reset, log, PCH1) == reg(PCH1) && RegValue(reset, log, LATENCY) == reg(LATENCY)
      requires RegValue(reset, log, DLL) == reg(DLL)
      modifies this`log
      ensures log == old(log) + Hs400Tuning(reg)
    {
      DelayLines(reg);
      assert !Writes(DelayTuning(reg), DLL) by {
        var t := DelayTuning(reg);
        assert t[0].offset == ODL && t[1].offset == KDL && t[3].offset == PCH1 && t[4].offset == LATENCY;
      }
      RegValueUntouched(reset, old(log), DelayTuning(reg), DLL);
      ResetDll();
      SeqAssoc(old(log), DelayTuning(reg), DllTuning(reg(DLL)));
    }

    /** The delay-line read-modify-writes of the HS400 tuning. */
    method DelayLines(ghost reg: nat -> Word)
      requires RegValue(reset, log, ODL) == reg(ODL) && RegValue(reset, log, KDL) == reg(KDL)
      requires RegValue(reset, log, PCH1) == reg(PCH1) && RegValue(reset, log, LATENCY) == reg(LATENCY)
      modifies this`log
      ensures log == old(log) + DelayTuning(reg)
    {
      ghost var l0 := log;
      OutputDelayLines(reg);
      RegValueUntouched(reset, l0, OutputDelays(reg), PCH1) by {
        assert OutputDelays(reg)[0].offset == ODL && OutputDelays(reg)[1].offset == KDL;
      }
      RegValueUntouched(reset, l0, OutputDelays(reg), LATENCY) by {
        assert OutputDelays(reg)[0].offset == ODL && OutputDelays(reg)[1].offset == KDL;
      }
      SamplingDelayLines(reg);
      SeqAssoc(l0, OutputDelays(reg), SamplingDelays(reg));
    }

    /** The output delay line, then the data and command output delays. */
    method OutputDelayLines(ghost reg: nat -> Word)
      requires RegValue(reset, log, ODL) == reg(ODL) && RegValue(reset, log, KDL) == reg(KDL)
      modifies this`log
      ensures log == old(log) + OutputDelays(reg)
    {
      ghost var l0 := log;
      Modify(ODL, OdlWord);
      RegValueAfterWrite(reset, l0, ODL, OdlWord(reg(ODL)), KDL);
      // Enable the data and command output delays.
      Modify(KDL, KdlWord);
      log := log + [AwaitClear(KDL, 0x180)];
      assert log == l0 + [Write(ODL, OdlWord(reg(ODL)))] + [Write(KDL, KdlWord(reg(KDL)))] + [AwaitClear(KDL, 0x180)];
    }

    /** The phase and latency registers. */
    method SamplingDelayLines(ghost reg: nat -> Word)
      requires RegValue(reset, log, PCH1) == reg(PCH1) && RegValue(reset, log, LATENCY) == reg(LATENCY)
      modifies this`log
      ensures log == old(log) + SamplingDelays(reg)
    {
      ghost var l0 := log;
      Modify(PCH1, Pch1Word);
      RegValueAfterWrite(reset, l0, PCH1, Pch1Word(reg(PCH1)), LATENCY);
      Modify(LATENCY, LatencyWord);
      assert log == l0 + [Write(PCH1, Pch1Word(reg(PCH1)))] + [Write(LATENCY, LatencyWord(reg(LATENCY)))];
    }

    /** One `sdhci_readl`, then `sdhci_writel` of the value `f` makes of it. */
    method Modify(off: nat, f: Word -> Word)
      modifies this`log
      ensures log == old(log) + [Write(off, f(RegValue(reset, old(log), off)))]
    {
      var ctrl := ReadReg(off);
      ctrl := f(ctrl);
      log := log + [Write(off, ctrl)];
    }

    /** The delay-locked-loop reset of the HS400 tuning. */
    method ResetDll()
      modifies this`log
      ensures log == old(log) + DllTuning(RegValue(reset, old(log), DLL))
    {
      var ctrl := ReadReg(DLL);
      log := log + [Write(DLL, DllOff(ctrl))];
      log := log + [Write(DLL, DllOn(ctrl)), AwaitDllLock(DLL, 0x6)];
    }

    /** `w3k_sdhci_clk_ctrl`: gate (`enable != 1`) or ungate the card clock. */
    method ClkCtrl(enable: int)
      modifies this`log
      ensures log == old(log) + [Write(GATE_CONTROL, GateWord(RegValue(reset, old(log), GATE_CONTROL), enable))]
    {
      var val := ReadReg(GATE_CONTROL);
      val := GateWord(val, enable);
      log := log + [Write(GATE_CONTROL, val)];
    }

    /** `emmc_fck_divider_set`. */
    method FckDividerSet(factor: nat)
      requires factor < 0x1_0000
      modifies this`log
      ensures log == old(log) + FckAccesses(RegValue(reset, old(log), CLOCK_CONTROL), factor)
    {
      var value := ReadReg(CLOCK_CONTROL);
      value := FckWord(value, factor);
      log := log + [Write(CLOCK_CONTROL, value), AwaitClear(CLOCK_CONTROL, 0x80)];
    }
  }
}
