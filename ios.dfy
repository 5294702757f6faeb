/**
  The register read-modify-writes of `w3k_sdhci_set_ios` (bus width and,
  at 100 MHz and above, the HS400 delay-line tuning) and of
  `w3k_sdhci_clk_ctrl` (card-clock gate).
*/
module Ios {
  import opened Mmio
  import opened Clock

  /** The bus-width bits `w3k_sdhci_set_ios` clears. */
  const BUS_WIDTH_MASK: Word := 0x0003_0000

  /** From this card clock on, the delay lines are tuned for HS400. */
  const HS_CLOCK: nat := 100_000_000

  /** `SDHCI_CTRL_4BITBUS` and `SDHCI_CTRL_8BITBUS` (sdhci.h is not part of
      this model). */
  datatype BusBits = BusBits(ctrl4: Word, ctrl8: Word)

  /** The values U-Boot's sdhci.h gives the bus-width bits; used for examples. */
  const UBootBusBits := BusBits(0x02, 0x20)

  /** `v & ~clear | put`: the bits of `clear` replaced. */
  function Field(v: Word, clear: Word, put: Word): Word {
    (v & !clear) | put
  }

  /** Bits in neither mask keep their value and those of `put` end up set. */
  lemma FieldBits(v: Word, clear: Word, put: Word)
    ensures Field(v, clear, put) & !(clear | put) == v & !(clear | put)
    ensures Field(v, clear, put) & put == put
  {
  }

  /** Bits only in `clear` end up clear. */
  lemma FieldClears(v: Word, clear: Word, put: Word)
    ensures Field(v, clear, put) & (clear & !put) == 0
  {
  }

  /** The bits the bus-width selection ORs in: the 8-bit bit for an 8-bit
      bus on a version 3.00 controller or under `SDHCI_QUIRK_USE_WIDE8`,
      the 4-bit bit for a 4-bit bus, nothing otherwise. */
  function WidthBits(width: int, v300: bool, wide8: bool, b: BusBits): (w: Word)
    ensures width == 8 ==> w == (if v300 || wide8 then b.ctrl8 else 0)
    ensures width == 4 ==> w == b.ctrl4
    ensures width != 8 && width != 4 ==> w == 0
  {
    if width == 8 then (if v300 || wide8 then b.ctrl8 else 0)
    else if width == 4 then b.ctrl4
    else 0
  }

  /** The HOST_CONTROL word for a bus width, after reading `ctrl`. */
  function BusWidthWord(ctrl: Word, width: int, v300: bool, wide8: bool, b: BusBits): Word {
    Field(ctrl, BUS_WIDTH_MASK, WidthBits(width, v300, wide8, b))
  }

  /** The width bits are only ever added: when the width selector bits lie
      outside the cleared mask, as with U-Boot's values, a bit set for an
      earlier width stays set. */
  lemma WidthBitsAccumulate(ctrl: Word, width: int, v300: bool, wide8: bool, b: BusBits)
    requires (b.ctrl4 | b.ctrl8) & BUS_WIDTH_MASK == 0
    ensures BusWidthWord(ctrl, width, v300, wide8, b) & (b.ctrl4 | b.ctrl8) & ctrl
         == (b.ctrl4 | b.ctrl8) & ctrl
  {
    var sel := WidthBits(width, v300, wide8, b);
    var w := BusWidthWord(ctrl, width, v300, wide8, b);
    assert w == (ctrl & !BUS_WIDTH_MASK) | sel;
  }

  /** With U-Boot's values, switching an 8-bit bus to 4 bits leaves the
      8-bit bit set beside the 4-bit one. */
  lemma EightToFourKeepsEightBit(ctrl: Word)
    requires ctrl & 0x20 != 0
    ensures BusWidthWord(ctrl, 4, true, false, UBootBusBits) & 0x22 == 0x22
  {
  }

  /** Delay-line words for HS400. */
  function OdlWord(v: Word): Word { Field(v, 0xFFFF, 0x1010) }
  /** Data and command output delay enabled (bits 7 and 8), delay 2. */
  function KdlWord(v: Word): Word { Field(v, 0xF, 0x2 | 0x180) }
  function Pch1Word(v: Word): Word { Field(v, 0xFF, 0x55) }
  function LatencyWord(v: Word): Word { Field(v, 0x7F, 0x50) }

  /** The delay-locked loop held in reset: bit 0 cleared. */
  function DllOff(v: Word): Word {
    v & !0x1
  }

  /** The delay-locked loop released: bit 0 set again. */
  function DllOn(v: Word): Word {
    DllOff(v) | 0x1
  }

  /** Both words keep every bit of the register but bit 0, which is clear
      in the first and set in the second. */
  lemma DllBits(v: Word)
    ensures DllOff(v) & !0x1 == v & !0x1 && DllOff(v) & 0x1 == 0
    ensures DllOn(v) & !0x1 == v & !0x1 && DllOn(v) & 0x1 == 0x1
  {
  }

  /** The output-delay part of the HS400 tuning, given the register values
      before it: the output delay line, then the data and command output
      delays, waiting until the controller clears their enable bits (7
      and 8). */
  function OutputDelays(reg: nat -> Word): seq<Access> {
    [Write(ODL, OdlWord(reg(ODL))), Write(KDL, KdlWord(reg(KDL))), AwaitClear(KDL, 0x180)]
  }

  /** The sampling part of the HS400 tuning: the phase and latency
      registers. */
  function SamplingDelays(reg: nat -> Word): seq<Access> {
    [Write(PCH1, Pch1Word(reg(PCH1))), Write(LATENCY, LatencyWord(reg(LATENCY)))]
  }

  /** The delay-line part of the HS400 tuning: each delay register
      read-modified-written once. */
  function DelayTuning(reg: nat -> Word): seq<Access> {
    OutputDelays(reg) + SamplingDelays(reg)
  }

  /** The delay-locked-loop reset, given the register's value `v` before
      it: bit 0 cleared, then set, then a wait until the loop reports lock
      (bits 1..2). */
  function DllTuning(v: Word): seq<Access> {
    [Write(DLL, DllOff(v)), Write(DLL, DllOn(v)), AwaitDllLock(DLL, 0x6)]
  }

  /** The HS400 tuning, given the register values before it. */
  function Hs400Tuning(reg: nat -> Word): seq<Access> {
    DelayTuning(reg) + DllTuning(reg(DLL))
  }

  /** The clock and bus settings `w3k_sdhci_set_ios` applies. */
  datatype IosConfig = IosConfig(fMax: nat, v300: bool, wide8: bool, lim: DivLimits, bits: BusBits)

  /** The accesses of `w3k_sdhci_set_ios`, given the register values before
      it: the clock is set only when the requested clock differs from the
      host's, then the bus width, then the HS400 tuning at 100 MHz and above. */
  function IosAccesses(reg: nat -> Word, cfg: IosConfig, hostClock: nat, clock: nat, width: int): seq<Access>
    requires cfg.lim.Valid()
  {
    IosClockPart(reg, cfg, hostClock, clock)
    + [Write(HOST_CONTROL, BusWidthWord(reg(HOST_CONTROL), width, cfg.v300, cfg.wide8, cfg.bits))]
    + (if clock >= HS_CLOCK then Hs400Tuning(reg) else [])
  }

  /** Registers `w3k_sdhci_set_ios` writes. */
  predicate Writes(acc: seq<Access>, off: nat) {
    exists i :: 0 <= i < |acc| && acc[i].Write? && acc[i].offset == off
  }

  lemma WritesAppend(a: seq<Access>, b: seq<Access>, off: nat)
    ensures Writes(a + b, off) <==> Writes(a, off) || Writes(b, off)
  {
    if Writes(a, off) {
      var i :| 0 <= i < |a| && a[i].Write? && a[i].offset == off;
      assert (a + b)[i] == a[i];
    }
    if Writes(b, off) {
      var i :| 0 <= i < |b| && b[i].Write? && b[i].offset == off;
      assert (a + b)[|a| + i] == b[i];
    }
    if Writes(a + b, off) {
      var i :| 0 <= i < |a + b| && (a + b)[i].Write? && (a + b)[i].offset == off;
      if i >= |a| { assert b[i - |a|] == (a + b)[i]; }
    }
  }

  /** A register no access of `tail` writes reads the same after `tail`. */
  lemma {:induction false} RegValueUntouched(reset: nat -> Word, log: seq<Access>, tail: seq<Access>, off: nat)
    requires !Writes(tail, off)
    ensures RegValue(reset, log + tail, off) == RegValue(reset, log, off)
    decreases |tail|
  {
    if tail != [] {
      var front, a := tail[..|tail| - 1], tail[|tail| - 1];
      assert tail == front + [a];
      WritesAppend(front, [a], off);
      RegValueUntouched(reset, log, front, off);
      assert log + tail == (log + front) + [a];
      if a.Write? {
        assert [a][0] == a;
        assert a.offset != off;
        RegValueAfterWrite(reset, log + front, a.offset, a.value, off);
      } else {
        RegValueAfterAwait(reset, log + front, a, off);
      }
    } else {
      assert log + tail == log;
    }
  }

  /** `w3k_sdhci_set_clock` writes no register but the clock control. */
  lemma ClockWritesOnlyClock(clk: Word, fMax: nat, clock: nat, v300: bool, lim: DivLimits, off: nat)
    requires lim.Valid() && off != CLOCK_CONTROL
    ensures !Writes(SetClockAccesses(clk, fMax, clock, v300, lim), off)
  {
  }

  /** The clock accesses `w3k_sdhci_set_ios` makes before the bus width. */
  function IosClockPart(reg: nat -> Word, cfg: IosConfig, hostClock: nat, clock: nat): seq<Access>
    requires cfg.lim.Valid()
  {
    if clock != hostClock then SetClockAccesses(reg(CLOCK_CONTROL), cfg.fMax, clock, cfg.v300, cfg.lim) else []
  }

  /** A register other than the clock control and the host control reads
      after the clock and bus-width accesses what it read before them. */
  lemma IosPrefixKeeps(reset: nat -> Word, log: seq<Access>, cfg: IosConfig, hostClock: nat, clock: nat, w: Word, off: nat)
    requires cfg.lim.Valid() && off != CLOCK_CONTROL && off != HOST_CONTROL
    ensures var c := IosClockPart(RegFile(reset, log), cfg, hostClock, clock);
      RegValue(reset, log + c + [Write(HOST_CONTROL, w)], off) == RegValue(reset, log, off)
  {
    var reg := RegFile(reset, log);
    var c := IosClockPart(reg, cfg, hostClock, clock);
    if clock != hostClock {
      ClockWritesOnlyClock(reg(CLOCK_CONTROL), cfg.fMax, clock, cfg.v300, cfg.lim, off);
    }
    RegValueUntouched(reset, log, c, off);
    RegValueAfterWrite(reset, log + c, HOST_CONTROL, w, off);
  }

  lemma TuningWrites(reg: nat -> Word)
    ensures Writes(Hs400Tuning(reg), DLL) && !Writes(Hs400Tuning(reg), CLOCK_CONTROL)
  {
    assert Hs400Tuning(reg)[5].offset == DLL;
  }

  lemma ClockWrites(clk: Word, fMax: nat, clock: nat, v300: bool, lim: DivLimits)
    requires lim.Valid()
    ensures var c := SetClockAccesses(clk, fMax, clock, v300, lim);
      (Writes(c, CLOCK_CONTROL) <==> clock != 0) && !Writes(c, DLL)
  {
    var c := SetClockAccesses(clk, fMax, clock, v300, lim);
    if clock != 0 { assert c[0].offset == CLOCK_CONTROL; }
  }

  /** The delay lines are touched exactly at 100 MHz and above, the clock
      control register exactly when the clock differs from the host's and
      is not zero, and the bus width always. */
  lemma IosTouches(reg: nat -> Word, cfg: IosConfig, hostClock: nat, clock: nat, width: int)
    requires cfg.lim.Valid()
    ensures var acc := IosAccesses(reg, cfg, hostClock, clock, width);
      && (Writes(acc, DLL) <==> clock >= HS_CLOCK)
      && (Writes(acc, CLOCK_CONTROL) <==> clock != hostClock && clock != 0)
      && Writes(acc, HOST_CONTROL)
  {
    var c := if clock != hostClock then SetClockAccesses(reg(CLOCK_CONTROL), cfg.fMax, clock, cfg.v300, cfg.lim) else [];
    var bw := [Write(HOST_CONTROL, BusWidthWord(reg(HOST_CONTROL), width, cfg.v300, cfg.wide8, cfg.bits))];
    var hs := if clock >= HS_CLOCK then Hs400Tuning(reg) else [];
    ClockWrites(reg(CLOCK_CONTROL), cfg.fMax, clock, cfg.v300, cfg.lim);
    TuningWrites(reg);
    assert Writes(bw, HOST_CONTROL) && !Writes(bw, DLL) && !Writes(bw, CLOCK_CONTROL) by {
      assert bw[0].offset == HOST_CONTROL && |bw| == 1;
    }
    WritesAppend(c, bw, DLL);
    WritesAppend(c, bw, CLOCK_CONTROL);
    WritesAppend(c, bw, HOST_CONTROL);
    WritesAppend(c + bw, hs, DLL);
    WritesAppend(c + bw, hs, CLOCK_CONTROL);
    WritesAppend(c + bw, hs, HOST_CONTROL);
  }

  /** `w3k_sdhci_clk_ctrl`: bit 1 of the gate register gates the card clock;
      `enable == 1` clears it, any other value sets it. */
  function GateWord(v: Word, enable: int): (w: Word)
    ensures w & !0x2 == v & !0x2
    ensures (w & 0x2 == 0) <==> enable == 1
  {
    if enable == 1 then v & !0x2 else v | 0x2
  }
}
