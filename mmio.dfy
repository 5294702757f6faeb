/**
  The register file and the system memory as the W3K SD/eMMC host driver
  sees them.

  Every access the driver makes to the controller is recorded in a log of
  `Access` events.  A configuration register reads back the value last
  written to it (or its reset value).  The busy-waits whose only exit is the
  hardware reporting ready are recorded as single `AwaitClear`/`AwaitDllLock`
  events: the hardware is taken to report ready eventually.
*/
module Mmio {

  /** A 32-bit register word. */
  type Word = bv32

  /** The driver's `uint`/`u32` values. */
  type U32 = x: nat | x < 0x1_0000_0000

  const TWO_32: nat := 0x1_0000_0000

  // Register offsets from the controller base address.
  const CLOCK_CONTROL: nat := 0x000
  const LATENCY: nat := 0x004
  const INT_STATUS: nat := 0x00C
  const HOST_CONTROL: nat := 0x014
  const COMMAND: nat := 0x018
  const ARGUMENT: nat := 0x01C
  const STATUS: nat := 0x020
  const RESPONSE: nat := 0x024
  const BLOCK_COUNT: nat := 0x034
  const PCH1: nat := 0x05C
  const KDL: nat := 0x074
  const DLL: nat := 0x088
  const ODL: nat := 0x08C
  const SDMA_ADDR: nat := 0x100
  const SDMA_LEN: nat := 0x104
  const DMA_CTL: nat := 0x108
  /** DMA status; the DMA flush also reads and writes it as a control register. */
  const DMA_STATUS: nat := 0x110
  const GATE_CONTROL: nat := 0xFFC

  /** One step of the driver's conversation with the controller. */
  datatype Access =
    | Write(offset: nat, value: Word)
      /** Busy-wait until `reg & mask == 0`. */
    | AwaitClear(offset: nat, mask: Word)
      /** Busy-wait, resetting the delay line every 10000 polls, until `reg & mask != 0`. */
    | AwaitDllLock(offset: nat, mask: Word)

  /** The value a configuration register reads back after `log`: the last
      value written to it, or its reset value when it was never written. */
  function RegValue(reset: nat -> Word, log: seq<Access>, off: nat): (v: Word)
    ensures v == reset(off) || Write(off, v) in log
    ensures (forall a :: a in log && a.Write? ==> a.offset != off) ==> v == reset(off)
    decreases |log|
  {
    if log == [] then reset(off)
    else
      var last := log[|log| - 1];
      var front := log[..|log| - 1];
      assert log == front + [last];
      if last.Write? && last.offset == off then last.value
      else RegValue(reset, front, off)
  }

  /** Every configuration register's read-back value after `log`: `RegValue`
      curried over the offset, so that a read-modify-write can be handed the
      whole register file. It adds no meaning of its own; what a register
      reads back is stated by the lemmas about `RegValue`. */
  function RegFile(reset: nat -> Word, log: seq<Access>): (r: nat -> Word)
    ensures forall off: nat :: r(off) == RegValue(reset, log, off)
  {
    (off: nat) => RegValue(reset, log, off)
  }

  /** A register reads back the value of its last write. */
  lemma {:induction false} RegValueLastWrite(reset: nat -> Word, log: seq<Access>, off: nat, i: nat)
    requires i < |log| && log[i].Write? && log[i].offset == off
    requires forall j :: i < j < |log| ==> !(log[j].Write? && log[j].offset == off)
    ensures RegValue(reset, log, off) == log[i].value
    decreases |log|
  {
    if i < |log| - 1 {
      var front := log[..|log| - 1];
      assert forall j :: i < j < |front| ==> front[j] == log[j];
      RegValueLastWrite(reset, front, off, i);
    }
  }

  lemma RegValueAfterWrite(reset: nat -> Word, log: seq<Access>, off: nat, v: Word, other: nat)
    ensures RegValue(reset, log + [Write(off, v)], off) == v
    ensures other != off ==>
      RegValue(reset, log + [Write(off, v)], other) == RegValue(reset, log, other)
  {
    assert (log + [Write(off, v)])[..|log|] == log;
  }

  lemma RegValueAfterAwait(reset: nat -> Word, log: seq<Access>, a: Access, other: nat)
    requires !a.Write?
    ensures RegValue(reset, log + [a], other) == RegValue(reset, log, other)
  {
    assert (log + [a])[..|log|] == log;
  }

  lemma SeqAssoc<T>(a: seq<T>, b: seq<T>, c: seq<T>)
    ensures a + (b + c) == (a + b) + c
  {
  }

  /** System memory, byte-addressed; addresses are naturals. */
  type Memory = nat -> bv8

  /** `memcpy(dst, src, n)` on non-overlapping regions. */
  function Copy(m: Memory, dst: nat, src: nat, n: nat): (r: Memory)
  {
    (a: nat) => if dst <= a < dst + n then m(src + (a - dst)) else m(a)
  }

  /** The DMA engine storing `n` bytes taken from `bytes` at `dst`. */
  function Deposit(m: Memory, dst: nat, bytes: nat -> bv8, n: nat): (r: Memory)
  {
    (a: nat) => if dst <= a < dst + n then bytes(a - dst) else m(a)
  }

  /** The `n` bytes of `m` from address `a` on. */
  function Bytes(m: Memory, a: nat, n: nat): (s: seq<bv8>)
    ensures |s| == n
  {
    seq(n, (i: int) requires 0 <= i < n => m(a + i))
  }

  /** The copy's destination holds the source bytes. */
  lemma BytesCopy(m: Memory, dst: nat, src: nat, n: nat)
    ensures Bytes(Copy(m, dst, src, n), dst, n) == Bytes(m, src, n)
  {
  }

  /** The deposit's destination holds the deposited bytes. */
  lemma BytesDeposit(m: Memory, dst: nat, bytes: nat -> bv8, n: nat)
    ensures Bytes(Deposit(m, dst, bytes, n), dst, n) == Bytes(bytes, 0, n)
  {
  }

  /** Reading `n` bytes over a deposit of `l <= n` bytes gives the
      deposited bytes, then what memory held beyond them. */
  lemma BytesShortDeposit(m: Memory, dst: nat, bytes: nat -> bv8, l: nat, n: nat)
    requires l <= n
    ensures Bytes(Deposit(m, dst, bytes, l), dst, n) == Bytes(bytes, 0, l) + Bytes(m, dst + l, n - l)
  {
    var s := Bytes(Deposit(m, dst, bytes, l), dst, n);
    var t := Bytes(bytes, 0, l) + Bytes(m, dst + l, n - l);
    forall i | 0 <= i < n
      ensures s[i] == t[i]
    {
      if i >= l {
        assert t[i] == Bytes(m, dst + l, n - l)[i - l];
      }
    }
  }

  lemma CopyAt(m: Memory, dst: nat, src: nat, n: nat, a: nat)
    ensures dst <= a < dst + n ==> Copy(m, dst, src, n)(a) == m(src + (a - dst))
    ensures !(dst <= a < dst + n) ==> Copy(m, dst, src, n)(a) == m(a)
  {
  }
}
