/**
  Clock-divider selection and encoding: the divisor search and field
  encoding of `w3k_sdhci_set_clock`, the field encoding of
  `emmc_fck_divider_set`, and the clock-control word `w3k_sdhci_host_init`
  writes.

  The divider field of CLOCK_CONTROL is bits 8..21 (mask 0x003FFF00): bits
  8..20 hold `h - 1` for a halved divisor `h`, and bit 21 selects the
  undivided clock.
*/
module Clock {
  import opened Wrappers
  import opened Mmio

  /** The clock-control bits the divider encodings replace. */
  const DIV_FIELD: Word := 0x003F_FF00
  /** Bit 21: clock not divided. */
  const DIV_BYPASS: Word := 0x0020_0000

  /** `SDHCI_MAX_DIV_SPEC_300` and `SDHCI_MAX_DIV_SPEC_200` (sdhci.h is not
      part of this model). */
  datatype DivLimits = DivLimits(spec300: nat, spec200: nat) {
    /** The searches run on `unsigned int`: `div += 2` and `div *= 2` must not wrap. */
    predicate Valid() { spec300 < 0x8000_0000 && spec200 < 0x8000_0000 }
  }

  /** The values U-Boot's sdhci.h gives the limits; used for examples. */
  const UBootLimits := DivLimits(2046, 256)

  // ---------------------------------------------------------------------
  // Divisor search
  // ---------------------------------------------------------------------

  /** The version 3.00 search continued from the even divisor `d`: the first
      even divisor whose output clock does not exceed `clock`, or the value
      the loop stops at when none below `max` does. */
  function EvenFrom(fMax: nat, clock: nat, max: nat, d: nat): nat
    requires d >= 2
    decreases if d < max then max - d else 0
  {
    if d >= max then d
    else if fMax / d <= clock then d
    else EvenFrom(fMax, clock, max, d + 2)
  }

  predicate IsPow2(n: nat) {
    if n <= 1 then n == 1 else n % 2 == 0 && IsPow2(n / 2)
  }

  /** The version 2.00 search continued from the power of two `d`. */
  function Pow2From(fMax: nat, clock: nat, max: nat, d: nat): nat
    requires d >= 1
    decreases if d < max then max - d else 0
  {
    if d >= max then d
    else if fMax / d <= clock then d
    else Pow2From(fMax, clock, max, d * 2)
  }

  /** The divisor `w3k_sdhci_set_clock` selects before halving it. */
  function Divisor(fMax: nat, clock: nat, v300: bool, lim: DivLimits): nat {
    if v300 then (if fMax <= clock then 1 else EvenFrom(fMax, clock, lim.spec300, 2))
    else Pow2From(fMax, clock, lim.spec200, 1)
  }

  /** What the even search finds: an even divisor no smaller than where it
      started; the smallest such whose output clock is at most `clock` when
      one exists below `max`; and otherwise the first even value at or
      beyond `max`. */
  lemma {:induction false} EvenFromSpec(fMax: nat, clock: nat, max: nat, d: nat)
    requires d >= 2 && d % 2 == 0
    ensures var r := EvenFrom(fMax, clock, max, d);
      && r % 2 == 0 && r >= d
      && (r < max ==> fMax / r <= clock)
      && (r >= max ==> r == d || r < max + 2)
      && forall e :: d <= e < r && e % 2 == 0 ==> fMax / e > clock
    decreases if d < max then max - d else 0
  {
    if d < max && fMax / d > clock {
      var r := EvenFrom(fMax, clock, max, d + 2);
      EvenFromSpec(fMax, clock, max, d + 2);
      assert EvenFrom(fMax, clock, max, d) == r;
      forall e | d <= e < r && e % 2 == 0
        ensures fMax / e > clock
      {
        if e < d + 2 { assert e == d; }
      }
    }
  }

  /** What the power-of-two search finds, in the same terms. */
  lemma {:induction false} Pow2FromSpec(fMax: nat, clock: nat, max: nat, d: nat)
    requires d >= 1 && IsPow2(d)
    ensures var r := Pow2From(fMax, clock, max, d);
      && IsPow2(r) && r >= d
      && (r < max ==> fMax / r <= clock)
      && (r >= max ==> r == d || r < 2 * max)
      && forall e :: d <= e < r && IsPow2(e) ==> fMax / e > clock
    decreases if d < max then max - d else 0
  {
    if d < max && fMax / d > clock {
      assert (d * 2) / 2 == d;
      Pow2FromSpec(fMax, clock, max, d * 2);
      forall e | d <= e < Pow2From(fMax, clock, max, d) && IsPow2(e)
        ensures fMax / e > clock
      {
        if e > d && e < d * 2 { Pow2Gap(d, e); }
      }
    }
  }

  /** No power of two lies strictly between `d` and `2 * d`. */
  lemma {:induction false} Pow2Gap(d: nat, e: nat)
    requires IsPow2(d) && IsPow2(e) && d < e
    ensures e >= 2 * d
    decreases e
  {
    if d == 1 {
    } else {
      Pow2Gap(d / 2, e / 2);
    }
  }

  /** The search loops as written: `div` starts at 2 and steps by 2 on
      version 3.00 (after the `f_max <= clock` shortcut), and starts at 1
      and doubles on version 2.00. */
  method FindDivisor(fMax: nat, clock: nat, v300: bool, lim: DivLimits) returns (div: nat)
    ensures div == Divisor(fMax, clock, v300, lim)
  {
    if v300 {
      if fMax <= clock {
        div := 1;
      } else {
        div := 2;
        while div < lim.spec300
          invariant div >= 2
          invariant EvenFrom(fMax, clock, lim.spec300, 2) == EvenFrom(fMax, clock, lim.spec300, div)
          decreases lim.spec300 - div
        {
          if fMax / div <= clock { break; }
          div := div + 2;
        }
      }
    } else {
      div := 1;
      while div < lim.spec200
        invariant div >= 1
        invariant Pow2From(fMax, clock, lim.spec200, 1) == Pow2From(fMax, clock, lim.spec200, div)
        decreases lim.spec200 - div
      {
        if fMax / div <= clock { break; }
        div := div * 2;
      }
    }
  }

  /** With valid limits every selected divisor stays below 2^32. */
  lemma DivisorBounded(fMax: nat, clock: nat, v300: bool, lim: DivLimits)
    requires lim.Valid()
    ensures 1 <= Divisor(fMax, clock, v300, lim) < 0x1_0000_0000
  {
    if v300 {
      if fMax > clock { EvenFromSpec(fMax, clock, lim.spec300, 2); }
    } else {
      Pow2FromSpec(fMax, clock, lim.spec200, 1);
    }
  }

  // ---------------------------------------------------------------------
  // Field encodings
  // ---------------------------------------------------------------------

  /** The divider bits `w3k_sdhci_set_clock` ORs in for the halved divisor
      `h`: `h - 1` (low 13 bits) at bit 8, or the bypass bit when `h` is 0. */
  function ClockField(h: nat): (f: Word)
    requires h < 0x1_0000_0000
    ensures f & !DIV_FIELD == 0
    ensures h == 0 <==> f == DIV_BYPASS
  {
    if h > 0 then (((h - 1) as Word) & 0x1FFF) << 8 else DIV_BYPASS
  }

  /** The clock-control word after replacing the divider field of `clk`. */
  function ClockWord(clk: Word, h: nat): (w: Word)
    requires h < 0x1_0000_0000
    ensures w & !DIV_FIELD == clk & !DIV_FIELD
    ensures w & DIV_FIELD == ClockField(h)
  {
    (clk & !DIV_FIELD) | ClockField(h)
  }

  /** The clock-control word `w3k_sdhci_set_clock` writes after reading
      `clk`, or `None` when `clock` is 0 and nothing is written. */
  function SetClockWord(clk: Word, fMax: nat, clock: nat, v300: bool, lim: DivLimits): (r: Option<Word>)
    requires lim.Valid()
    ensures clock == 0 <==> r.None?
    ensures r.Some? ==> r.value & !DIV_FIELD == clk & !DIV_FIELD
  {
    if clock == 0 then None
    else
      DivisorBounded(fMax, clock, v300, lim);
      Some(ClockWord(clk, Divisor(fMax, clock, v300, lim) / 2))
  }

  /** The accesses of `w3k_sdhci_set_clock` after it read `clk`: none
      for a zero clock, else the divider write and the wait for the clock
      to be stable (bit 7 clear). */
  function SetClockAccesses(clk: Word, fMax: nat, clock: nat, v300: bool, lim: DivLimits): seq<Access>
    requires lim.Valid()
  {
    match SetClockWord(clk, fMax, clock, v300, lim)
    case None => []
    case Some(w) => [Write(CLOCK_CONTROL, w), AwaitClear(CLOCK_CONTROL, 0x80)]
  }

  /** The divider bits `emmc_fck_divider_set` ORs in for a 16-bit `factor`:
      bit 21 when `factor < 2`, else `(factor & 0x1FFF) / 2 - 1` at bit 8,
      computed in `int` so that a factor whose low 13 bits are 0 or 1
      shifts -1. Left-shifting a negative `int` is undefined in C; the model
      takes the two's-complement result, bits 8..31 set, that a compiler
      for this target produces. */
  function FckField(factor: nat): Word
    requires factor < 0x1_0000
  {
    var q: int := (factor % 0x2000) / 2 - 1;
    if factor < 2 then DIV_BYPASS
    else if q < 0 then 0xFFFF_FF00
    else (q as Word) << 8
  }

  /** `emmc_fck_divider_set`: the clock-control word written for `factor`. */
  function FckWord(value: Word, factor: nat): (w: Word)
    requires factor < 0x1_0000
    ensures factor < 2 ==> w == (value & !DIV_FIELD) | DIV_BYPASS
  {
    (value & !DIV_FIELD) | FckField(factor)
  }

  /** The accesses of `emmc_fck_divider_set` after it read `value`. */
  function FckAccesses(value: Word, factor: nat): seq<Access>
    requires factor < 0x1_0000
  {
    [Write(CLOCK_CONTROL, FckWord(value, factor)), AwaitClear(CLOCK_CONTROL, 0x80)]
  }

  /** Both encodings agree: the factor `2 * h` encodes like the halved
      divisor `h` for `1 <= h < 0x1000`, and a factor below 2 like `h == 0`. */
  lemma FckMatchesClock(value: Word, h: nat)
    requires h < 0x1000
    ensures h >= 1 ==> FckWord(value, 2 * h) == ClockWord(value, h)
    ensures FckWord(value, 0) == ClockWord(value, 0) && FckWord(value, 1) == ClockWord(value, 0)
  {
    if h >= 1 {
      assert (2 * h % 0x2000) / 2 - 1 == h - 1;
      assert ClockField(h) == ((h - 1) as Word) << 8 by { LowBitsKept(h - 1); }
    }
  }

  lemma LowBitsKept(x: nat)
    requires x < 0x1000
    ensures ((x as Word) & 0x1FFF) == x as Word
  {
    assert x as Word <= 0xFFF;
  }

  /** A factor whose low 13 bits are 0, such as 0x2000, sets every bit from
      8 to 31 and keeps only the low byte of the register (taking the
      two's-complement result of the undefined negative shift). */
  lemma FckWrapsAtLowBitsZero(value: Word)
    ensures FckWord(value, 0x2000) == (value & 0xFF) | 0xFFFF_FF00
  {
  }

  /** The clock-control word `w3k_sdhci_host_init` writes, for its local
      settings (integers, tested through their low bit as `!(x & 0x01)`). */
  function HostInitClockWord(sckAutoGateOff: int, sckEnable: int, ddrMode: int, fckDivider: nat): (w: Word)
    requires fckDivider < 0x1_0000
    ensures w & DIV_FIELD == FckWord(0, fckDivider) & DIV_FIELD
  {
    (if sckAutoGateOff % 2 == 0 then 0x2 else 0)
    | (if sckEnable % 2 == 0 then 0x10 else 0)
    | 0x8
    | FckField(fckDivider)
    | (if ddrMode % 2 == 1 then 0x40_0000 else 0)
    | 0x80_0000
  }

  /** With the driver's settings (gating on, clock enabled, no DDR, divider
      30) the word is 0x800E0A: divider field 14. */
  lemma HostInitDefault()
    ensures HostInitClockWord(0, 1, 0, 30) == 0x0080_0E0A
  {
  }

  /** From 50 MHz, a 25 MHz request selects divisor 2, which encodes as a
      zero divider field. */
  lemma ClockExampleHalf(clk: Word)
    ensures SetClockWord(clk, 50_000_000, 25_000_000, true, UBootLimits) == Some(clk & !DIV_FIELD)
  {
    ExampleDivisor();
    assert ClockField(1) == 0;
  }

  lemma ExampleDivisor()
    ensures Divisor(50_000_000, 25_000_000, true, UBootLimits) == 2
  {
    assert 50_000_000 / 2 == 25_000_000;
  }

  /** From 50 MHz, a 50 MHz request selects the undivided clock. */
  lemma ClockExampleBypass(clk: Word)
    ensures SetClockWord(clk, 50_000_000, 50_000_000, true, UBootLimits) == Some((clk & !DIV_FIELD) | DIV_BYPASS)
  {
    assert Divisor(50_000_000, 50_000_000, true, UBootLimits) == 1;
  }

  /** The selected divisor is the smallest admissible one: on version 3.00
      with `f_max > clock` no smaller even divisor keeps the output at or
      below `clock`, and the one chosen does unless the search ran out. */
  lemma DivisorIsSmallest(fMax: nat, clock: nat, v300: bool, lim: DivLimits)
    ensures var div := Divisor(fMax, clock, v300, lim);
      && (v300 && fMax <= clock ==> div == 1)
      && (v300 && fMax > clock ==>
            && div % 2 == 0 && div >= 2
            && (forall e :: 2 <= e < div && e % 2 == 0 ==> fMax / e > clock)
            && (div < lim.spec300 ==> fMax / div <= clock))
      && (!v300 ==>
            && IsPow2(div)
            && (forall e :: 1 <= e < div && IsPow2(e) ==> fMax / e > clock)
            && (div < lim.spec200 ==> fMax / div <= clock))
  {
    if v300 {
      if fMax > clock { EvenFromSpec(fMax, clock, lim.spec300, 2); }
    } else {
      Pow2FromSpec(fMax, clock, lim.spec200, 1);
    }
  }
}
