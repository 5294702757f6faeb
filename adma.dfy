/**
  The ADMA descriptor table `w3k_sdhci_prepare_adma_table` fills for a
  transfer: `ceil(total / ADMA_MAX_LEN)` contiguous descriptors, each
  covering `ADMA_MAX_LEN` bytes but the last, which covers the rest and
  carries the end-of-chain attribute.

  The driver is built for simple DMA, so this builder is never called; it
  is modelled as the code stands.
*/
module Adma {
  import opened Mmio
  import opened Command

  /** `ADMA_MAX_LEN` and the descriptor attribute bits `ADMA_DESC_ATTR_VALID`,
      `ADMA_DESC_TRANSFER_DATA` and `ADMA_DESC_ATTR_END` (sdhci.h is not
      part of this model). */
  datatype AdmaCodes = AdmaCodes(maxLen: nat, valid: bv8, transfer: bv8, end: bv8) {
    /** The span is passed as a `u16`, and the end bit is its own bit. */
    predicate Valid() {
      0 < maxLen < 0x1_0000 && end & (valid | transfer) == 0 && end != 0
    }
  }

  /** The values U-Boot's sdhci.h gives these constants; used for examples. */
  const UBootAdma := AdmaCodes(65532, 0x01, 0x20, 0x02)

  /** `struct w3k_sdhci_adma_desc`: attribute, reserved byte, 16-bit length
      and 32-bit address. */
  datatype Desc = Desc(attr: bv8, reserved: bv8, len: nat, addr: U32)

  /** `w3k_sdhci_adma_desc`: one descriptor; `len` arrives as a `u16`. */
  function AdmaDesc(c: AdmaCodes, addr: U32, len: nat, end: bool): (d: Desc)
    requires c.Valid()
    ensures d.addr == addr && d.len == len % 0x1_0000 && d.reserved == 0
  {
    var attr := c.valid | c.transfer;
    Desc(if end then attr | c.end else attr, 0, len % 0x1_0000, addr)
  }

  /** Every descriptor is valid and transfers data; exactly the one built
      with `end` ends the chain. */
  lemma AdmaDescAttr(c: AdmaCodes, addr: U32, len: nat, end: bool)
    requires c.Valid()
    ensures var d := AdmaDesc(c, addr, len, end);
      && d.attr & (c.valid | c.transfer) == c.valid | c.transfer
      && ((d.attr & c.end != 0) <==> end)
  {
  }

  /** `DIV_ROUND_UP(total, ADMA_MAX_LEN)`, the number of descriptors. */
  function DescCount(total: nat, maxLen: nat): nat
    requires maxLen > 0
  {
    (total + maxLen - 1) / maxLen
  }

  /** With at least one byte, the count is the least `n` with `n * maxLen >= total`. */
  lemma DescCountBounds(total: nat, maxLen: nat)
    requires maxLen > 0 && total > 0
    ensures var n := DescCount(total, maxLen);
      n >= 1 && (n - 1) * maxLen < total <= n * maxLen
  {
    var n := DescCount(total, maxLen);
    var r := (total + maxLen - 1) % maxLen;
    assert n * maxLen + r == total + maxLen - 1;
    assert (n - 1) * maxLen == n * maxLen - maxLen;
  }

  /** Bytes covered by descriptor `k` of a table of `n` for `total` bytes. */
  function SpanAt(c: AdmaCodes, total: nat, k: nat): nat
    requires c.Valid()
  {
    if k + 1 < DescCount(total, c.maxLen) then c.maxLen
    else total - (DescCount(total, c.maxLen) - 1) * c.maxLen
  }

  /** Descriptor `k` of the table for `total` bytes at `addr`. */
  function DescAt(c: AdmaCodes, addr: U32, total: nat, k: nat): Desc
    requires c.Valid()
  {
    AdmaDesc(c, (addr + k * c.maxLen) % TWO_32, SpanAt(c, total, k), k + 1 == DescCount(total, c.maxLen))
  }

  /** The table the builder leaves behind. */
  function Table(c: AdmaCodes, addr: U32, total: nat): seq<Desc>
    requires c.Valid()
  {
    seq(DescCount(total, c.maxLen), k requires 0 <= k => DescAt(c, addr, total, k))
  }

  /** `trans_bytes`: the transfer length in an `unsigned int`. */
  function TotalBytes(d: Data): nat {
    (d.blocks * d.blocksize) % TWO_32
  }

  /** The transfers the builder handles: at least one byte (with none,
      `--i` starts below zero), and a descriptor count that does not wrap
      in `DIV_ROUND_UP`. */
  predicate Buildable(c: AdmaCodes, d: Data) {
    c.Valid() && 0 < TotalBytes(d) && TotalBytes(d) + c.maxLen - 1 < TWO_32
  }

  /** `w3k_sdhci_prepare_adma_table`: fill `table`, allocated with
      `DIV_ROUND_UP(trans_bytes, ADMA_MAX_LEN)` entries by
      `w3k_sdhci_adma_init`, for the buffer of `d`. */
  method PrepareAdmaTable(c: AdmaCodes, table: array<Desc>, d: Data)
    requires Buildable(c, d)
    requires table.Length == DescCount(TotalBytes(d), c.maxLen)
    modifies table
    ensures table[..] == Table(c, (d.addr % TWO_32) as U32, TotalBytes(d))
  {
    var transBytes := TotalBytes(d);
    ghost var total := transBytes;
    var n := DescCount(transBytes, c.maxLen);
    var addr: U32 := (d.addr % TWO_32) as U32;
    ghost var a0 := addr;
    DescCountBounds(total, c.maxLen);
    var k := 0;
    ghost var off := 0;
    var i: int := n;
    i := i - 1;
    while i != 0
      invariant 0 <= i && k + i == n - 1
      invariant off == k * c.maxLen && off <= (n - 1) * c.maxLen
      invariant addr == (a0 + off) % TWO_32
      invariant transBytes == total - off
      invariant forall j :: 0 <= j < k ==> table[j] == DescAt(c, a0, total, j)
      decreases i
    {
      assert (k + 1) * c.maxLen == off + c.maxLen;
      assert (k + 1) * c.maxLen <= (n - 1) * c.maxLen by { MulLe(k + 1, n - 1, c.maxLen); }
      table[k] := AdmaDesc(c, addr, c.maxLen, false);
      assert table[k] == DescAt(c, a0, total, k);
      AddMod(a0 + off, c.maxLen);
      addr := (addr + c.maxLen) % TWO_32;
      transBytes := transBytes - c.maxLen;
      off := off + c.maxLen;
      k := k + 1;
      i := i - 1;
    }
    table[k] := AdmaDesc(c, addr, transBytes, true);
    assert table[..] == Table(c, a0, total);
  }

  lemma MulLe(a: nat, b: nat, m: nat)
    requires a <= b
    ensures a * m <= b * m
  {
  }

  lemma AddMod(x: nat, y: nat)
    ensures (x % TWO_32 + y) % TWO_32 == (x + y) % TWO_32
  {
  }

  // ---------------------------------------------------------------------
  // Properties of the table
  // ---------------------------------------------------------------------

  /** Sum of the lengths of a run of descriptors. */
  function SumLens(s: seq<Desc>): nat {
    if s == [] then 0 else SumLens(s[..|s| - 1]) + s[|s| - 1].len
  }

  /** Every descriptor but the last covers `ADMA_MAX_LEN` bytes; the last
      covers between one byte and `ADMA_MAX_LEN`, so no length loses bits
      to the 16-bit field; only the last carries the end attribute. */
  lemma TableShape(c: AdmaCodes, addr: U32, total: nat)
    requires c.Valid() && total > 0
    ensures var t := Table(c, addr, total);
      && |t| >= 1
      && (forall k :: 0 <= k < |t| - 1 ==> t[k].len == c.maxLen && t[k].attr & c.end == 0)
      && 0 < t[|t| - 1].len <= c.maxLen
      && t[|t| - 1].attr & c.end != 0
      && t[|t| - 1].len == total - (|t| - 1) * c.maxLen
  {
    var n := DescCount(total, c.maxLen);
    DescCountBounds(total, c.maxLen);
    var last := total - (n - 1) * c.maxLen;
    assert 0 < last <= c.maxLen;
    assert last % 0x1_0000 == last;
    forall k | 0 <= k < n {
      AdmaDescAttr(c, (addr + k * c.maxLen) % TWO_32, SpanAt(c, total, k), k + 1 == n);
    }
  }

  /** Each descriptor starts where the previous one ends (addresses wrap
      at 2^32, as `addr += ADMA_MAX_LEN` on an `unsigned int` does). */
  lemma TableContiguous(c: AdmaCodes, addr: U32, total: nat, k: nat)
    requires c.Valid() && total > 0
    requires k + 1 < DescCount(total, c.maxLen)
    ensures var t := Table(c, addr, total);
      t[k + 1].addr == (t[k].addr + t[k].len) % TWO_32
  {
    var t := Table(c, addr, total);
    TableShape(c, addr, total);
    assert (k + 1) * c.maxLen == k * c.maxLen + c.maxLen;
    AddMod(addr + k * c.maxLen, c.maxLen);
  }

  /** A run of descriptors of one length `m` covers `|s| * m` bytes. */
  lemma {:induction false} SumLensUniform(s: seq<Desc>, m: nat)
    requires forall i :: 0 <= i < |s| ==> s[i].len == m
    ensures SumLens(s) == |s| * m
    decreases |s|
  {
    if s != [] {
      SumLensUniform(s[..|s| - 1], m);
      assert |s| * m == (|s| - 1) * m + m;
    }
  }

  /** The first `k` descriptors of a table cover `k * ADMA_MAX_LEN` bytes
      when they are all full ones. */
  lemma PrefixLens(c: AdmaCodes, addr: U32, total: nat, k: nat)
    requires c.Valid() && total > 0
    requires k < DescCount(total, c.maxLen)
    ensures SumLens(Table(c, addr, total)[..k]) == k * c.maxLen
  {
    TableShape(c, addr, total);
    var t := Table(c, addr, total);
    SumLensUniform(t[..k], c.maxLen);
  }

  /** The descriptors cover exactly `total` bytes. */
  lemma TableCoversTotal(c: AdmaCodes, addr: U32, total: nat)
    requires c.Valid() && total > 0
    ensures SumLens(Table(c, addr, total)) == total
  {
    var t := Table(c, addr, total);
    var n := |t|;
    TableShape(c, addr, total);
    PrefixLens(c, addr, total, n - 1);
    assert t[..n] == t;
  }

  /** With U-Boot's 65532-byte span, 128 KiB takes three descriptors of
      65532, 65532 and 8 bytes, the last one ending the chain. */
  lemma TableExample128K(addr: U32)
    ensures var t := Table(UBootAdma, addr, 131072);
      && |t| == 3
      && t[0].len == 65532 && t[1].len == 65532 && t[2].len == 8
      && t[2].attr == 0x23 && t[0].attr == 0x21
  {
    assert DescCount(131072, 65532) == 3;
  }
}
