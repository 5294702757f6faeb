/**
  The two bounded status polls of the transfer engine: the command-status
  poll of `__w3k_sdhci_send_command` and the data-completion wait
  `sdhci_transfer_data`.

  A polled status register is a script: `intS(i)` is what the i-th read of
  INT_STATUS returns, `dmaS(i)` what the i-th read of DMA_STATUS returns.
*/
module Polls {
  import opened Mmio

  // ---------------------------------------------------------------------
  // Command-status poll
  // ---------------------------------------------------------------------

  /** Number of INT_STATUS reads the command poll makes at most. */
  const CMD_RETRY: nat := 10000

  const INT_CMD_DONE: Word := 0x100
  const INT_CMD_TIMEOUT: Word := 0x200
  const INT_CMD_CRC: Word := 0x400

  /** A status word that ends the command poll. */
  predicate CmdEvent(s: Word) {
    s & INT_CMD_DONE != 0 || s & INT_CMD_TIMEOUT != 0 || s & INT_CMD_CRC != 0
  }

  /** How the command poll ended: `exhausted` when the budget ran out,
      `stat` the last word read, `polls` the number of reads made. */
  datatype CmdPoll = CmdPoll(exhausted: bool, stat: Word, polls: nat)

  /** The poll, continued from its `j`-th read. */
  function PollFrom(intS: nat -> Word, start: nat, j: nat): (p: CmdPoll)
    requires j < CMD_RETRY
    ensures j < p.polls <= CMD_RETRY
    ensures p.stat == intS(start + p.polls - 1)
    ensures forall a :: start + j <= a < start + p.polls - 1 ==> !CmdEvent(intS(a))
    ensures p.exhausted <==> !CmdEvent(p.stat)
    ensures p.exhausted ==> p.polls == CMD_RETRY
    decreases CMD_RETRY - j
  {
    var s := intS(start + j);
    if CmdEvent(s) then CmdPoll(false, s, j + 1)
    else if j + 1 == CMD_RETRY then CmdPoll(true, s, CMD_RETRY)
    else PollFrom(intS, start, j + 1)
  }

  /** The whole command poll, starting at read number `start` of INT_STATUS. */
  function CommandPoll(intS: nat -> Word, start: nat): CmdPoll {
    PollFrom(intS, start, 0)
  }

  /** The budget is exhausted exactly when none of the 10000 reads shows
      command-done, command-timeout or command-CRC-error. */
  lemma CommandPollExhaustedIff(intS: nat -> Word, start: nat)
    ensures CommandPoll(intS, start).exhausted <==>
      forall a :: start <= a < start + CMD_RETRY ==> !CmdEvent(intS(a))
  {
    var p := CommandPoll(intS, start);
    if !p.exhausted {
      assert CmdEvent(intS(start + (p.polls - 1)));
    }
  }

  /** The poll loop as written: `retry` counts down from 10000 and the loop
      breaks on the first of the three status bits. */
  method PollCommand(intS: nat -> Word, start: nat) returns (stat: Word, retry: nat, polls: nat)
    ensures CmdPoll(retry == 0, stat, polls) == CommandPoll(intS, start)
    ensures retry != 0 ==> retry == CMD_RETRY - (polls - 1)
  {
    retry := CMD_RETRY;
    polls := 0;
    while true
      invariant polls < CMD_RETRY && retry == CMD_RETRY - polls
      invariant CommandPoll(intS, start) == PollFrom(intS, start, polls)
      decreases retry
    {
      stat := intS(start + polls);
      polls := polls + 1;
      if stat & INT_CMD_DONE != 0 { break; }
      if stat & INT_CMD_TIMEOUT != 0 { break; }
      if stat & INT_CMD_CRC != 0 { break; }
      retry := retry - 1;
      if retry == 0 { break; }
    }
  }

  // ---------------------------------------------------------------------
  // Data-completion wait
  // ---------------------------------------------------------------------

  /** Initial value of the wait's `timeout` counter: the wait makes at most
      DATA_TIMEOUT + 1 rounds of reads. */
  const DATA_TIMEOUT: nat := 1000000

  const INT_DAT_DONE: Word := 0x1000
  const INT_DAT_TIMEOUT: Word := 0x4000
  const INT_DAT_CRC: Word := 0x8000

  /** DMA status bits 0x2 or 0x8 report the DMA done. */
  predicate DmaDone(d: Word) { d & 0xF != 0 && (d & 0x2 != 0 || d & 0x8 != 0) }
  predicate DataDone(s: Word) { s != 0 && s & INT_DAT_DONE != 0 }
  predicate DataError(s: Word) { s != 0 && (s & INT_DAT_TIMEOUT != 0 || s & INT_DAT_CRC != 0) }

  /** The wait's `sync_flag`: SYNC_DMA (0x4) and SYNC_DATA (0x2) are the
      only bits ever set in it, so it is modelled by those two bits. */
  datatype SyncFlag = SyncFlag(dma: bool, data: bool) {
    /** `sync_flag == SYNC_BOTH` (0x6). */
    predicate Both() { dma && data }
  }

  const NoSync := SyncFlag(false, false)

  /** `sdhci_disable_dma`: request the stop, then wait for it to clear. */
  const DisableDma: seq<Access> := [Write(DMA_CTL, 0x0002_0000), AwaitClear(DMA_CTL, 0x0002_0000)]

  /** How the data wait ended: its result, the rounds of reads made, the
      final `sync_flag`, whether it stopped on a data error, and the
      acknowledgement writes it made. */
  datatype DataWait = DataWait(ret: int, rounds: nat, sync: SyncFlag, aborted: bool, log: seq<Access>)

  /** Acknowledgement of the DMA status word of one round. */
  function DmaAck(d: Word): seq<Access> {
    if d & 0xF != 0 then [Write(DMA_STATUS, d)] else []
  }

  /** `sync_flag` after a round that read `s` from INT_STATUS and `d` from DMA_STATUS. */
  function RoundSync(sync: SyncFlag, s: Word, d: Word): SyncFlag {
    SyncFlag(sync.dma || DmaDone(d), sync.data || DataDone(s))
  }

  /** The acknowledgement writes of a round that reports no data error. */
  function RoundAcks(s: Word, d: Word): seq<Access> {
    DmaAck(d) + (if s != 0 then [Write(INT_STATUS, s)] else [])
  }

  /** The wait, continued from round `i` with flags `sync`. */
  function WaitFrom(intS: nat -> Word, dmaS: nat -> Word, iStart: nat, dStart: nat, i: nat, sync: SyncFlag)
    : (w: DataWait)
    requires i <= DATA_TIMEOUT
    ensures i < w.rounds <= DATA_TIMEOUT + 1
    decreases DATA_TIMEOUT - i
  {
    var s := intS(iStart + i);
    var d := dmaS(dStart + i);
    var sync2 := RoundSync(sync, s, d);
    if DataError(s) then
      DataWait(-1, i + 1, sync2, true, DmaAck(d) + DisableDma)
    else if sync2.Both() then DataWait(0, i + 1, sync2, false, RoundAcks(s, d))
    else if i == DATA_TIMEOUT then DataWait(-1, i + 1, sync2, false, RoundAcks(s, d))
    else
      var rest := WaitFrom(intS, dmaS, iStart, dStart, i + 1, sync2);
      rest.(log := RoundAcks(s, d) + rest.log)
  }

  /** The whole data wait, from read `iStart` of INT_STATUS and read
      `dStart` of DMA_STATUS. */
  function DataWaitResult(intS: nat -> Word, dmaS: nat -> Word, iStart: nat, dStart: nat): DataWait {
    WaitFrom(intS, dmaS, iStart, dStart, 0, NoSync)
  }

  /** The body of one round of `sdhci_transfer_data`: flag updates and
      acknowledgements; `failed` when a data error was seen. */
  method Round(s: Word, d: Word, sync: SyncFlag) returns (sync': SyncFlag, failed: bool, log: seq<Access>)
    ensures sync' == RoundSync(sync, s, d)
    ensures failed == DataError(s)
    ensures log == if failed then DmaAck(d) + DisableDma else RoundAcks(s, d)
  {
    sync' := sync;
    log := [];
    failed := false;
    if d & 0xF != 0 {
      if d & 0x2 != 0 || d & 0x8 != 0 {
        sync' := sync'.(dma := true);
      }
      log := log + [Write(DMA_STATUS, d)];
    }
    if s != 0 {
      if s & INT_DAT_DONE != 0 {
        sync' := sync'.(data := true);
      }
      if s & INT_DAT_TIMEOUT != 0 || s & INT_DAT_CRC != 0 {
        log := log + DisableDma;
        failed := true;
        return;
      }
      log := log + [Write(INT_STATUS, s)];
    }
  }

  /** `sdhci_transfer_data` as written. */
  method TransferData(intS: nat -> Word, dmaS: nat -> Word, iStart: nat, dStart: nat)
    returns (ret: int, rounds: nat, sync: SyncFlag, log: seq<Access>)
    ensures var w := DataWaitResult(intS, dmaS, iStart, dStart);
      ret == w.ret && rounds == w.rounds && sync == w.sync && log == w.log
  {
    var timeout := DATA_TIMEOUT;
    sync := NoSync;
    rounds := 0;
    log := [];
    while true
      invariant rounds + timeout == DATA_TIMEOUT
      invariant var w := DataWaitResult(intS, dmaS, iStart, dStart);
        var rest := WaitFrom(intS, dmaS, iStart, dStart, rounds, sync);
        w.ret == rest.ret && w.rounds == rest.rounds && w.sync == rest.sync && w.log == log + rest.log
      decreases timeout
    {
      var s := intS(iStart + rounds);
      var d := dmaS(dStart + rounds);
      var failed, acks;
      ghost var before := log;
      sync, failed, acks := Round(s, d, sync);
      log := log + acks;
      rounds := rounds + 1;
      if failed {
        ret := -1;
        return;
      }
      if sync.Both() {
        ret := 0;
        return;
      }
      if timeout > 0 {
        timeout := timeout - 1;
        ghost var next := WaitFrom(intS, dmaS, iStart, dStart, rounds, sync);
        SeqAssoc(before, acks, next.log);
      } else {
        ret := -1;
        return;
      }
    }
  }

  // Properties of the data wait

  /** Round `j` of the wait sees a DMA-done bit. */
  predicate DmaDoneAt(dmaS: nat -> Word, dStart: nat, j: nat) { DmaDone(dmaS(dStart + j)) }
  /** Round `j` of the wait sees the data-done bit. */
  predicate DataDoneAt(intS: nat -> Word, iStart: nat, j: nat) { DataDone(intS(iStart + j)) }
  /** Round `j` of the wait sees a data-timeout or data-CRC-error bit. */
  predicate ErrorAt(intS: nat -> Word, iStart: nat, j: nat) { DataError(intS(iStart + j)) }

  /** `sync_flag` at the end of round `k`. */
  function SyncAfter(intS: nat -> Word, dmaS: nat -> Word, iStart: nat, dStart: nat, k: nat): SyncFlag
    decreases k
  {
    RoundSync(if k == 0 then NoSync else SyncAfter(intS, dmaS, iStart, dStart, k - 1),
              intS(iStart + k), dmaS(dStart + k))
  }

  /** Each flag of `sync_flag` is set once its bit has been seen in some
      round so far. */
  lemma {:induction false} SyncAfterFlags(intS: nat -> Word, dmaS: nat -> Word, iStart: nat, dStart: nat, k: nat)
    ensures SyncAfter(intS, dmaS, iStart, dStart, k).dma <==>
      exists j :: 0 <= j <= k && DmaDoneAt(dmaS, dStart, j)
    ensures SyncAfter(intS, dmaS, iStart, dStart, k).data <==>
      exists j :: 0 <= j <= k && DataDoneAt(intS, iStart, j)
    decreases k
  {
    if k > 0 {
      SyncAfterFlags(intS, dmaS, iStart, dStart, k - 1);
      if DmaDoneAt(dmaS, dStart, k) {}
      if DataDoneAt(intS, iStart, k) {}
    } else {
      assert DmaDoneAt(dmaS, dStart, 0) == DmaDone(dmaS(dStart + 0));
      assert DataDoneAt(intS, iStart, 0) == DataDone(intS(iStart + 0));
    }
  }

  /** `sync_flag` only gains bits from one round to a later one. */
  lemma SyncOnlyGains(intS: nat -> Word, dmaS: nat -> Word, iStart: nat, dStart: nat, j: nat, k: nat)
    requires j <= k
    ensures SyncAfter(intS, dmaS, iStart, dStart, j).dma ==> SyncAfter(intS, dmaS, iStart, dStart, k).dma
    ensures SyncAfter(intS, dmaS, iStart, dStart, j).data ==> SyncAfter(intS, dmaS, iStart, dStart, k).data
  {
    SyncAfterFlags(intS, dmaS, iStart, dStart, j);
    SyncAfterFlags(intS, dmaS, iStart, dStart, k);
  }

  /** A round at which the wait returns early: a data error, or both flags. */
  predicate StopsAt(intS: nat -> Word, dmaS: nat -> Word, iStart: nat, dStart: nat, k: nat) {
    ErrorAt(intS, iStart, k) || SyncAfter(intS, dmaS, iStart, dStart, k).Both()
  }

  /** The wait ends at the first round that stops it, or at the last round
      of the budget, with the flags of that round. */
  lemma {:induction false} WaitFromEnds(intS: nat -> Word, dmaS: nat -> Word, iStart: nat, dStart: nat,
                                         i: nat, sync: SyncFlag)
    requires i <= DATA_TIMEOUT
    requires sync == if i == 0 then NoSync else SyncAfter(intS, dmaS, iStart, dStart, i - 1)
    ensures var w := WaitFrom(intS, dmaS, iStart, dStart, i, sync);
      var k := w.rounds - 1;
      && (StopsAt(intS, dmaS, iStart, dStart, k) || k == DATA_TIMEOUT)
      && (forall j :: i <= j < k ==> !StopsAt(intS, dmaS, iStart, dStart, j))
      && w.sync == SyncAfter(intS, dmaS, iStart, dStart, k)
    decreases DATA_TIMEOUT - i
  {
    var s := intS(iStart + i);
    var d := dmaS(dStart + i);
    var sync2 := RoundSync(sync, s, d);
    assert sync2 == SyncAfter(intS, dmaS, iStart, dStart, i);
    assert ErrorAt(intS, iStart, i) == DataError(s);
    if !DataError(s) && !sync2.Both() && i < DATA_TIMEOUT {
      WaitFromEnds(intS, dmaS, iStart, dStart, i + 1, sync2);
    }
  }

  /** In its last round the wait fails on a data error, succeeds when both
      flags are set, and times out otherwise; it returns 0 or -1. */
  lemma {:induction false} WaitFromVerdict(intS: nat -> Word, dmaS: nat -> Word, iStart: nat, dStart: nat,
                                            i: nat, sync: SyncFlag)
    requires i <= DATA_TIMEOUT
    ensures var w := WaitFrom(intS, dmaS, iStart, dStart, i, sync);
      var k := w.rounds - 1;
      && (w.aborted <==> ErrorAt(intS, iStart, k))
      && (w.ret == 0 <==> !ErrorAt(intS, iStart, k) && w.sync.Both())
      && (w.ret == 0 || w.ret == -1)
    decreases DATA_TIMEOUT - i
  {
    var s := intS(iStart + i);
    var d := dmaS(dStart + i);
    var sync2 := RoundSync(sync, s, d);
    assert ErrorAt(intS, iStart, i) == DataError(s);
    if !DataError(s) && !sync2.Both() && i < DATA_TIMEOUT {
      WaitFromVerdict(intS, dmaS, iStart, dStart, i + 1, sync2);
    }
  }

  /** A wait that stops on a data error ends its log with `sdhci_disable_dma`,
      with no INT_STATUS acknowledgement after the DMA one. */
  lemma {:induction false} AbortedLogEnds(intS: nat -> Word, dmaS: nat -> Word, iStart: nat, dStart: nat,
                                           i: nat, sync: SyncFlag)
    requires i <= DATA_TIMEOUT
    ensures var w := WaitFrom(intS, dmaS, iStart, dStart, i, sync);
      w.aborted ==> EndsWithDisableDma(w.log)
    decreases DATA_TIMEOUT - i
  {
    var s := intS(iStart + i);
    var d := dmaS(dStart + i);
    var sync2 := RoundSync(sync, s, d);
    if !DataError(s) && !sync2.Both() && i < DATA_TIMEOUT {
      AbortedLogEnds(intS, dmaS, iStart, dStart, i + 1, sync2);
      var rest := WaitFrom(intS, dmaS, iStart, dStart, i + 1, sync2);
      EndsWithDisableDmaAfter(RoundAcks(s, d), rest.log);
    }
  }

  /** The last two accesses of `log` are `sdhci_disable_dma`. */
  predicate EndsWithDisableDma(log: seq<Access>) {
    |log| >= 2 && log[|log| - 2] == DisableDma[0] && log[|log| - 1] == DisableDma[1]
  }

  lemma EndsWithDisableDmaAfter(front: seq<Access>, log: seq<Access>)
    ensures EndsWithDisableDma(log) ==> EndsWithDisableDma(front + log)
  {
    if |log| >= 2 {
      assert (front + log)[|front + log| - 1] == log[|log| - 1];
      assert (front + log)[|front + log| - 2] == log[|log| - 2];
    }
  }

  /** A round by which both completion bits and no error have been seen stops the wait. */
  lemma CleanRoundStops(intS: nat -> Word, dmaS: nat -> Word, iStart: nat, dStart: nat, m: nat)
    ensures CompletesCleanly(intS, dmaS, iStart, dStart, m) ==>
      StopsAt(intS, dmaS, iStart, dStart, m) && !ErrorAt(intS, iStart, m)
  {
    SyncAfterFlags(intS, dmaS, iStart, dStart, m);
  }

  /** The data wait returns 0 exactly when, at some round within the
      budget, both a DMA-done bit and the data-done bit have been seen and
      no data error has been seen up to and including that round. */
  lemma DataWaitSucceedsIff(intS: nat -> Word, dmaS: nat -> Word, iStart: nat, dStart: nat)
    ensures DataWaitResult(intS, dmaS, iStart, dStart).ret == 0 <==>
      exists k :: 0 <= k <= DATA_TIMEOUT && CompletesCleanly(intS, dmaS, iStart, dStart, k)
  {
    var w := DataWaitResult(intS, dmaS, iStart, dStart);
    if w.ret == 0 {
      var k := SuccessWitness(intS, dmaS, iStart, dStart);
    } else {
      forall m | 0 <= m <= DATA_TIMEOUT ensures !CompletesCleanly(intS, dmaS, iStart, dStart, m) {
        FailureExcludes(intS, dmaS, iStart, dStart, m);
      }
    }
  }

  /** A successful wait completes cleanly at its last round. */
  lemma SuccessWitness(intS: nat -> Word, dmaS: nat -> Word, iStart: nat, dStart: nat) returns (k: nat)
    requires DataWaitResult(intS, dmaS, iStart, dStart).ret == 0
    ensures k <= DATA_TIMEOUT && CompletesCleanly(intS, dmaS, iStart, dStart, k)
  {
    var w := DataWaitResult(intS, dmaS, iStart, dStart);
    WaitFromEnds(intS, dmaS, iStart, dStart, 0, NoSync);
    WaitFromVerdict(intS, dmaS, iStart, dStart, 0, NoSync);
    k := w.rounds - 1;
    SyncAfterFlags(intS, dmaS, iStart, dStart, k);
    forall j | 0 <= j <= k ensures !ErrorAt(intS, iStart, j) {
      if j < k { assert !StopsAt(intS, dmaS, iStart, dStart, j); }
    }
  }

  /** A failed wait completes cleanly at no round of the budget. */
  lemma FailureExcludes(intS: nat -> Word, dmaS: nat -> Word, iStart: nat, dStart: nat, m: nat)
    requires DataWaitResult(intS, dmaS, iStart, dStart).ret != 0 && m <= DATA_TIMEOUT
    ensures !CompletesCleanly(intS, dmaS, iStart, dStart, m)
  {
    var w := DataWaitResult(intS, dmaS, iStart, dStart);
    WaitFromEnds(intS, dmaS, iStart, dStart, 0, NoSync);
    WaitFromVerdict(intS, dmaS, iStart, dStart, 0, NoSync);
    var k := w.rounds - 1;
    CleanRoundStops(intS, dmaS, iStart, dStart, m);
    if m < k {
      assert !StopsAt(intS, dmaS, iStart, dStart, m);
    } else if ErrorAt(intS, iStart, k) {
      assert k <= m;
    } else {
      assert !StopsAt(intS, dmaS, iStart, dStart, k);
      assert m == k;
    }
  }

  /** By round `k` both completion bits have been seen, and no data error. */
  predicate CompletesCleanly(intS: nat -> Word, dmaS: nat -> Word, iStart: nat, dStart: nat, k: nat) {
    && (exists j :: 0 <= j <= k && DmaDoneAt(dmaS, dStart, j))
    && (exists j :: 0 <= j <= k && DataDoneAt(intS, iStart, j))
    && (forall j :: 0 <= j <= k ==> !ErrorAt(intS, iStart, j))
  }

  /** A data timeout or CRC error ends the wait in the round it is seen
      (unless both flags completed earlier): the result is -1, the DMA is
      stopped, and that round does not acknowledge INT_STATUS. */
  lemma DataErrorAbortsAtOnce(intS: nat -> Word, dmaS: nat -> Word, iStart: nat, dStart: nat, k: nat)
    requires k <= DATA_TIMEOUT && ErrorAt(intS, iStart, k)
    requires forall j :: 0 <= j < k ==> !StopsAt(intS, dmaS, iStart, dStart, j)
    ensures var w := DataWaitResult(intS, dmaS, iStart, dStart);
      w.ret == -1 && w.rounds == k + 1 && w.aborted && EndsWithDisableDma(w.log)
  {
    var w := DataWaitResult(intS, dmaS, iStart, dStart);
    WaitFromEnds(intS, dmaS, iStart, dStart, 0, NoSync);
    WaitFromVerdict(intS, dmaS, iStart, dStart, 0, NoSync);
    AbortedLogEnds(intS, dmaS, iStart, dStart, 0, NoSync);
    var e := w.rounds - 1;
    if e > k {
      assert StopsAt(intS, dmaS, iStart, dStart, k);
    }
  }

  /** The DMA error bit 0x4 never decides the outcome: two DMA status
      scripts that differ only in that bit give the same result after the
      same number of rounds. */
  lemma {:induction false} DmaErrorBitIgnored(intS: nat -> Word, dmaS: nat -> Word, dmaS': nat -> Word,
                                               iStart: nat, dStart: nat, i: nat, sync: SyncFlag)
    requires i <= DATA_TIMEOUT
    requires forall a :: dmaS(a) & !0x4 == dmaS'(a) & !0x4
    ensures WaitFrom(intS, dmaS, iStart, dStart, i, sync).ret == WaitFrom(intS, dmaS', iStart, dStart, i, sync).ret
    ensures WaitFrom(intS, dmaS, iStart, dStart, i, sync).rounds == WaitFrom(intS, dmaS', iStart, dStart, i, sync).rounds
    decreases DATA_TIMEOUT - i
  {
    var d, d' := dmaS(dStart + i), dmaS'(dStart + i);
    assert d & !0x4 == d' & !0x4;
    assert DmaDone(d) == DmaDone(d') by { DmaDoneIgnoresBit2(d, d'); }
    if i < DATA_TIMEOUT {
      DmaErrorBitIgnored(intS, dmaS, dmaS', iStart, dStart, i + 1, RoundSync(sync, intS(iStart + i), d));
    }
  }

  lemma DmaDoneIgnoresBit2(d: Word, d': Word)
    requires d & !0x4 == d' & !0x4
    ensures DmaDone(d) == DmaDone(d')
  {
  }
}
