/**
  The chunking dispatcher `w3k_sdhci_send_command`: a multi-block transfer
  of more than two 32 KiB chunks' worth of blocks is cut into chunks of
  32768 / blocksize blocks, the last chunk taking the rest; between chunks
  the card is stopped (CMD12), asked for its status on writes (CMD13) and
  given the block length again (CMD16).

  The primitive `__w3k_sdhci_send_command` is a parameter `prim`: the
  outcome of a call may depend on every call made so far, so `prim` maps
  the whole history of calls to the outcome of the last one.
*/
module Dispatch {
  import opened Wrappers
  import opened Mmio
  import opened Command

  /** `W3K_ONCE_TRAN_BYTES_LEN`: the buffer advance between chunks. */
  const ONCE_TRAN_BYTES: nat := 32768

  /** One call of the primitive. */
  datatype Call = Call(cmd: Cmd, data: Option<Data>)

  /** What a call of the primitive gives back: its result and the words it
      stored into the command's response array, by index. */
  datatype Outcome = Outcome(ret: int, written: map<nat, Word>)

  /** A response array after a call stored `written` into it. */
  function Apply(resp: seq<Word>, written: map<nat, Word>): seq<Word> {
    seq(|resp|, i requires 0 <= i < |resp| => if i in written then written[i] else resp[i])
  }

  /** The commands the dispatcher issues of its own. */
  const StopCmd := Cmd(12, 0x1d, 0)
  const StatusCmd := Cmd(13, 0x15, 0x10000)
  function SetBlocklenCmd(bs: U32): Cmd { Cmd(16, 0x15, bs) }
  function ChunkCmd(dir: Direction, arg: U32): Cmd {
    Cmd(if dir == DataRead then 18 else 25, 0x15, arg)
  }

  /** The calls between two chunks. */
  function Between(d: Data): seq<Call> {
    [Call(StopCmd, None)]
    + (if d.dir == DataWrite then [Call(StatusCmd, None)] else [])
    + [Call(SetBlocklenCmd(d.blocksize), None)]
  }

  /** Blocks per chunk, `tran_blocks`. */
  function TranBlocks(d: Data): nat
    requires 0 < d.blocksize
  {
    ONCE_TRAN_BYTES / d.blocksize
  }

  /** A request the dispatcher cuts into chunks. */
  predicate Splits(data: Option<Data>) {
    data.Some? && 0 < data.value.blocksize <= ONCE_TRAN_BYTES
    && data.value.blocks > 2 * TranBlocks(data.value)
  }

  /** Number of the last chunk (chunks are numbered from 0). */
  function LastChunk(d: Data): nat
    requires 0 < d.blocksize <= ONCE_TRAN_BYTES && d.blocks > 2 * TranBlocks(d)
  {
    (d.blocks - TranBlocks(d) - 1) / TranBlocks(d)
  }

  /** Blocks in chunk `k`: a full chunk, or the rest for the last one. */
  function ChunkBlocks(d: Data, k: nat): U32
    requires 0 < d.blocksize <= ONCE_TRAN_BYTES && d.blocks > 2 * TranBlocks(d)
    requires k <= LastChunk(d)
  {
    var t := TranBlocks(d);
    if k < LastChunk(d) then (assert k * t <= LastChunk(d) * t; t) else d.blocks - LastChunk(d) * t
  }

  /** The call that transfers chunk `k`. */
  function ChunkCall(cmd: Cmd, d: Data, k: nat): Call
    requires 0 < d.blocksize <= ONCE_TRAN_BYTES && d.blocks > 2 * TranBlocks(d)
    requires k <= LastChunk(d)
  {
    Call(ChunkCmd(d.dir, (cmd.arg + k * TranBlocks(d)) % TWO_32),
         Some(d.(blocks := ChunkBlocks(d, k), addr := d.addr + k * ONCE_TRAN_BYTES)))
  }

  /** The calls from chunk `k` on, when every call succeeds. */
  function PlanFrom(cmd: Cmd, d: Data, k: nat): seq<Call>
    requires 0 < d.blocksize <= ONCE_TRAN_BYTES && d.blocks > 2 * TranBlocks(d)
    requires k <= LastChunk(d)
    decreases LastChunk(d) - k
  {
    if k == LastChunk(d) then [ChunkCall(cmd, d, k)]
    else [ChunkCall(cmd, d, k)] + Between(d) + PlanFrom(cmd, d, k + 1)
  }

  /** Every call the dispatcher makes when every call succeeds. */
  function Plan(cmd: Cmd, data: Option<Data>): seq<Call> {
    if Splits(data) then PlanFrom(cmd, data.value, 0) else [Call(cmd, data)]
  }

  /** The response array of the dispatcher's own multi-block command after
      `calls`: it starts zeroed and each chunk call stores into it. */
  function ChunkResponse(prim: seq<Call> -> Outcome, calls: seq<Call>): seq<Word>
    decreases |calls|
  {
    if calls == [] then [0, 0, 0, 0]
    else
      var r := ChunkResponse(prim, calls[..|calls| - 1]);
      if calls[|calls| - 1].data.Some? then Apply(r, prim(calls).written) else r
  }

  // Arithmetic of the chunk count

  /** With split data, chunks hold at least one block, the last chunk
      follows at least one full chunk, and it lies in (t, 2t]. */
  lemma LastChunkBounds(d: Data)
    requires 0 < d.blocksize <= ONCE_TRAN_BYTES && d.blocks > 2 * TranBlocks(d)
    ensures TranBlocks(d) >= 1 && LastChunk(d) >= 1
    ensures TranBlocks(d) < d.blocks - LastChunk(d) * TranBlocks(d) <= 2 * TranBlocks(d)
  {
    var t, m := TranBlocks(d), LastChunk(d);
    assert t >= 1;
    var q := d.blocks - t - 1;
    assert m * t <= q < m * t + t;
  }

  /** The count of blocks left after chunk `k` decides the next chunk as the
      dispatcher's test does: more than 2t left means another full chunk. */
  lemma NextChunkBlocks(d: Data, k: nat)
    requires 0 < d.blocksize <= ONCE_TRAN_BYTES && d.blocks > 2 * TranBlocks(d)
    requires k < LastChunk(d)
    ensures k + 1 < LastChunk(d) ==> d.blocks - (k + 1) * TranBlocks(d) > 2 * TranBlocks(d)
    ensures k + 1 == LastChunk(d) ==>
      TranBlocks(d) < d.blocks - (k + 1) * TranBlocks(d) <= 2 * TranBlocks(d)
  {
    var t, m := TranBlocks(d), LastChunk(d);
    LastChunkBounds(d);
    if k + 1 < m {
      assert (k + 1) * t + t <= m * t by { MulMono(k + 2, m, t); }
    }
  }

  lemma MulMono(a: nat, b: nat, t: nat)
    requires a <= b
    ensures a * t <= b * t
  {
  }

  lemma ModAdd(a: nat, b: nat)
    ensures ((a % TWO_32) + b) % TWO_32 == (a + b) % TWO_32
  {
    var q := a / TWO_32;
    assert a == q * TWO_32 + a % TWO_32;
    assert a + b == (a % TWO_32 + b) + q * TWO_32;
    ModShift(a % TWO_32 + b, q);
  }

  lemma {:induction false} ModShift(x: nat, q: nat)
    ensures (x + q * TWO_32) % TWO_32 == x % TWO_32
    decreases q
  {
    if q > 0 {
      ModShift(x, q - 1);
      assert x + q * TWO_32 == (x + (q - 1) * TWO_32) + TWO_32;
    }
  }

  /** The shape of the plan from chunk `k`: the chunk, then (for all but
      the last chunk) the calls between chunks, then the plan from `k + 1`. */
  lemma PlanFromUnfold(cmd: Cmd, d: Data, k: nat)
    requires 0 < d.blocksize <= ONCE_TRAN_BYTES && d.blocks > 2 * TranBlocks(d)
    requires k <= LastChunk(d)
    ensures PlanFrom(cmd, d, k)[0] == ChunkCall(cmd, d, k)
    ensures k == LastChunk(d) ==> |PlanFrom(cmd, d, k)| == 1
    ensures k < LastChunk(d) ==>
      && PlanFrom(cmd, d, k)[1..1 + |Between(d)|] == Between(d)
      && PlanFrom(cmd, d, k)[1 + |Between(d)|..] == PlanFrom(cmd, d, k + 1)
  {
    if k < LastChunk(d) {
      var p := PlanFrom(cmd, d, k);
      assert p == [ChunkCall(cmd, d, k)] + Between(d) + PlanFrom(cmd, d, k + 1);
    }
  }

  /**
    `w3k_sdhci_send_command` as written.  `calls` is every call made, in
    order; `response` is the caller's `cmd->response` afterwards.
  */
  method SendCommand(prim: seq<Call> -> Outcome, cmd: Cmd, data: Option<Data>, resp: seq<Word>)
    returns (ret: int, response: seq<Word>, calls: seq<Call>)
    requires |resp| == 4
    requires data.Some? ==> 0 < data.value.blocksize <= ONCE_TRAN_BYTES
    requires data.Some? ==> data.value.blocks * data.value.blocksize < TWO_32
    ensures 0 < |calls| <= |Plan(cmd, data)| && calls == Plan(cmd, data)[..|calls|]
    ensures !Splits(data) ==> calls == [Call(cmd, data)]
    ensures ret == prim(calls).ret
    ensures Succeeded(prim, Plan(cmd, data), |calls| - 1)
    ensures ret < 0 || calls == Plan(cmd, data)
    ensures response == if !Splits(data) then Apply(resp, prim(calls).written)
                        else if ret >= 0 then ChunkResponse(prim, calls)
                        else resp
  {
    var size: nat := 0;
    var countBlocks: int := 0;
    var tranBlocks: nat := 0;
    if data.Some? {
      size := data.value.blocksize * data.value.blocks;
      countBlocks := data.value.blocks;
      tranBlocks := ONCE_TRAN_BYTES / data.value.blocksize;
    }
    if data.Some? && countBlocks >= tranBlocks && !(countBlocks <= tranBlocks * 2) {
      ret, response, calls := SendChunks(prim, cmd, data.value, resp);
    } else {
      calls := [Call(cmd, data)];
      var out := prim(calls);
      ret := out.ret;
      response := Apply(resp, out.written);
    }
  }

  /** The dispatcher's locals while it walks the chunks: `count_blocks`,
      `size`, the chunk command `ptr_cmd` and the chunk descriptor `ptr_data`. */
  datatype Cursor = Cursor(countBlocks: int, size: nat, ptrCmd: Cmd, ptrData: Data)

  /** The cursor at the start of chunk `k`. */
  predicate At(cmd: Cmd, d: Data, k: nat, c: Cursor)
    requires 0 < d.blocksize <= ONCE_TRAN_BYTES && d.blocks > 2 * TranBlocks(d)
  {
    && k <= LastChunk(d)
    && c.countBlocks == d.blocks - k * TranBlocks(d)
    && c.size == c.countBlocks * d.blocksize
    && Call(c.ptrCmd, Some(c.ptrData)) == ChunkCall(cmd, d, k)
  }

  /** The cursor after chunk `k` was transferred and counted, when it was not the last. */
  predicate Counted(cmd: Cmd, d: Data, k: nat, c: Cursor)
    requires 0 < d.blocksize <= ONCE_TRAN_BYTES && d.blocks > 2 * TranBlocks(d)
  {
    && k < LastChunk(d)
    && c.countBlocks == d.blocks - (k + 1) * TranBlocks(d)
    && c.size == c.countBlocks * d.blocksize
    && Call(c.ptrCmd, Some(c.ptrData)) == ChunkCall(cmd, d, k)
  }

  /** `count_blocks -= tran_blocks; size -= ptr_data->blocks * blocksize`;
      `last` when `size` reached 0. */
  method CountChunk(cmd: Cmd, d: Data, ghost k: nat, c: Cursor) returns (c': Cursor, last: bool)
    requires 0 < d.blocksize <= ONCE_TRAN_BYTES && d.blocks > 2 * TranBlocks(d)
    requires At(cmd, d, k, c)
    ensures last <==> k == LastChunk(d)
    ensures !last ==> Counted(cmd, d, k, c')
  {
    var t := ONCE_TRAN_BYTES / d.blocksize;
    ChunkRest(d, k);
    ghost var left := c.countBlocks;
    ghost var chunk := c.ptrData.blocks;
    assert chunk == ChunkBlocks(d, k) && 0 < chunk <= left;
    SizeStep(left, chunk, d.blocksize);
    c' := c.(countBlocks := (c.countBlocks - t) % TWO_32,
             size := c.size - c.ptrData.blocks * d.blocksize);
    last := c'.size == 0;
    if k < LastChunk(d) {
      assert t == TranBlocks(d) && left - t == d.blocks - (k + 1) * t;
      SmallMod(left - t);
    }
  }

  lemma SizeStep(left: nat, chunk: nat, bs: nat)
    requires chunk <= left && bs > 0
    ensures left * bs - chunk * bs == (left - chunk) * bs
    ensures (left - chunk) * bs == 0 <==> left == chunk
  {
    if left > chunk {
      PositiveProduct(left - chunk, bs);
    }
  }

  lemma SmallMod(x: int)
    requires 0 <= x < TWO_32
    ensures x % TWO_32 == x
  {
  }

  /** The updates before the next chunk: its block count, card address and
      buffer address. */
  method NextChunk(cmd: Cmd, d: Data, ghost k: nat, c: Cursor) returns (c': Cursor)
    requires 0 < d.blocksize <= ONCE_TRAN_BYTES && d.blocks > 2 * TranBlocks(d)
    requires Counted(cmd, d, k, c)
    ensures At(cmd, d, k + 1, c')
  {
    var t := ONCE_TRAN_BYTES / d.blocksize;
    c' := c;
    NextChunkBlocks(d, k);
    ChunkRest(d, k);
    if c.countBlocks >= t && c.countBlocks <= t * 2 {
      c' := c'.(ptrData := c'.ptrData.(blocks := c.countBlocks));
    }
    ModAdd(cmd.arg + k * t, t);
    c' := c'.(ptrCmd := c'.ptrCmd.(arg := (c'.ptrCmd.arg + t) % TWO_32));
    c' := c'.(ptrData := c'.ptrData.(addr := c'.ptrData.addr + ONCE_TRAN_BYTES));
  }

  /** Every one of the first `n` calls of `plan` returned a non-negative result. */
  predicate Succeeded(prim: seq<Call> -> Outcome, plan: seq<Call>, n: nat) {
    forall j :: 0 < j <= n && j <= |plan| ==> prim(plan[..j]).ret >= 0
  }

  /** One call of the primitive, the next one of `plan`. */
  method Issue(prim: seq<Call> -> Outcome, ghost plan: seq<Call>, calls: seq<Call>, ghost pos: nat, c: Call)
    returns (calls': seq<Call>, ret: int)
    requires pos < |plan| && calls == plan[..pos] && plan[pos] == c
    requires Succeeded(prim, plan, pos)
    ensures calls' == plan[..pos + 1] && ret == prim(calls').ret
    ensures ret >= 0 ==> Succeeded(prim, plan, pos + 1)
    ensures c.data.None? ==> ChunkResponse(prim, calls') == ChunkResponse(prim, calls)
    ensures c.data.Some? ==>
      ChunkResponse(prim, calls') == Apply(ChunkResponse(prim, calls), prim(calls').written)
  {
    calls' := calls + [c];
    ChunkResponseAppend(prim, calls, c);
    PrefixStep(plan, pos);
    ret := prim(calls').ret;
  }

  /** Where chunk `k` and the calls after it sit in the plan. */
  lemma PlanPositions(cmd: Cmd, d: Data, plan: seq<Call>, pos: nat, k: nat)
    requires 0 < d.blocksize <= ONCE_TRAN_BYTES && d.blocks > 2 * TranBlocks(d)
    requires k <= LastChunk(d) && pos <= |plan| && plan[pos..] == PlanFrom(cmd, d, k)
    ensures pos < |plan| && plan[pos] == ChunkCall(cmd, d, k)
    ensures k == LastChunk(d) ==> pos + 1 == |plan|
    ensures k < LastChunk(d) ==>
      && pos + 1 + |Between(d)| < |plan|
      && plan[pos + 1] == Call(StopCmd, None)
      && (d.dir == DataWrite ==> plan[pos + 2] == Call(StatusCmd, None))
      && plan[pos + |Between(d)|] == Call(SetBlocklenCmd(d.blocksize), None)
      && plan[pos + 1 + |Between(d)|..] == PlanFrom(cmd, d, k + 1)
  {
    PlanFromUnfold(cmd, d, k);
    var rest := PlanFrom(cmd, d, k);
    assert plan[pos] == rest[0];
    if k < LastChunk(d) {
      var b := Between(d);
      assert rest[1..1 + |b|] == b;
      assert plan[pos + 1] == rest[1] == b[0];
      if d.dir == DataWrite {
        assert plan[pos + 2] == rest[2] == b[1];
      }
      assert plan[pos + |b|] == rest[|b|] == b[|b| - 1];
      assert plan[pos + 1 + |b|..] == rest[1 + |b|..];
    }
  }

  /** CMD12, and CMD13 after a write, between two chunks. */
  method StopChunk(prim: seq<Call> -> Outcome, ghost plan: seq<Call>, calls: seq<Call>, ghost pos: nat,
                   cmd: Cmd, d: Data, ghost k: nat)
    returns (calls': seq<Call>, ret: int)
    requires 0 < d.blocksize <= ONCE_TRAN_BYTES && d.blocks > 2 * TranBlocks(d)
    requires k < LastChunk(d) && pos <= |plan| && plan[pos..] == PlanFrom(cmd, d, k)
    requires calls == plan[..pos + 1] && Succeeded(prim, plan, pos + 1)
    ensures pos + 1 < |calls'| <= pos + |Between(d)| && calls' == plan[..|calls'|]
    ensures ret == prim(calls').ret
    ensures ChunkResponse(prim, calls') == ChunkResponse(prim, calls)
    ensures ret >= 0 ==> |calls'| == pos + |Between(d)| && Succeeded(prim, plan, |calls'|)
    ensures ret < 0 ==> Succeeded(prim, plan, |calls'| - 1)
  {
    PlanPositions(cmd, d, plan, pos, k);
    calls', ret := Issue(prim, plan, calls, pos + 1, Call(StopCmd, None));
    if ret >= 0 && d.dir == DataWrite {
      var calls2;
      calls2, ret := Issue(prim, plan, calls', pos + 2, Call(StatusCmd, None));
      calls' := calls2;
    }
  }

  /** One pass of the chunk loop, from the transfer of chunk `k` to the
      CMD16 before the next chunk; `stop` when the loop breaks. */
  method ChunkRound(prim: seq<Call> -> Outcome, ghost plan: seq<Call>, calls: seq<Call>, ghost pos: nat,
                    cmd: Cmd, d: Data, ghost k: nat, cur: Cursor, ptrResp: seq<Word>)
    returns (calls': seq<Call>, ret: int, cur': Cursor, ptrResp': seq<Word>, stop: bool)
    requires 0 < d.blocksize <= ONCE_TRAN_BYTES && d.blocks > 2 * TranBlocks(d)
    requires At(cmd, d, k, cur)
    requires pos <= |plan| && calls == plan[..pos] && plan[pos..] == PlanFrom(cmd, d, k)
    requires Succeeded(prim, plan, pos) && ptrResp == ChunkResponse(prim, calls)
    ensures pos < |calls'| <= |plan| && calls' == plan[..|calls'|]
    ensures ret == prim(calls').ret && Succeeded(prim, plan, |calls'| - 1)
    ensures ptrResp' == ChunkResponse(prim, calls')
    ensures stop ==> ret < 0 || calls' == plan
    ensures !stop ==> && ret >= 0 && k < LastChunk(d) && Succeeded(prim, plan, |calls'|)
                      && plan[|calls'|..] == PlanFrom(cmd, d, k + 1) && At(cmd, d, k + 1, cur')
  {
    PlanPositions(cmd, d, plan, pos, k);
    cur' := cur;
    stop := true;
    calls', ret := Issue(prim, plan, calls, pos, Call(cur.ptrCmd, Some(cur.ptrData)));
    ptrResp' := Apply(ptrResp, prim(calls').written);
    if ret < 0 {
      return;
    }
    var last;
    cur', last := CountChunk(cmd, d, k, cur);
    if last {
      return;
    }
    calls', ret := StopChunk(prim, plan, calls', pos, cmd, d, k);
    if ret < 0 {
      return;
    }
    cur' := NextChunk(cmd, d, k, cur');
    calls', ret := Issue(prim, plan, calls', pos + |Between(d)|, Call(SetBlocklenCmd(d.blocksize), None));
    if ret < 0 {
      return;
    }
    stop := false;
  }

  /** The chunk loop of `w3k_sdhci_send_command`. */
  method SendChunks(prim: seq<Call> -> Outcome, cmd: Cmd, d: Data, resp: seq<Word>)
    returns (ret: int, response: seq<Word>, calls: seq<Call>)
    requires 0 < d.blocksize <= ONCE_TRAN_BYTES && d.blocks > 2 * TranBlocks(d)
    requires d.blocks * d.blocksize < TWO_32
    ensures var plan := PlanFrom(cmd, d, 0);
      && 0 < |calls| <= |plan| && calls == plan[..|calls|]
      && ret == prim(calls).ret
      && Succeeded(prim, plan, |calls| - 1)
      && (ret < 0 || calls == plan)
      && response == if ret >= 0 then ChunkResponse(prim, calls) else resp
  {
    var t := ONCE_TRAN_BYTES / d.blocksize;
    ghost var plan := PlanFrom(cmd, d, 0);
    var cur := Cursor(d.blocks, d.blocksize * d.blocks, ChunkCmd(d.dir, cmd.arg), d.(blocks := t));
    var ptrResp: seq<Word> := [0, 0, 0, 0];
    ghost var k: nat := 0;
    calls := [];
    LastChunkBounds(d);
    assert cmd.arg % TWO_32 == cmd.arg;
    while true
      invariant At(cmd, d, k, cur)
      invariant |calls| <= |plan| && calls == plan[..|calls|] && plan[|calls|..] == PlanFrom(cmd, d, k)
      invariant Succeeded(prim, plan, |calls|)
      invariant ptrResp == ChunkResponse(prim, calls)
      decreases LastChunk(d) - k
    {
      var stop;
      calls, ret, cur, ptrResp, stop := ChunkRound(prim, plan, calls, |calls|, cmd, d, k, cur, ptrResp);
      if stop {
        response := if ret >= 0 then ptrResp else resp;
        return;
      }
      k := k + 1;
    }
  }

  /** Blocks left before and after chunk `k`, and the bytes left after it. */
  lemma ChunkRest(d: Data, k: nat)
    requires 0 < d.blocksize <= ONCE_TRAN_BYTES && d.blocks > 2 * TranBlocks(d)
    requires k <= LastChunk(d)
    ensures var t, c := TranBlocks(d), ChunkBlocks(d, k);
      && c <= d.blocks - k * t
      && (k < LastChunk(d) ==> c == t && d.blocks - (k + 1) * t > t)
      && (k == LastChunk(d) ==> c == d.blocks - k * t)
      && (k + 1) * t == k * t + t
  {
    var t, m := TranBlocks(d), LastChunk(d);
    LastChunkBounds(d);
    if k < m {
      MulMono(k + 1, m, t);
    }
  }

  lemma PositiveProduct(a: nat, b: nat)
    requires a > 0 && b > 0
    ensures a * b > 0
  {
  }

  lemma PrefixStep<T>(s: seq<T>, n: nat)
    requires n < |s|
    ensures s[..n] + [s[n]] == s[..n + 1]
  {
  }

  lemma ChunkResponseAppend(prim: seq<Call> -> Outcome, calls: seq<Call>, c: Call)
    ensures ChunkResponse(prim, calls + [c]) ==
      if c.data.Some? then Apply(ChunkResponse(prim, calls), prim(calls + [c]).written)
      else ChunkResponse(prim, calls)
  {
    assert (calls + [c])[..|calls|] == calls;
  }

  // Properties of the plan

  /** Every chunk but the last holds `tran_blocks` blocks; the last holds
      more than `tran_blocks` and at most twice as many. */
  lemma ChunkSizes(d: Data, k: nat)
    requires 0 < d.blocksize <= ONCE_TRAN_BYTES && d.blocks > 2 * TranBlocks(d)
    requires k <= LastChunk(d)
    ensures k < LastChunk(d) ==> ChunkBlocks(d, k) == TranBlocks(d)
    ensures k == LastChunk(d) ==> TranBlocks(d) < ChunkBlocks(d, k) <= 2 * TranBlocks(d)
  {
    LastChunkBounds(d);
  }

  /** Blocks moved by the data-carrying calls of `calls`. */
  function DataBlocks(calls: seq<Call>): nat {
    if calls == [] then 0
    else (if calls[0].data.Some? then calls[0].data.value.blocks else 0) + DataBlocks(calls[1..])
  }

  /** Bytes moved by the data-carrying calls of `calls`. */
  function DataBytes(calls: seq<Call>): nat {
    if calls == [] then 0
    else
      var here := if calls[0].data.Some? then calls[0].data.value.blocks * calls[0].data.value.blocksize else 0;
      here + DataBytes(calls[1..])
  }

  lemma {:induction false} DataBlocksAppend(a: seq<Call>, b: seq<Call>)
    ensures DataBlocks(a + b) == DataBlocks(a) + DataBlocks(b)
    ensures DataBytes(a + b) == DataBytes(a) + DataBytes(b)
    decreases |a|
  {
    if a != [] {
      DataBlocksAppend(a[1..], b);
      assert (a + b)[1..] == a[1..] + b;
    } else {
      assert a + b == b;
    }
  }

  lemma BetweenCarriesNoData(d: Data)
    ensures DataBlocks(Between(d)) == 0 && DataBytes(Between(d)) == 0
  {
    var stop, status, blocklen := Call(StopCmd, None), Call(StatusCmd, None), Call(SetBlocklenCmd(d.blocksize), None);
    var rest := [blocklen];
    assert DataBlocks(rest) == 0 && DataBytes(rest) == 0 by { assert rest[1..] == []; }
    if d.dir == DataWrite {
      assert Between(d) == [stop, status, blocklen];
      assert [stop, status, blocklen][1..] == [status, blocklen];
      assert [status, blocklen][1..] == rest;
    } else {
      assert Between(d) == [stop, blocklen];
      assert [stop, blocklen][1..] == rest;
    }
  }

  /** The chunks from `k` on move the blocks not yet moved by chunks before `k`. */
  lemma {:induction false} PlanFromBlocks(cmd: Cmd, d: Data, k: nat)
    requires 0 < d.blocksize <= ONCE_TRAN_BYTES && d.blocks > 2 * TranBlocks(d)
    requires k <= LastChunk(d)
    ensures DataBlocks(PlanFrom(cmd, d, k)) == d.blocks - k * TranBlocks(d)
    ensures DataBytes(PlanFrom(cmd, d, k)) == (d.blocks - k * TranBlocks(d)) * d.blocksize
    decreases LastChunk(d) - k
  {
    var t := TranBlocks(d);
    var c := ChunkCall(cmd, d, k);
    ChunkRest(d, k);
    assert DataBlocks([c]) == ChunkBlocks(d, k) && DataBytes([c]) == ChunkBlocks(d, k) * d.blocksize by {
      assert [c][1..] == [];
    }
    if k < LastChunk(d) {
      PlanFromBlocks(cmd, d, k + 1);
      BetweenCarriesNoData(d);
      DataBlocksAppend([c], Between(d));
      DataBlocksAppend([c] + Between(d), PlanFrom(cmd, d, k + 1));
      assert (d.blocks - k * t) * d.blocksize == t * d.blocksize + (d.blocks - (k + 1) * t) * d.blocksize
        by { DistributeSub(d.blocks - k * t, t, d.blocksize); }
    }
  }

  lemma DistributeSub(a: nat, b: nat, c: nat)
    requires b <= a
    ensures a * c == b * c + (a - b) * c
  {
  }

  /** When every call succeeds, the chunks move exactly the requested
      blocks, `blocksize * blocks` bytes in all. */
  lemma PlanMovesEverything(cmd: Cmd, data: Option<Data>)
    requires data.Some?
    ensures DataBlocks(Plan(cmd, data)) == data.value.blocks
    ensures DataBytes(Plan(cmd, data)) == data.value.blocks * data.value.blocksize
  {
    if Splits(data) {
      PlanFromBlocks(cmd, data.value, 0);
    } else {
      assert Plan(cmd, data)[1..] == [];
    }
  }

  /** No call of a split request moves more than 64 KiB. */
  lemma ChunkBytesBounded(cmd: Cmd, d: Data, k: nat)
    requires 0 < d.blocksize <= ONCE_TRAN_BYTES && d.blocks > 2 * TranBlocks(d)
    requires k <= LastChunk(d)
    ensures ChunkBlocks(d, k) * d.blocksize <= 2 * ONCE_TRAN_BYTES
  {
    var t := TranBlocks(d);
    ChunkSizes(d, k);
    MulMono(ChunkBlocks(d, k), 2 * t, d.blocksize);
    assert t * d.blocksize <= ONCE_TRAN_BYTES;
  }

  /** A call that moves at most 64 KiB (`2 * W3K_ONCE_TRAN_BYTES_LEN`). */
  predicate Fits(c: Call) {
    c.data.Some? ==> c.data.value.blocks * c.data.value.blocksize <= 2 * ONCE_TRAN_BYTES
  }

  /** Every call of the plan from chunk `k` moves at most 64 KiB. */
  lemma {:induction false} PlanFromFits(cmd: Cmd, d: Data, k: nat)
    requires 0 < d.blocksize <= ONCE_TRAN_BYTES && d.blocks > 2 * TranBlocks(d)
    requires k <= LastChunk(d)
    ensures forall i :: 0 <= i < |PlanFrom(cmd, d, k)| ==> Fits(PlanFrom(cmd, d, k)[i])
    decreases LastChunk(d) - k
  {
    ChunkBytesBounded(cmd, d, k);
    var p := PlanFrom(cmd, d, k);
    if k < LastChunk(d) {
      PlanFromFits(cmd, d, k + 1);
      var b := Between(d);
      var q := PlanFrom(cmd, d, k + 1);
      assert p == [ChunkCall(cmd, d, k)] + b + q;
      forall i | 0 <= i < |p| ensures Fits(p[i]) {
        if i == 0 {
        } else if i < 1 + |b| {
          assert p[i] == b[i - 1];
        } else {
          assert p[i] == q[i - 1 - |b|];
        }
      }
    }
  }

  /** Every call the dispatcher makes moves at most 64 KiB, split or not, so
      its length fits the controller's 20-bit SDMA length field. */
  lemma PlanFits(cmd: Cmd, data: Option<Data>)
    requires data.Some? ==> 0 < data.value.blocksize <= ONCE_TRAN_BYTES
    ensures forall i :: 0 <= i < |Plan(cmd, data)| ==> Fits(Plan(cmd, data)[i])
  {
    if Splits(data) {
      PlanFromFits(cmd, data.value, 0);
    } else if data.Some? {
      var d := data.value;
      var t := TranBlocks(d);
      MulMono(d.blocks, 2 * t, d.blocksize);
      assert t * d.blocksize <= ONCE_TRAN_BYTES;
      assert Fits(Plan(cmd, data)[0]);
    }
  }

  /** The card address of chunk `k + 1` follows the last block of chunk `k`. */
  lemma CardAddressesContiguous(cmd: Cmd, d: Data, k: nat)
    requires 0 < d.blocksize <= ONCE_TRAN_BYTES && d.blocks > 2 * TranBlocks(d)
    requires k < LastChunk(d)
    ensures ChunkCall(cmd, d, k + 1).cmd.arg == (ChunkCall(cmd, d, k).cmd.arg + ChunkBlocks(d, k)) % TWO_32
  {
    var t := TranBlocks(d);
    ChunkSizes(d, k);
    ModAdd(cmd.arg + k * t, t);
    assert (k + 1) * t == k * t + t;
  }

  /** The buffer of chunk `k + 1` starts where the bytes of chunk `k` end
      exactly when the block size divides 32768: the dispatcher advances the
      buffer by a fixed 32768 bytes but a chunk holds `tran_blocks * blocksize`. */
  lemma BufferContiguousIff(cmd: Cmd, d: Data)
    requires 0 < d.blocksize <= ONCE_TRAN_BYTES && d.blocks > 2 * TranBlocks(d)
    ensures (forall k :: 0 <= k < LastChunk(d) ==>
               ChunkCall(cmd, d, k + 1).data.value.addr
               == ChunkCall(cmd, d, k).data.value.addr + ChunkBlocks(d, k) * d.blocksize)
            <==> ONCE_TRAN_BYTES % d.blocksize == 0
  {
    var t := TranBlocks(d);
    var bs := d.blocksize;
    LastChunkBounds(d);
    assert t * bs + ONCE_TRAN_BYTES % bs == ONCE_TRAN_BYTES;
    forall k | 0 <= k < LastChunk(d)
      ensures ChunkCall(cmd, d, k + 1).data.value.addr == ChunkCall(cmd, d, k).data.value.addr + ONCE_TRAN_BYTES
      ensures ChunkBlocks(d, k) == t
    {
      assert (k + 1) * ONCE_TRAN_BYTES == k * ONCE_TRAN_BYTES + ONCE_TRAN_BYTES;
    }
    if ONCE_TRAN_BYTES % bs != 0 {
      assert ChunkCall(cmd, d, 1).data.value.addr != ChunkCall(cmd, d, 0).data.value.addr + ChunkBlocks(d, 0) * bs;
    }
  }

  /** With 3000-byte blocks a chunk holds 10 blocks, 30000 bytes, but the
      next chunk's buffer starts 32768 bytes on: 2768 bytes of the buffer
      are skipped while the card blocks stay consecutive. */
  lemma BufferGapAt3000(cmd: Cmd, a: nat)
    ensures var d := Data(DataRead, 21, 3000, a);
      && Splits(Some(d)) && TranBlocks(d) == 10
      && ChunkBlocks(d, 0) * d.blocksize == 30000
      && ChunkCall(cmd, d, 1).data.value.addr == a + 32768
      && ChunkCall(cmd, d, 1).cmd.arg == (cmd.arg + 10) % TWO_32
  {
    var d := Data(DataRead, 21, 3000, a);
    assert TranBlocks(d) == 10;
    assert LastChunk(d) == 1;
  }

  /** Length of the plan from chunk `k`. */
  lemma {:induction false} PlanFromLength(cmd: Cmd, d: Data, k: nat)
    requires 0 < d.blocksize <= ONCE_TRAN_BYTES && d.blocks > 2 * TranBlocks(d)
    requires k <= LastChunk(d)
    ensures |PlanFrom(cmd, d, k)| == (LastChunk(d) - k) * (|Between(d)| + 1) + 1
    decreases LastChunk(d) - k
  {
    if k < LastChunk(d) {
      PlanFromLength(cmd, d, k + 1);
      DistributeSub(LastChunk(d) - k, 1, |Between(d)| + 1);
    }
  }

  /** Chunk `k + n` sits at position `n * (|Between| + 1)` of the plan from
      chunk `k`, and the calls right before it (after chunk `k + n - 1`) are
      exactly the between-chunk calls. */
  lemma {:induction false} PlanFromChunk(cmd: Cmd, d: Data, k: nat, n: nat)
    requires 0 < d.blocksize <= ONCE_TRAN_BYTES && d.blocks > 2 * TranBlocks(d)
    requires k + n <= LastChunk(d)
    ensures var p := PlanFrom(cmd, d, k); var i := n * (|Between(d)| + 1);
      && i < |p| && p[i] == ChunkCall(cmd, d, k + n)
      && (n > 0 ==> p[i - |Between(d)|..i] == Between(d))
    decreases n
  {
    PlanFromUnfold(cmd, d, k);
    if n > 0 {
      var w := |Between(d)|;
      var b := w + 1;
      var p := PlanFrom(cmd, d, k);
      var q := PlanFrom(cmd, d, k + 1);
      PlanFromChunk(cmd, d, k + 1, n - 1);
      var i := n * b;
      var j := (n - 1) * b;
      assert i == b + j by { DistributeSub(n, 1, b); }
      assert p[b..] == q;
      assert p[i] == q[j];
      if n > 1 {
        SliceOfSuffix(p, b, i - w, i);
      }
    }
  }

  lemma SliceOfSuffix<T>(p: seq<T>, b: nat, lo: nat, hi: nat)
    requires b <= lo <= hi <= |p|
    ensures p[lo..hi] == p[b..][lo - b..hi - b]
  {
  }

  /** The whole plan of a split request: chunk `j` at position
      `j * (|Between| + 1)`, the between-chunk calls (CMD12, CMD13 on writes,
      CMD16) before every chunk but the first, and nothing else; in
      particular CMD16 is never sent before the first chunk. */
  lemma PlanOrder(cmd: Cmd, data: Option<Data>)
    requires Splits(data)
    ensures var d := data.value; var b := |Between(d)| + 1; var p := Plan(cmd, data);
      && |p| == LastChunk(d) * b + 1
      && (forall j :: 0 <= j <= LastChunk(d) ==> p[j * b] == ChunkCall(cmd, d, j))
      && (forall j :: 0 < j <= LastChunk(d) ==> p[j * b - |Between(d)|..j * b] == Between(d))
  {
    var d := data.value;
    var b := |Between(d)| + 1;
    PlanFromLength(cmd, d, 0);
    forall j | 0 <= j <= LastChunk(d)
      ensures Plan(cmd, data)[j * b] == ChunkCall(cmd, d, j)
      ensures j > 0 ==> Plan(cmd, data)[j * b - |Between(d)|..j * b] == Between(d)
    {
      PlanFromChunk(cmd, d, 0, j);
      assert 0 + j == j;
    }
  }
}
