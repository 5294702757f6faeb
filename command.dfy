/**
  Commands, data descriptors and the command word the driver writes to the
  COMMAND register (offset 0x18) of the W3K controller.
*/
module Command {
  import opened Wrappers
  import opened Mmio

  /** Direction of a data phase (`MMC_DATA_READ` / `MMC_DATA_WRITE`). */
  datatype Direction = DataRead | DataWrite

  /** `struct mmc_data`; `addr` is `dest` for a read and `src` for a write. */
  datatype Data = Data(dir: Direction, blocks: U32, blocksize: U32, addr: nat)

  /** `struct mmc_cmd` without its response words. */
  datatype Cmd = Cmd(idx: U32, respType: Word, arg: U32)

  /** The `MMC_RSP_*` response-type codes the translation switch compares
      against, and the two flag bits it tests. */
  datatype RspCodes = RspCodes(
    none: Word, r1: Word, presentOpcode: Word, r1b: Word, r2: Word, r3: Word,
    long136: Word, crc: Word)
  {
    /** The case labels of a C switch are pairwise distinct. */
    predicate Distinct() {
      var labels := [none, r1, presentOpcode, r1b, r2, r3];
      forall i, j :: 0 <= i < j < |labels| ==> labels[i] != labels[j]
    }
  }

  /** The values U-Boot's mmc.h gives the response codes (mmc.h is not part
      of this model); used for examples. */
  const UBootRsp := RspCodes(0x00, 0x15, 0x11, 0x1D, 0x07, 0x01, 0x02, 0x04)

  // Controller response-type field values.
  const SD_RESP_NO: Word := 0
  const SD_RESP_R1: Word := 1
  const SD_RESP_R2: Word := 2
  const SD_RESP_R3: Word := 3
  const SD_RESP_R1B: Word := 7

  /** The response-type translation switch: the first case that matches. */
  function RespFlags(t: Word, c: RspCodes): (f: Word)
    ensures f == SD_RESP_NO || f == SD_RESP_R1 || f == SD_RESP_R2 || f == SD_RESP_R3 || f == SD_RESP_R1B
    ensures t == c.none ==> f == SD_RESP_NO
    ensures f == SD_RESP_R1B ==> t == c.r1b
    ensures f == SD_RESP_R2 ==> t == c.r2
    ensures f == SD_RESP_R3 ==> t == c.r3
    ensures f == SD_RESP_R1 ==> t == c.r1 || t == c.presentOpcode
    ensures t !in {c.none, c.r1, c.presentOpcode, c.r1b, c.r2, c.r3} ==> f == SD_RESP_NO
  {
    if t == c.none then SD_RESP_NO
    else if t == c.r1 || t == c.presentOpcode then SD_RESP_R1
    else if t == c.r1b then SD_RESP_R1B
    else if t == c.r2 then SD_RESP_R2
    else if t == c.r3 then SD_RESP_R3
    else SD_RESP_NO
  }

  /** With distinct labels every code maps to its own controller value. */
  lemma RespFlagsTable(c: RspCodes)
    requires c.Distinct()
    ensures RespFlags(c.none, c) == SD_RESP_NO
    ensures RespFlags(c.r1, c) == SD_RESP_R1 && RespFlags(c.presentOpcode, c) == SD_RESP_R1
    ensures RespFlags(c.r1b, c) == SD_RESP_R1B
    ensures RespFlags(c.r2, c) == SD_RESP_R2
    ensures RespFlags(c.r3, c) == SD_RESP_R3
  {
    var labels := [c.none, c.r1, c.presentOpcode, c.r1b, c.r2, c.r3];
    assert labels[0] != labels[1] && labels[0] != labels[2] && labels[0] != labels[3];
    assert labels[0] != labels[4] && labels[0] != labels[5];
    assert labels[1] != labels[3] && labels[2] != labels[3] && labels[1] != labels[4];
    assert labels[2] != labels[4] && labels[3] != labels[4] && labels[1] != labels[5];
    assert labels[2] != labels[5] && labels[3] != labels[5] && labels[4] != labels[5];
  }

  /** `W3K_SDHCI_MAKE_CMD(c, f)`. */
  function MakeCmd(c: Word, f: Word): Word {
    (c & 0x3F) | ((f & 0x7) << 7)
  }

  /** The transfer-mode bits OR'd in when a data phase is attached. */
  function DataBits(data: Option<Data>): Word {
    match data
    case None => 0
    case Some(d) =>
      ((d.blocksize as Word & 0xFFF) << 16)
      | (if d.blocks == 1 then 0x800 else if d.blocks > 1 then 0x1000 else 0)
      | (if d.dir == DataWrite then 0x2000 else 0)
  }

  /** The word written to the COMMAND register. */
  function CommandWord(cmd: Cmd, data: Option<Data>, c: RspCodes): Word {
    var crc: Word := if cmd.respType & c.crc != 0 then 0x4000_0000 else 0;
    MakeCmd(cmd.idx as Word, RespFlags(cmd.respType, c)) | DataBits(data) | crc
  }

  /** The command fields of the command word read back what they encode:
      the index in bits 0..5 and the response flags in bits 7..9. */
  lemma CommandWordFields(cmd: Cmd, data: Option<Data>, c: RspCodes)
    ensures var w := CommandWord(cmd, data, c);
      && w & 0x3F == (cmd.idx as Word) & 0x3F
      && (w >> 7) & 0x7 == RespFlags(cmd.respType, c)
  {
  }

  /** The CRC check lands in bit 30 exactly when the response type asks
      for it. */
  lemma CommandWordCrc(cmd: Cmd, data: Option<Data>, c: RspCodes)
    ensures cmd.respType & c.crc != 0 ==> CommandWord(cmd, data, c) & 0x4000_0000 != 0
    ensures cmd.respType & c.crc == 0 ==> CommandWord(cmd, data, c) & 0x4000_0000 == 0
  {
  }

  /** Bits 6, 10 and 31 of the command word stay clear. */
  lemma CommandWordReserved(cmd: Cmd, data: Option<Data>, c: RspCodes)
    ensures CommandWord(cmd, data, c) & 0x8000_0440 == 0
  {
  }

  /** The transfer fields of the command word: none without a data phase;
      with one, the block size in bits 16..27 and the single-block,
      multi-block and write bits 11, 12 and 13. */
  lemma CommandWordTransfer(cmd: Cmd, data: Option<Data>, c: RspCodes)
    ensures var w := CommandWord(cmd, data, c);
      && (data.None? ==> w & 0x3FFF_F800 == 0)
      && (data.Some? ==> (w >> 16) & 0xFFF == (data.value.blocksize as Word) & 0xFFF)
      && ((w & 0x800 != 0) <==> (data.Some? && data.value.blocks == 1))
      && ((w & 0x1000 != 0) <==> (data.Some? && data.value.blocks > 1))
      && ((w & 0x2000 != 0) <==> (data.Some? && data.value.dir == DataWrite))
  {
  }
}
