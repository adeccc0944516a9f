/**
 * The code-list emitter of src/gecko.c: the global line counter, label-pass
 * flag, output handle and binary flag, and the encoders that append records
 * to the output. Every encoder first advances the line counter and then
 * appends nothing while labels are being processed or when there is no output
 * handle; otherwise it appends exactly the record (or records and payload) its
 * GeckoWords function describes; those functions carry the C code's argument
 * normalisation.
 */
module GeckoEmitter {
  import opened PyStr
  import opened GeckoTypes
  import opened GeckoWords

  class Emitter {
    /** `G_CurProcLblLine`, an int16_t. */
    var curLblLine: Int16
    /** `G_IsProcLabels`. */
    var isProcLabels: bool
    /** `G_OutputHandle != NULL`. */
    var hasOutput: bool
    /** `G_IsOutputBin`. */
    var isBin: bool
    /** Everything written to the output handle so far. */
    var out: seq<bv8>

    constructor (hasOutput: bool, isBin: bool)
      ensures curLblLine == 0 && !isProcLabels && out == []
      ensures this.hasOutput == hasOutput && this.isBin == isBin
    {
      curLblLine := 0;
      isProcLabels := false;
      this.hasOutput := hasOutput;
      this.isBin := isBin;
      out := [];
    }

    /** Whether an encoder called now writes anything. */
    predicate Executes()
      reads this
    {
      !isProcLabels && hasOutput
    }

    /**
     * What every encoder does to the state: one more line, and the payload
     * appended when it executes; the flags and the handle are left alone.
     */
    twostate predicate Appended(payload: seq<bv8>)
      reads this
    {
      && curLblLine == Wrap16(old(curLblLine) + 1)
      && isProcLabels == old(isProcLabels) && hasOutput == old(hasOutput) && isBin == old(isBin)
      && (if old(!isProcLabels && hasOutput) then out == old(out) + payload else out == old(out))
    }

    /** Only the output changed, by s. */
    twostate predicate Printed(s: seq<bv8>)
      reads this
    {
      && curLblLine == old(curLblLine)
      && isProcLabels == old(isProcLabels) && hasOutput == old(hasOutput) && isBin == old(isBin)
      && out == old(out) + s
    }

    /** `__G_CheckIfExec__`: the line counter advances (wrapping as an int16_t) whether or not the encoder goes on. */
    method CheckIfExec() returns (exec: bool)
      modifies this
      ensures exec == old(Executes())
      ensures curLblLine == Wrap16(old(curLblLine) + 1)
      ensures isProcLabels == old(isProcLabels) && hasOutput == old(hasOutput) && isBin == old(isBin)
      ensures out == old(out)
    {
      curLblLine := Wrap16(curLblLine + 1);
      exec := !isProcLabels && hasOutput;
    }

    /** `fprintf(G_OutputHandle, ...)` / `fwrite`: raw bytes onto the output. */
    method Put(s: seq<bv8>)
      modifies this
      ensures Printed(s)
    {
      out := out + s;
    }

    /** `__G_Print8__`. */
    method Print8(val: bv8)
      modifies this
      ensures Printed(Byte(isBin, val))
    {
      if isBin {
        Put([val]);
      } else {
        Put(Hex2(val));
      }
    }

    /** `__G_Print32__`: big-endian bytes, or eight hex digits. */
    method Print32(val: bv32)
      modifies this
      ensures Printed(Word(isBin, val))
    {
      if isBin {
        Put(BigEndian(val));
      } else {
        Put(Hex8(val));
      }
    }

    /** `__G_PrintCodeType__`: the two words of a record. */
    method PrintRecord(r: Record)
      modifies this
      ensures Printed(RecordBytes(isBin, r))
    {
      if isBin {
        Put(BigEndian(r.gecko));
        Put(BigEndian(r.value));
      } else {
        Put(Hex8(r.gecko) + [Space] + Hex8(r.value) + [Newline]);
      }
    }

    /**
     * `G_GetLabel`: 0 on the label pass; otherwise |target - line| truncated to
     * int16_t and negated when the target is behind, which is the difference
     * target - line reduced to int16_t.
     */
    function GetLabel(target: Int16): (offs: Int16)
      reads this
      ensures isProcLabels ==> offs == 0
      ensures !isProcLabels ==> offs == Wrap16(target - curLblLine)
    {
      if isProcLabels then 0 else LabelDistance(target, curLblLine)
    }

    /* --------------------------------------------------------- CT0 write */

    /** `__G_Write__`. */
    method Write(typ: bv32, addr: bv32, val: bv32, extraCount: bv32, flg: bv32)
      modifies this
      ensures Appended(RecordBytes(isBin, WriteWords(typ, addr, val, extraCount, flg)))
    {
      var exec := CheckIfExec();
      if !exec {
        return;
      }
      PrintRecord(WriteWords(typ, addr, val, extraCount, flg));
    }

    /** `G_WriteString`: the header, then the bytes padded with zeros to a multiple of 8, 8 to a line. */
    method WriteString(addr: bv32, vals: seq<bv8>, flg: bv32)
      requires |vals| < 0x1_0000
      modifies this
      ensures Appended(RecordBytes(isBin, WriteStringHeader(addr, |vals| as bv32, flg))
                       + ByteCells(isBin, StringPadded(vals), |StringPadded(vals)|))
    {
      var exec := CheckIfExec();
      if !exec {
        return;
      }
      ghost var start := out;
      var valsSz32 := |vals|;
      PrintRecord(WriteStringHeader(addr, valsSz32 as bv32, flg));
      WriteStringBytes(vals);
      AppendAssoc(start, RecordBytes(isBin, WriteStringHeader(addr, |vals| as bv32, flg)),
                  ByteCells(isBin, StringPadded(vals), |StringPadded(vals)|));
    }

    /** The byte loop of `G_WriteString`. */
    method WriteStringBytes(vals: seq<bv8>)
      requires |vals| < 0x1_0000
      modifies this
      ensures Printed(ByteCells(isBin, StringPadded(vals), |StringPadded(vals)|))
    {
      ghost var head := out;
      ghost var p := StringPadded(vals);
      var valsSz32 := |vals|;
      var valEvenSz := RoundUpS(valsSz32, 3);
      var i := 0;
      while i < valEvenSz
        invariant i <= valEvenSz == |p|
        invariant Printed(ByteCells(isBin, p, i))
      {
        var val: bv8 := 0;
        if i < valsSz32 {
          val := vals[i];
        }
        Print8(val);
        var sep := SeparatorAfter(i + 1, valEvenSz, 8, 4);
        Put(sep);
        AppendAssoc(head, ByteCells(isBin, p, i), Byte(isBin, p[i]));
        AppendAssoc(head, ByteCells(isBin, p, i) + Byte(isBin, p[i]), sep);
        i := i + 1;
      }
    }

    /**
     * The separator the padding loops print after item idx: nothing in binary
     * mode, else a newline at the end or after every `line` items, or a space
     * after every `group` items.
     */
    method SeparatorAfter(idx: nat, total: nat, line: nat, group: nat) returns (sep: seq<bv8>)
      requires line > 0 && group > 0
      ensures sep == Separator(isBin, idx, total, line, group)
    {
      sep := [];
      if !isBin {
        if idx < total {
          if idx != 1 && idx % line == 0 {
            sep := [Newline];
          } else if idx % group == 0 {
            sep := [Space];
          }
        } else {
          sep := [Newline];
        }
      }
    }

    /** `__G_WriteSerial__`, with the count field as intended (`count ? count : 1`). */
    method WriteSerial(sdType: bv32, addr: bv32, value: bv32, count: bv32, addrIncr: bv32, valueIncr: bv32,
                       flg: bv32)
      modifies this
      ensures var r := SerialWords(sdType, addr, value, count, addrIncr, valueIncr, flg);
        Appended(RecordBytes(isBin, r[0]) + RecordBytes(isBin, r[1]))
    {
      var exec := CheckIfExec();
      if !exec {
        return;
      }
      ghost var start := out;
      var r := SerialWords(sdType, addr, value, count, addrIncr, valueIncr, flg);
      var first, second := r[0], r[1];
      PrintRecord(first);
      PrintRecord(second);
      AppendAssoc(start, RecordBytes(isBin, first), RecordBytes(isBin, second));
    }

    /* ---------------------------------------------------- CT1 regular if */

    /** `__G_If__`. */
    method If(typ: bv32, addr: bv32, val: bv32, endif: bv32, mask: bv32, flg: bv32)
      modifies this
      ensures Appended(RecordBytes(isBin, IfWords(typ, addr, val, endif, mask, flg)))
    {
      var exec := CheckIfExec();
      if !exec {
        return;
      }
      PrintRecord(IfWords(typ, addr, val, endif, mask, flg));
    }

    /* ------------------------------------------ CT2 base address / pointer */

    /** `__G_BAOrPO__`: the record with the offset flags BAOrPOOffsetRules describes. */
    method BAOrPO(typ: bv32, addr: bv32, gr: bv32, oFlg: bv32, flg: bv32)
      modifies this
      ensures Appended(RecordBytes(isBin, BAOrPOWords(typ, addr, gr, oFlg, flg)))
    {
      var exec := CheckIfExec();
      if !exec {
        return;
      }
      PrintRecord(BAOrPOWords(typ, addr, gr, oFlg, flg));
    }

    /** `__G_SetBAOrPOToCodeAddress__`: the offset's low 16 bits, `(int32_t) (offs & 0xFFFF)`. */
    method SetBAOrPOToCodeAddress(typ: bv32, offs: Int16)
      modifies this
      ensures Appended(RecordBytes(isBin, SetToCodeAddressWords(typ, offs)))
    {
      var exec := CheckIfExec();
      if !exec {
        return;
      }
      PrintRecord(SetToCodeAddressWords(typ, offs));
    }

    /* ---------------------------------------------------- CT3 control flow */

    /** `__G_ControlFlow__`. */
    method ControlFlow(typ: bv32, cnt: bv32, offs: Int16, block: bv32, exec: bv32)
      modifies this
      ensures Appended(RecordBytes(isBin, ControlFlowWords(typ, cnt, offs, block, exec)))
    {
      var run := CheckIfExec();
      if !run {
        return;
      }
      PrintRecord(ControlFlowWords(typ, cnt, offs, block, exec));
    }

    /* -------------------------------------------------- CT4 gecko registers */

    /** `__G_GR__`. */
    method GR(typ: bv32, gr: bv32, rdType: bv32, addrOrVal: bv32, oFlg: bv32, flg: bv32)
      modifies this
      ensures Appended(RecordBytes(isBin, GRWords(typ, gr, rdType, addrOrVal, oFlg, flg)))
    {
      var exec := CheckIfExec();
      if !exec {
        return;
      }
      PrintRecord(GRWords(typ, gr, rdType, addrOrVal, oFlg, flg));
    }

    /** `__G_GROperation__`. */
    method GROperation(typ: bv32, grn: bv32, grk: bv32, op: bv32, ref: bv32, val: bv32)
      modifies this
      ensures Appended(RecordBytes(isBin, GROperationWords(typ, grn, grk, op, ref, val)))
    {
      var exec := CheckIfExec();
      if !exec {
        return;
      }
      PrintRecord(GROperationWords(typ, grn, grk, op, ref, val));
    }

    /** `__G_CopyMem__`. */
    method CopyMem(typ: bv32, grn: bv32, grk: bv32, addr: bv32, cnt: bv32, flg: bv32)
      modifies this
      ensures Appended(RecordBytes(isBin, CopyMemWords(typ, grn, grk, addr, cnt, flg)))
    {
      var exec := CheckIfExec();
      if !exec {
        return;
      }
      PrintRecord(CopyMemWords(typ, grn, grk, addr, cnt, flg));
    }

    /* ---------------------------------------------------- CT5 special if */

    /** `__G_SpecIf__`. */
    method SpecIf(typ: bv32, grn: bv32, grk: bv32, addr: bv32, endif: bv32, mask: bv32, flg: bv32)
      modifies this
      ensures Appended(RecordBytes(isBin, SpecIfWords(typ, grn, grk, addr, endif, mask, flg)))
    {
      var exec := CheckIfExec();
      if !exec {
        return;
      }
      PrintRecord(SpecIfWords(typ, grn, grk, addr, endif, mask, flg));
    }

    /** `__G_IfCounter__`. The counter flags have no definition in the headers shown; they are a parameter. */
    method IfCounter(typ: bv32, counter: bv32, max: bv32, mask: bv32, cFlg: bv32)
      modifies this
      ensures Appended(RecordBytes(isBin, IfCounterWords(typ, counter, max, mask, cFlg)))
    {
      var exec := CheckIfExec();
      if !exec {
        return;
      }
      PrintRecord(IfCounterWords(typ, counter, max, mask, cFlg));
    }

    /* ----------------------------------------------------------- CT6 misc */

    /** `G_ExecuteAssembly`: a header with the pair count, then the words, zero-padded to an even count, 2 to a line. */
    method ExecuteAssembly(vals: seq<bv32>)
      requires |vals| < U32
      modifies this
      ensures Appended(RecordBytes(isBin, AsmExecHeader(RoundUpS(|vals|, 1)))
                       + WordCells(isBin, ExecPadded(vals), |ExecPadded(vals)|))
    {
      var exec := CheckIfExec();
      if !exec {
        return;
      }
      ghost var start := out;
      var valsSz := |vals|;
      var valEvenSz := RoundUpS(valsSz, 1);
      PrintRecord(AsmExecHeader(valEvenSz));
      ExecuteAssemblyWords(vals, valEvenSz);
      AppendAssoc(start, RecordBytes(isBin, AsmExecHeader(RoundUpS(|vals|, 1))),
                  WordCells(isBin, ExecPadded(vals), |ExecPadded(vals)|));
    }

    /** The word loop of `G_ExecuteAssembly`. */
    method ExecuteAssemblyWords(vals: seq<bv32>, valEvenSz: nat)
      requires |vals| < U32 && valEvenSz == RoundUpS(|vals|, 1)
      modifies this
      ensures Printed(WordCells(isBin, ExecPadded(vals), valEvenSz))
    {
      ghost var head := out;
      ghost var p := ExecPadded(vals);
      var valsSz := |vals|;
      var i := 0;
      while i < valEvenSz
        invariant i <= valEvenSz == |p|
        invariant Printed(WordCells(isBin, p, i))
      {
        var val: bv32 := 0;
        if i < valsSz {
          val := vals[i];
        }
        Print32(val);
        var sep := SeparatorAfter(i + 1, valEvenSz, 2, 1);
        Put(sep);
        AppendAssoc(head, WordCells(isBin, p, i), Word(isBin, p[i]));
        AppendAssoc(head, WordCells(isBin, p, i) + Word(isBin, p[i]), sep);
        i := i + 1;
      }
    }

    /**
     * `G_InsertAssembly`: like ExecuteAssembly, but an already even count gets
     * two more words, and padding at even indices is a nop.
     */
    method InsertAssembly(addr: bv32, vals: seq<bv32>, flg: bv32)
      requires |vals| < U32
      modifies this
      ensures Appended(RecordBytes(isBin, AsmInsertHeader(addr, InsertCount(|vals|), flg))
                       + WordCells(isBin, InsertPadded(vals), |InsertPadded(vals)|))
    {
      var exec := CheckIfExec();
      if !exec {
        return;
      }
      ghost var start := out;
      var valsSz := |vals|;
      var valEvenSz := RoundUpS(valsSz, 1);
      if valsSz == valEvenSz {
        valEvenSz := (valEvenSz + 2) % U32;
      }
      PrintRecord(AsmInsertHeader(addr, valEvenSz, flg));
      InsertAssemblyWords(vals, valEvenSz);
      AppendAssoc(start, RecordBytes(isBin, AsmInsertHeader(addr, InsertCount(|vals|), flg)),
                  WordCells(isBin, InsertPadded(vals), |InsertPadded(vals)|));
    }

    /** The word loop of `G_InsertAssembly`. */
    method InsertAssemblyWords(vals: seq<bv32>, valEvenSz: nat)
      requires |vals| < U32 && valEvenSz == InsertCount(|vals|)
      modifies this
      ensures Printed(WordCells(isBin, InsertPadded(vals), valEvenSz))
    {
      ghost var head := out;
      ghost var p := InsertPadded(vals);
      var valsSz := |vals|;
      var i := 0;
      while i < valEvenSz
        invariant i <= valEvenSz == |p|
        invariant Printed(WordCells(isBin, p, i))
      {
        var val: bv32 := 0;
        if i < valsSz {
          val := vals[i];
        } else if (i + 1) % 2 != 0 {
          val := NOP;
        }
        Print32(val);
        var sep := SeparatorAfter(i + 1, valEvenSz, 2, 1);
        Put(sep);
        AppendAssoc(head, WordCells(isBin, p, i), Word(isBin, p[i]));
        AppendAssoc(head, WordCells(isBin, p, i) + Word(isBin, p[i]), sep);
        i := i + 1;
      }
    }

    /** `G_CreateBranch`. */
    method CreateBranch(addr: bv32, branch: bv32, flg: bv32)
      modifies this
      ensures Appended(RecordBytes(isBin, CreateBranchWords(addr, branch, flg)))
    {
      var exec := CheckIfExec();
      if !exec {
        return;
      }
      PrintRecord(CreateBranchWords(addr, branch, flg));
    }

    /** `G_Switch`. */
    method Switch()
      modifies this
      ensures Appended(RecordBytes(isBin, SwitchWords()))
    {
      var exec := CheckIfExec();
      if !exec {
        return;
      }
      PrintRecord(SwitchWords());
    }

    /** `__G_RangeCheck__`. */
    method RangeCheck(startAddr: bv32, endAddr: bv32, endif: bv32, flg: bv32)
      modifies this
      ensures Appended(RecordBytes(isBin, RangeCheckWords(startAddr, endAddr, endif, flg)))
    {
      var exec := CheckIfExec();
      if !exec {
        return;
      }
      PrintRecord(RangeCheckWords(startAddr, endAddr, endif, flg));
    }

    /* ------------------------------------------------------------ CT7 end */

    /** `__G_End__`. */
    method End(typ: bv32, ba: bv32, po: bv32, endifCount: bv32, doelse: bv32)
      modifies this
      ensures Appended(RecordBytes(isBin, EndWords(typ, ba, po, endifCount, doelse)))
    {
      var exec := CheckIfExec();
      if !exec {
        return;
      }
      PrintRecord(EndWords(typ, ba, po, endifCount, doelse));
    }

    /** `G_EndGCT`. */
    method EndGCT()
      modifies this
      ensures Appended(RecordBytes(isBin, EndGCTWords()))
    {
      var exec := CheckIfExec();
      if !exec {
        return;
      }
      PrintRecord(EndGCTWords());
    }

    /** `G_BeginGCT`; GCT_MAGIC is not defined in the headers shown, so it is a parameter. */
    method BeginGCT(magic: bv32)
      modifies this
      ensures Appended(RecordBytes(isBin, BeginGCTWords(magic)))
    {
      var exec := CheckIfExec();
      if !exec {
        return;
      }
      PrintRecord(BeginGCTWords(magic));
    }
  }
}
