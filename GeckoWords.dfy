/**
 * The two words each encoder of src/gecko.c (and of the older include/gecko.h)
 * computes from its arguments, stated declaratively: which flag bits an
 * encoder clears or forces, which register it substitutes, where each
 * argument lands. The emitters in GeckoEmitter and GeckoLegacy print the
 * records these functions compute. Also the padded payloads of the string and assembly codes
 * and the bytes their loops print.
 */
module GeckoWords {
  import opened PyStr
  import opened GeckoTypes

  /* -------------------------------------------------------------- helpers */

  /** `flg & GCF_USEPOINTER == GCF_USEPOINTER`. */
  predicate UsesPointer(flg: bv32) {
    flg & GCF_USEPOINTER == GCF_USEPOINTER
  }

  /**
   * A sub-type confined to bits 25-27: every sub-type except GCST_ENDOFCODE,
   * whose bit 28 is the bit of GCF_USEPOINTER.
   */
  predicate InSubTypeField(typ: bv32) {
    typ & 0xF1FF_FFFF == 0
  }

  /** Code flags: only GCF_USEPOINTER and GCF_ADDRISSTACK. */
  predicate CodeFlags(flg: bv32) {
    flg & 0xEEFF_FFFF == 0
  }

  /** The register the encoders use for a register argument that may be GR_NONE. */
  function RegOrZero(gr: bv32): (r: bv32)
    ensures IsRegister(gr) ==> r <= GR_15
    ensures gr != GR_NONE ==> r == gr
  {
    if gr == GR_NONE then GR_0 else gr
  }

  /**
   * The register a copy or special-if code stores where GR_15 means "the
   * pointer address instead of a register": GR_NONE or a pointer-flagged code
   * becomes GR_15, and a real GR_15 is demoted to GR_14.
   */
  function PointerReg(gr: bv32, usePointer: bool): (r: bv32)
    ensures IsRegister(gr) ==> r <= GR_15
    ensures IsRegister(gr) ==> (r == GR_15 <==> gr == GR_NONE || usePointer)
    ensures r != GR_15 ==> r == gr || (gr == GR_15 && r == GR_14)
  {
    if gr == GR_NONE || usePointer then GR_15 else if gr == GR_15 then GR_14 else gr
  }

  /** The low three bytes of a first word, where the encoders put an address. */
  function Lo24(w: bv32): bv32 {
    w & 0xFF_FFFF
  }

  /** The top byte of a first word: code type, sub-type and the pointer flag. */
  function Hi8(w: bv32): bv32 {
    w >> 24
  }

  /* ------------------------------------------------------------ CT0 write */

  /** `__G_Write__`: a write of val, repeated extraCount more times (the upper half of the value). */
  function WriteWords(typ: bv32, addr: bv32, val: bv32, extraCount: bv32, flg: bv32): Record {
    Record(GCT_WRITE | typ | flg | addr, (extraCount << 16) | val)
  }

  lemma {:induction false} WriteFields(typ: bv32, addr: bv32, val: bv32, extraCount: bv32, flg: bv32)
    requires InSubTypeField(typ) && CodeFlags(flg)
    requires addr < 0x100_0000 && val < 0x1_0000 && extraCount < 0x1_0000
    ensures var r := WriteWords(typ, addr, val, extraCount, flg);
      && TypeOf(r.gecko) == 0 && Hi8(r.gecko) == (typ | flg) >> 24 && Lo24(r.gecko) == addr
      && r.value >> 16 == extraCount && r.value & 0xFFFF == val
  {
  }

  /** The header record of `G_WriteString`: its value is the byte count. */
  function WriteStringHeader(addr: bv32, size: bv32, flg: bv32): Record {
    Record(GCT_WRITE | GCST_WRITESTR | flg | addr, size)
  }

  /** C's `a || b`: 1 when either operand is non-zero, else 0. */
  function LogicalOr(a: bv32, b: bv32): (r: bv32)
    ensures r <= 1
  {
    if a != 0 || b != 0 then 1 else 0
  }

  /**
   * `__G_WriteSerial__` as written: the count field is built from
   * `(count || 1) - 1`, which is 0 whatever count is.
   */
  function SerialWordsAsWritten(sdType: bv32, addr: bv32, value: bv32, count: bv32, addrIncr: bv32,
                                valueIncr: bv32, flg: bv32): seq<Record>
  {
    [Record(GCT_WRITE | GCST_WRITESRL | flg | addr, value),
     Record(addrIncr | sdType | (((LogicalOr(count, 1) - 1) & 0xFFF) << 16), valueIncr)]
  }

  /** As written, the serial write's output does not depend on the requested count at all. */
  lemma {:induction false} SerialAsWrittenIgnoresCount(sdType: bv32, addr: bv32, value: bv32, c1: bv32, c2: bv32, addrIncr: bv32,
                                    valueIncr: bv32, flg: bv32)
    ensures SerialWordsAsWritten(sdType, addr, value, c1, addrIncr, valueIncr, flg)
         == SerialWordsAsWritten(sdType, addr, value, c2, addrIncr, valueIncr, flg)
  {
    assert LogicalOr(c1, 1) == LogicalOr(c2, 1) == 1;
  }

  /** A concrete case: five writes requested, an all-zero count field (one write) encoded. */
  lemma {:induction false} SerialAsWrittenExample()
    ensures (SerialWordsAsWritten(0, 0x0100_0000, 0, 5, 4, 0, 0)[1].gecko >> 16) & 0xFFF == 0
  {
    assert LogicalOr(5, 1) == 1;
  }

  /** The count field the serial write evidently intends: `count ? count : 1`, minus one. */
  function SerialCountField(count: bv32): bv32 {
    (((if count == 0 then 1 else count) - 1) & 0xFFF) << 16
  }

  /** `__G_WriteSerial__` with the intended count: two records, the second carrying count - 1. */
  function SerialWords(sdType: bv32, addr: bv32, value: bv32, count: bv32, addrIncr: bv32,
                       valueIncr: bv32, flg: bv32): (r: seq<Record>)
    ensures |r| == 2
  {
    [Record(GCT_WRITE | GCST_WRITESRL | flg | addr, value),
     Record(addrIncr | sdType | SerialCountField(count), valueIncr)]
  }

  /** The intended count field holds count - 1 for a count of 1 to 4096, and 0 for a count of 0. */
  lemma {:induction false} SerialCountFieldValue(count: bv32)
    ensures 1 <= count <= 0x1000 ==> SerialCountField(count) >> 16 == count - 1
    ensures count == 0 ==> SerialCountField(count) >> 16 == 0
    ensures SerialCountField(count) & 0xF000_FFFF == 0
  {
  }

  /** With the intended count, a count of 1 to 4096 is read back from bits 16-27 of the second word as count - 1. */
  lemma {:induction false} SerialCountRoundTrip(sdType: bv32, addr: bv32, value: bv32, count: bv32, addrIncr: bv32,
                             valueIncr: bv32, flg: bv32)
    requires addrIncr < 0x1_0000 && sdType & 0x0FFF_FFFF == 0 && 1 <= count <= 0x1000
    ensures (SerialWords(sdType, addr, value, count, addrIncr, valueIncr, flg)[1].gecko >> 16) & 0xFFF == count - 1
  {
    SerialCountFieldValue(count);
    SerialSecondWord(addrIncr, sdType, SerialCountField(count));
  }

  /** A count of 0 is treated as 1; the address increment fills the low half either way. */
  lemma {:induction false} SerialZeroCount(sdType: bv32, addr: bv32, value: bv32, addrIncr: bv32, valueIncr: bv32, flg: bv32)
    requires addrIncr < 0x1_0000 && sdType & 0x0FFF_FFFF == 0
    ensures SerialWords(sdType, addr, value, 0, addrIncr, valueIncr, flg) == SerialWords(sdType, addr, value, 1, addrIncr, valueIncr, flg)
  {
  }

  lemma {:induction false} SerialAddressIncrement(sdType: bv32, addr: bv32, value: bv32, count: bv32, addrIncr: bv32,
                               valueIncr: bv32, flg: bv32)
    requires addrIncr < 0x1_0000 && sdType & 0x0FFF_FFFF == 0
    ensures SerialWords(sdType, addr, value, count, addrIncr, valueIncr, flg)[1].gecko & 0xFFFF == addrIncr
    ensures SerialWords(sdType, addr, value, count, addrIncr, valueIncr, flg)[1].value == valueIncr
  {
    SerialCountFieldValue(count);
    SerialSecondWord(addrIncr, sdType, SerialCountField(count));
  }

  lemma {:induction false} SerialSecondWord(addrIncr: bv32, sdType: bv32, field: bv32)
    requires addrIncr < 0x1_0000 && sdType & 0x0FFF_FFFF == 0 && field & 0xF000_FFFF == 0
    ensures ((addrIncr | sdType | field) >> 16) & 0xFFF == field >> 16
    ensures (addrIncr | sdType | field) & 0xFFFF == addrIncr
  {
  }

  /* ------------------------------------------------------ CT1 regular if */

  /** `__G_If__`: the address plus the endif bit, and the mask in the upper half of the value. */
  function IfWords(typ: bv32, addr: bv32, val: bv32, endif: bv32, mask: bv32, flg: bv32): Record {
    Record(GCT_REGIF | typ | flg | (addr + endif), (mask << 16) | val)
  }

  lemma {:induction false} IfFields(typ: bv32, addr: bv32, val: bv32, endif: bv32, mask: bv32, flg: bv32)
    requires InSubTypeField(typ) && CodeFlags(flg)
    requires addr < 0x100_0000 && addr & 1 == 0 && endif <= 1 && val < 0x1_0000 && mask < 0x1_0000
    ensures var r := IfWords(typ, addr, val, endif, mask, flg);
      && TypeOf(r.gecko) == 1 && Hi8(r.gecko) == (GCT_REGIF | typ | flg) >> 24
      && r.gecko & 1 == endif && Lo24(r.gecko) & !1 == addr
      && r.value >> 16 == mask && r.value & 0xFFFF == val
  {
  }

  /** include/gecko.h's `__G_If__`: it has no endif argument and always adds 1. */
  function LegacyIfWords(typ: bv32, addr: bv32, val: bv32, mask: bv32, flg: bv32): Record {
    IfWords(typ, addr, val, 1, mask, flg)
  }

  /** So an if code from include/gecko.h always ends the previous if (bit 0 of an aligned address). */
  lemma {:induction false} LegacyIfSetsEndif(typ: bv32, addr: bv32, val: bv32, mask: bv32, flg: bv32)
    requires InSubTypeField(typ) && CodeFlags(flg) && addr < 0x100_0000 && addr & 1 == 0
    ensures LegacyIfWords(typ, addr, val, mask, flg).gecko & 1 == 1
  {
    IfFields(typ, addr, 0, 1, 0, flg);
  }

  /** The `G_If16...Mask` wrappers: a 16-bit value and mask. */
  function If16Mask(typ: bv32, addr: bv32, val: bv16, mask: bv16, flg: bv32): Record {
    LegacyIfWords(typ, addr, val as bv32, mask as bv32, flg)
  }

  /** `G_If8Equal`: the 16-bit equality test with mask 0xFF. */
  function If8Equal(addr: bv32, val: bv8, flg: bv32): (r: Record)
    ensures r == LegacyIfWords(GCST_IF16EQU, addr, val as bv32, 0xFF, flg)
    ensures r.value >> 16 == 0xFF && r.value & 0xFFFF == val as bv32
  {
    If16Mask(GCST_IF16EQU, addr, val as bv16, 0xFF, flg)
  }

  /** `G_If8NotEqual` takes a 32-bit value, which the uint16_t parameter of the 16-bit test truncates. */
  function If8NotEqual(addr: bv32, val: bv32, flg: bv32): (r: Record)
    ensures r == LegacyIfWords(GCST_IF16NEQ, addr, val & 0xFFFF, 0xFF, flg)
    ensures r.value >> 16 == 0xFF && r.value & 0xFFFF == val & 0xFFFF
  {
    If16Mask(GCST_IF16NEQ, addr, (val & 0xFFFF) as bv16, 0xFF, flg)
  }

  function If8GreaterThan(addr: bv32, val: bv32, flg: bv32): (r: Record)
    ensures r == LegacyIfWords(GCST_IF16GTR, addr, val & 0xFFFF, 0xFF, flg)
    ensures r.value >> 16 == 0xFF && r.value & 0xFFFF == val & 0xFFFF
  {
    If16Mask(GCST_IF16GTR, addr, (val & 0xFFFF) as bv16, 0xFF, flg)
  }

  function If8LessThan(addr: bv32, val: bv32, flg: bv32): (r: Record)
    ensures r == LegacyIfWords(GCST_IF16LSS, addr, val & 0xFFFF, 0xFF, flg)
    ensures r.value >> 16 == 0xFF && r.value & 0xFFFF == val & 0xFFFF
  {
    If16Mask(GCST_IF16LSS, addr, (val & 0xFFFF) as bv16, 0xFF, flg)
  }

  /* ---------------------------------------------- CT2 base address / pointer */

  /** Every bit but GOF_ADDTO, GOF_PTRORBASEADDR and GOF_GECKOREG: the offset-flag bits no encoder touches. */
  const UntouchedOffsetBits: bv32 := 0xFFEE_EFFF

  /** The offset flags `__G_BAOrPO__` stores. */
  function BAOrPOOffsetFlags(typ: bv32, gr: bv32, oFlg: bv32, flg: bv32): bv32 {
    var cleared := (if typ == GCST_BAWRITE || typ == GCST_POWRITE then GOF_ADDTO else 0)
                 | (if gr == GR_NONE then GOF_GECKOREG else 0);
    (oFlg & !cleared) | (if UsesPointer(flg) then GOF_PTRORBASEADDR else 0)
  }

  /**
   * `__G_BAOrPO__`: the type, sub-type, flags without GCF_ADDRISSTACK, the
   * normalised offset flags and the register (GR_0 for none); the address is
   * the value word.
   */
  function BAOrPOWords(typ: bv32, addr: bv32, gr: bv32, oFlg: bv32, flg: bv32): Record {
    Record(GCT_BAORPO | typ | (flg & !GCF_ADDRISSTACK) | BAOrPOOffsetFlags(typ, gr, oFlg, flg) | RegOrZero(gr), addr)
  }

  /**
   * Each offset-flag rule of `__G_BAOrPO__` in both directions: write
   * sub-types drop GOF_ADDTO, a missing register drops GOF_GECKOREG, a
   * pointer-flagged code gets GOF_PTRORBASEADDR; every other bit is kept.
   */
  lemma {:induction false} BAOrPOOffsetRules(typ: bv32, gr: bv32, oFlg: bv32, flg: bv32)
    ensures var o := BAOrPOOffsetFlags(typ, gr, oFlg, flg);
      && o & UntouchedOffsetBits == oFlg & UntouchedOffsetBits
      && o & GOF_ADDTO == (if typ == GCST_BAWRITE || typ == GCST_POWRITE then 0 else oFlg & GOF_ADDTO)
      && o & GOF_GECKOREG == (if gr == GR_NONE then 0 else oFlg & GOF_GECKOREG)
      && o & GOF_PTRORBASEADDR == (if UsesPointer(flg) then GOF_PTRORBASEADDR else oFlg & GOF_PTRORBASEADDR)
  {
  }

  /** `__G_SetBAOrPOToCodeAddress__`: the int16 offset's two's-complement bits in the low half. */
  function SetToCodeAddressWords(typ: bv32, offs: Int16): (r: Record)
    ensures typ & 0xFFFF == 0 ==> r.gecko & 0xFFFF == Low16Of(offs) && r.gecko >> 16 == (GCT_BAORPO | typ) >> 16
    ensures r.value == 0
  {
    var w := GCT_BAORPO | typ | Low16Of(offs);
    Record(w, 0)
  }

  /* ----------------------------------------------------- CT3 control flow */

  /**
   * The value `__G_ControlFlow__` puts in the low half for a signed line
   * offset: `offs - 1` after 0 became 1 and a negative offset had 2 added.
   */
  function JumpField(offs: Int16): (f: Int16)
    ensures offs > 0 ==> f == offs - 1
    ensures offs == 0 ==> f == 0
    ensures offs < 0 ==> f == offs + 1
  {
    if offs == 0 then 0 else if offs < 0 then offs + 1 else offs - 1
  }

  /** `__G_ControlFlow__`: GB_NONE becomes GB_0, GES_NONE becomes GES_TRUE; the block is the value word. */
  function ControlFlowWords(typ: bv32, cnt: bv32, offs: Int16, block: bv32, exec: bv32): Record {
    Record(GCT_CTRLFLW | typ | (if exec == GES_NONE then GES_TRUE else exec) | cnt | Low16Of(JumpField(offs)),
           if block == GB_NONE then GB_0 else block)
  }

  lemma {:induction false} ControlFlowFields(typ: bv32, cnt: bv32, offs: Int16, block: bv32, exec: bv32)
    requires InSubTypeField(typ) && (exec == GES_NONE || exec & 0xFFCF_FFFF == 0) && cnt < 0x1_0000
    ensures var r := ControlFlowWords(typ, cnt, offs, block, exec);
      && TypeOf(r.gecko) == 3
      && r.gecko & 0xFFFF == cnt | Low16Of(JumpField(offs))
      && r.gecko & 0x0030_0000 == (if exec == GES_NONE then GES_TRUE else exec)
      && (IsRegister(block) ==> r.value <= GB_15)
      && (block != GB_NONE ==> r.value == block)
  {
  }

  /** `G_SetRepeat` passes offset 1, so the repeat count alone fills the low half. */
  lemma {:induction false} SetRepeatCount(cnt: bv32, block: bv32)
    requires cnt < 0x1_0000
    ensures ControlFlowWords(GCST_REPEATSET, cnt, 1, block, GES_NONE).gecko & 0xFFFF == cnt
  {
    assert Low16Of(JumpField(1)) == 0;
  }

  /* --------------------------------------------------- CT4 gecko registers */

  /** The offset flags `__G_GR__` stores. */
  function GROffsetFlags(typ: bv32, oFlg: bv32, flg: bv32): bv32 {
    var cleared := (if typ != GCST_GRSET then GOF_ADDTO else 0) | GOF_GECKOREG;
    (oFlg & !cleared) | (if UsesPointer(flg) then GOF_PTRORBASEADDR else 0)
  }

  /** `__G_GR__`: set, load or store a gecko register (GR_0 for none). */
  function GRWords(typ: bv32, gr: bv32, rdType: bv32, addrOrVal: bv32, oFlg: bv32, flg: bv32): Record {
    Record(GCT_GR | typ | (flg & !GCF_ADDRISSTACK) | GROffsetFlags(typ, oFlg, flg) | rdType | RegOrZero(gr), addrOrVal)
  }

  /**
   * The offset-flag rules of `__G_GR__`: only GCST_GRSET keeps GOF_ADDTO, a
   * pointer-flagged code gets GOF_PTRORBASEADDR, GOF_GECKOREG is always dropped.
   */
  lemma {:induction false} GROffsetRules(typ: bv32, oFlg: bv32, flg: bv32)
    ensures var o := GROffsetFlags(typ, oFlg, flg);
      && o & UntouchedOffsetBits == oFlg & UntouchedOffsetBits
      && o & GOF_ADDTO == (if typ == GCST_GRSET then oFlg & GOF_ADDTO else 0)
      && o & GOF_GECKOREG == 0
      && o & GOF_PTRORBASEADDR == (if UsesPointer(flg) then GOF_PTRORBASEADDR else oFlg & GOF_PTRORBASEADDR)
  {
  }

  /** `__G_GROperation__`: for a register-register operation the value word is the second register. */
  function GROperationWords(typ: bv32, grn: bv32, grk: bv32, op: bv32, ref: bv32, val: bv32): (r: Record)
    ensures typ == GCST_GROP ==> r.value == RegOrZero(grk)
    ensures typ != GCST_GROP ==> r.value == val
    ensures IsRegister(grk) && typ == GCST_GROP ==> r.value <= GR_15
  {
    Record(GCT_GR | typ | RegOrZero(grn) | op | ref, if typ == GCST_GROP then RegOrZero(grk) else val)
  }

  /**
   * `__G_CopyMem__`: the register on the memory side of the copy (grk when
   * copying from a register, grn otherwise) is a pointer register, the other
   * defaults to GR_0; the stack flag is dropped.
   */
  function CopyMemWords(typ: bv32, grn: bv32, grk: bv32, addr: bv32, cnt: bv32, flg: bv32): Record {
    var f := flg & !GCF_ADDRISSTACK;
    var n := if typ == GCST_MEMCPYFROMGR then RegOrZero(grn) else PointerReg(grn, UsesPointer(f));
    var k := if typ == GCST_MEMCPYFROMGR then PointerReg(grk, UsesPointer(f)) else RegOrZero(grk);
    Record(GCT_GR | typ | f | (cnt << 8) | (n << 4) | k, addr)
  }

  /** The registers of a copy code read back from bits 4-7 and 0-3; GR_15 there means "no register" or the pointer. */
  lemma {:induction false} CopyMemFields(typ: bv32, grn: bv32, grk: bv32, addr: bv32, cnt: bv32, flg: bv32)
    requires IsRegister(grn) && IsRegister(grk) && cnt < 0x1_0000
    requires InSubTypeField(typ) && CodeFlags(flg)
    ensures var r := CopyMemWords(typ, grn, grk, addr, cnt, flg);
      var n := (r.gecko >> 4) & 0xF;
      var k := r.gecko & 0xF;
      && TypeOf(r.gecko) == 4
      && (r.gecko >> 8) & 0xFFFF == cnt
      && r.gecko & GCF_ADDRISSTACK == 0
      && (typ == GCST_MEMCPYFROMGR ==> n == RegOrZero(grn) && (k == GR_15 <==> grk == GR_NONE || UsesPointer(flg)))
      && (typ != GCST_MEMCPYFROMGR ==> k == RegOrZero(grk) && (n == GR_15 <==> grn == GR_NONE || UsesPointer(flg)))
      && r.value == addr
  {
    var f := flg & !GCF_ADDRISSTACK;
    assert UsesPointer(f) == UsesPointer(flg);
    var n := if typ == GCST_MEMCPYFROMGR then RegOrZero(grn) else PointerReg(grn, UsesPointer(f));
    var k := if typ == GCST_MEMCPYFROMGR then PointerReg(grk, UsesPointer(f)) else RegOrZero(grk);
    RegisterNibbles(GCT_GR | typ | f, cnt, n, k);
  }

  lemma {:induction false} RegisterNibbles(hi: bv32, cnt: bv32, n: bv32, k: bv32)
    requires hi & 0xFF_FFFF == 0 && cnt < 0x1_0000 && n < 16 && k < 16
    ensures var w := hi | (cnt << 8) | (n << 4) | k;
      (w >> 4) & 0xF == n && w & 0xF == k && (w >> 8) & 0xFFFF == cnt && w >> 24 == hi >> 24
  {
  }

  /* ------------------------------------------------------ CT5 special if */

  /** Whether a special-if compares two registers (both given) rather than a register and memory. */
  predicate BothRegisters(grn: bv32, grk: bv32) {
    grn != GR_NONE && grk != GR_NONE
  }

  /** The code flags a special-if keeps: comparing two registers drops the pointer and stack flags. */
  function SpecIfFlags(grn: bv32, grk: bv32, flg: bv32): bv32 {
    if BothRegisters(grn, grk) then flg & !(GCF_USEPOINTER | GCF_ADDRISSTACK) else flg
  }

  /**
   * `__G_SpecIf__`: comparing two registers zeroes the address; each register
   * goes through PointerReg under the flags kept.
   */
  function SpecIfWords(typ: bv32, grn: bv32, grk: bv32, addr: bv32, endif: bv32, mask: bv32, flg: bv32): Record {
    var f := SpecIfFlags(grn, grk, flg);
    Record(GCT_SPECIF | typ | f | ((if BothRegisters(grn, grk) then 0 else addr) + endif),
           (PointerReg(grk, UsesPointer(f)) << 28) | (PointerReg(grn, UsesPointer(f)) << 24) | mask)
  }

  /** When both registers are given neither is stored as GR_15; otherwise GR_15 marks a missing or pointer register. */
  lemma {:induction false} SpecIfRegisters(grn: bv32, grk: bv32, flg: bv32)
    requires IsRegister(grn) && IsRegister(grk)
    ensures var p := UsesPointer(SpecIfFlags(grn, grk, flg));
      && (BothRegisters(grn, grk) ==> !p && PointerReg(grn, p) != GR_15 && PointerReg(grk, p) != GR_15)
      && (!BothRegisters(grn, grk) ==>
            (PointerReg(grn, p) == GR_15 <==> grn == GR_NONE || UsesPointer(flg))
            && (PointerReg(grk, p) == GR_15 <==> grk == GR_NONE || UsesPointer(flg)))
  {
    if BothRegisters(grn, grk) {
      assert !UsesPointer(flg & !(GCF_USEPOINTER | GCF_ADDRISSTACK));
    }
  }

  /** The first word of a special-if: type 5, and for two registers the endif bit alone and no pointer or stack flag. */
  lemma {:induction false} SpecIfGecko(typ: bv32, grn: bv32, grk: bv32, addr: bv32, endif: bv32, mask: bv32, flg: bv32)
    requires endif <= 1 && addr < 0x100_0000 && InSubTypeField(typ) && CodeFlags(flg)
    ensures var r := SpecIfWords(typ, grn, grk, addr, endif, mask, flg);
      && TypeOf(r.gecko) == 5
      && (BothRegisters(grn, grk) ==> Lo24(r.gecko) == endif && r.gecko & (GCF_USEPOINTER | GCF_ADDRISSTACK) == 0)
  {
  }

  /** The value word of a special-if: second register, first register, mask. */
  lemma {:induction false} SpecIfValue(typ: bv32, grn: bv32, grk: bv32, addr: bv32, endif: bv32, mask: bv32, flg: bv32)
    requires IsRegister(grn) && IsRegister(grk) && mask < 0x1_0000
    ensures var r := SpecIfWords(typ, grn, grk, addr, endif, mask, flg);
      var p := UsesPointer(SpecIfFlags(grn, grk, flg));
      && r.value >> 28 == PointerReg(grk, p)
      && (r.value >> 24) & 0xF == PointerReg(grn, p)
      && r.value & 0xFFFF == mask
  {
    var p := UsesPointer(SpecIfFlags(grn, grk, flg));
    ValueNibbles(PointerReg(grk, p), PointerReg(grn, p), mask);
  }

  lemma {:induction false} ValueNibbles(k: bv32, n: bv32, mask: bv32)
    requires k < 16 && n < 16 && mask < 0x1_0000
    ensures var v := (k << 28) | (n << 24) | mask;
      v >> 28 == k && (v >> 24) & 0xF == n && v & 0xFFFF == mask
  {
  }

  /** include/gecko.h's `__G_SpecIf__`: no endif argument, the address always gets 1 added. */
  function LegacySpecIfWords(typ: bv32, grn: bv32, grk: bv32, addr: bv32, mask: bv32, flg: bv32): Record {
    SpecIfWords(typ, grn, grk, addr, 1, mask, flg)
  }

  /** `__G_IfCounter__`: the counter in bits 4-19, the mask and the maximum in the value word. */
  function IfCounterWords(typ: bv32, counter: bv32, max: bv32, mask: bv32, cFlg: bv32): Record {
    Record(GCT_SPECIF | typ | cFlg | (counter << 4), (mask << 16) | max)
  }

  /* ------------------------------------------------------------- CT6 misc */

  const NOP: bv32 := 0x6000_0000

  /** The header of `G_ExecuteAssembly`: the number of instruction pairs. */
  function AsmExecHeader(evenSz: nat): Record
    requires evenSz < U32
  {
    Record(GCT_MISC | GCST_ASMEXEC, (evenSz / 2) as bv32)
  }

  function AsmInsertHeader(addr: bv32, evenSz: nat, flg: bv32): Record
    requires evenSz < U32
  {
    Record(GCT_MISC | GCST_ASMINST | flg | addr, (evenSz / 2) as bv32)
  }

  function CreateBranchWords(addr: bv32, branch: bv32, flg: bv32): Record {
    Record(GCT_MISC | GCST_ASMBRCH | flg | addr, branch)
  }

  function SwitchWords(): Record {
    Record(GCT_MISC | GCST_SWITCH, 0)
  }

  /** `__G_RangeCheck__`: the stack flag is dropped; start and end share the value word. */
  function RangeCheckWords(startAddr: bv32, endAddr: bv32, endif: bv32, flg: bv32): (r: Record)
    ensures r.gecko & GCF_ADDRISSTACK == endif & GCF_ADDRISSTACK
    ensures startAddr < 0x1_0000 && endAddr < 0x1_0000 ==> r.value >> 16 == startAddr && r.value & 0xFFFF == endAddr
  {
    Record(GCT_MISC | GCST_RNGCHCK | (flg & !GCF_ADDRISSTACK) | endif, (startAddr << 16) | endAddr)
  }

  /* -------------------------------------------------------------- CT7 end */

  /** `__G_End__`: the else bit at bit 20, the endif count below it, BA and PO halves in the value. */
  function EndWords(typ: bv32, ba: bv32, po: bv32, endifCount: bv32, doelse: bv32): (r: Record)
    ensures IsSubType(typ) && doelse <= 1 && endifCount < 0x10_0000 ==>
      TypeOf(r.gecko) == 7 && (r.gecko >> 20) & 1 == doelse && r.gecko & 0xF_FFFF == endifCount
    ensures ba < 0x1_0000 && po < 0x1_0000 ==> r.value >> 16 == ba && r.value & 0xFFFF == po
  {
    Record(GCT_END | typ | (doelse << 20) | endifCount, (ba << 16) | po)
  }

  /** `G_EndGCT`: the end-of-list record, F0000000 00000000. */
  function EndGCTWords(): (r: Record)
    ensures r == Record(0xF000_0000, 0)
  {
    Record(GCT_END | GCST_ENDOFCODE, 0)
  }

  /** `G_BeginGCT`: the magic word twice. GCT_MAGIC is not defined in the headers shown, so it is a parameter. */
  function BeginGCTWords(magic: bv32): Record {
    Record(magic, magic)
  }

  /* ------------------------------------------------------- padded payloads */

  /** The bytes `G_WriteString` prints: the string, then zeros up to a multiple of 8. */
  function StringPadded(vals: seq<bv8>): (p: seq<bv8>)
    requires |vals| < 0x1_0000
  {
    var n := RoundUpS(|vals|, 3);
    seq(n, i requires 0 <= i < n => if i < |vals| then vals[i] else 0)
  }

  lemma {:induction false} StringPaddedShape(vals: seq<bv8>)
    requires |vals| < 0x1_0000
    ensures var p := StringPadded(vals);
      && |p| % 8 == 0 && |vals| <= |p| < |vals| + 8
      && p[..|vals|] == vals
      && forall i :: |vals| <= i < |p| ==> p[i] == 0
  {
    RoundUp8Means(|vals|);
  }

  /** The word count `G_InsertAssembly` pads to: even, and two more when already even (modulo 2^32). */
  function InsertCount(n: nat): (c: nat)
    requires n < U32
    ensures c < U32
  {
    var e := RoundUpS(n, 1);
    if n == e then (e + 2) % U32 else e
  }

  /** The words `G_ExecuteAssembly` prints: the instructions, then a zero word when the count is odd. */
  function ExecPadded(vals: seq<bv32>): seq<bv32>
    requires |vals| < U32
  {
    var c := RoundUpS(|vals|, 1);
    seq(c, i requires 0 <= i < c => if i < |vals| then vals[i] else 0)
  }

  /** The words `G_InsertAssembly` prints: padding at even indices is a nop, at odd indices zero. */
  function InsertPadded(vals: seq<bv32>): seq<bv32>
    requires |vals| < U32
  {
    var c := InsertCount(|vals|);
    seq(c, i requires 0 <= i < c => if i < |vals| then vals[i] else if (i + 1) % 2 != 0 then NOP else 0)
  }

  lemma {:induction false} ExecPaddedShape(vals: seq<bv32>)
    requires |vals| < U32 - 1
    ensures var p := ExecPadded(vals);
      && |p| % 2 == 0 && |vals| <= |p| <= |vals| + 1
      && p[..|vals|] == vals
      && forall i :: |vals| <= i < |p| ==> p[i] == 0
  {
    RoundUp2Means(|vals|);
  }

  /**
   * An inserted routine always ends with a zero word (where the code handler
   * puts the branch back) and pads with one word when the count is odd and
   * with a nop and the zero word when it is even.
   */
  lemma {:induction false} InsertPaddedShape(vals: seq<bv32>)
    requires |vals| < U32 - 2
    ensures var p := InsertPadded(vals);
      && |p| % 2 == 0
      && |p| == (if |vals| % 2 == 1 then |vals| + 1 else |vals| + 2)
      && p[..|vals|] == vals
      && p[|p| - 1] == 0
      && forall i :: |vals| <= i < |p| ==> (p[i] == NOP <==> i % 2 == 0)
  {
    InsertCountMeans(|vals|);
  }

  lemma {:induction false} InsertCountMeans(n: nat)
    requires n < U32 - 2
    ensures InsertCount(n) == if n % 2 == 1 then n + 1 else n + 2
  {
    RoundUp2Means(n);
    var e := RoundUpS(n, 1);
    if n % 2 == 1 {
      assert e != n;
    } else {
      assert (n + 1) % 2 == 1;
      assert e == n;
    }
  }

  /* ----------------------------------------------------- printed payloads */

  /**
   * The text `G_WriteString` and the assembly loops print after item idx (1-based) of total:
   * a newline at the end and after every `line` items, otherwise a space after every
   * `group` items; nothing in binary mode.
   */
  function Separator(isBin: bool, idx: nat, total: nat, line: nat, group: nat): seq<bv8>
    requires line > 0 && group > 0
  {
    if isBin then []
    else if idx < total then
      if idx != 1 && idx % line == 0 then [Newline]
      else if idx % group == 0 then [Space]
      else []
    else [Newline]
  }

  /** `__G_Print8__`. */
  function Byte(isBin: bool, b: bv8): seq<bv8> {
    if isBin then [b] else Hex2(b)
  }

  /** `__G_Print32__`. */
  function Word(isBin: bool, w: bv32): seq<bv8> {
    if isBin then BigEndian(w) else Hex8(w)
  }

  /** The first k padded bytes of a string as `G_WriteString` prints them, 8 to a line. */
  function ByteCells(isBin: bool, p: seq<bv8>, k: nat): seq<bv8>
    requires k <= |p|
  {
    if k == 0 then [] else ByteCells(isBin, p, k - 1) + Byte(isBin, p[k - 1]) + Separator(isBin, k, |p|, 8, 4)
  }

  /** The first k padded words as the assembly codes print them, 2 to a line. */
  function WordCells(isBin: bool, p: seq<bv32>, k: nat): seq<bv8>
    requires k <= |p|
  {
    if k == 0 then [] else WordCells(isBin, p, k - 1) + Word(isBin, p[k - 1]) + Separator(isBin, k, |p|, 2, 1)
  }

  /** In binary mode a string's payload is exactly its padded bytes. */
  lemma {:induction false} BinaryStringIsBytes(p: seq<bv8>, k: nat)
    requires k <= |p|
    ensures ByteCells(true, p, k) == p[..k]
  {
    if k > 0 {
      BinaryStringIsBytes(p, k - 1);
      assert p[..k] == p[..k - 1] + [p[k - 1]];
    }
  }

  /** The records two adjacent words form, as `__G_PrintCodeType__` would print them. */
  function PairRecords(isBin: bool, p: seq<bv32>, j: nat): seq<bv8>
    requires 2 * j <= |p|
  {
    if j == 0 then [] else PairRecords(isBin, p, j - 1) + RecordBytes(isBin, Record(p[2 * j - 2], p[2 * j - 1]))
  }

  /**
   * A padded assembly payload prints exactly like a sequence of records:
   * each pair of instruction words is one "%08X %08X\n" line, or 8 bytes.
   */
  lemma {:induction false} WordCellsAreRecords(isBin: bool, p: seq<bv32>, j: nat)
    requires 2 * j <= |p|
    ensures WordCells(isBin, p, 2 * j) == PairRecords(isBin, p, j)
  {
    if j > 0 {
      WordCellsAreRecords(isBin, p, j - 1);
      WordCellsPair(isBin, p, j);
    }
  }

  /** Two more words print as one more record. */
  lemma {:induction false} WordCellsPair(isBin: bool, p: seq<bv32>, j: nat)
    requires 0 < j && 2 * j <= |p|
    ensures WordCells(isBin, p, 2 * j) == WordCells(isBin, p, 2 * j - 2) + RecordBytes(isBin, Record(p[2 * j - 2], p[2 * j - 1]))
  {
    var prev := WordCells(isBin, p, 2 * j - 2);
    var a, b := p[2 * j - 2], p[2 * j - 1];
    var sep1, sep2 := Separator(isBin, 2 * j - 1, |p|, 2, 1), Separator(isBin, 2 * j, |p|, 2, 1);
    assert WordCells(isBin, p, 2 * j) == prev + Word(isBin, a) + sep1 + Word(isBin, b) + sep2;
    AppendAssoc4(prev, Word(isBin, a), sep1, Word(isBin, b), sep2);
    PairSeparators(isBin, j, |p|);
    assert Word(isBin, a) + sep1 + Word(isBin, b) + sep2 == RecordBytes(isBin, Record(a, b));
  }

  lemma {:induction false} AppendAssoc4<T>(p: seq<T>, a: seq<T>, b: seq<T>, c: seq<T>, d: seq<T>)
    ensures p + a + b + c + d == p + (a + b + c + d)
  {
  }

  /** Within a pair of words the separator is a space, after the pair a newline (text mode). */
  lemma {:induction false} PairSeparators(isBin: bool, j: nat, total: nat)
    requires 0 < j && 2 * j <= total
    ensures Separator(isBin, 2 * j - 1, total, 2, 1) == if isBin then [] else [Space]
    ensures Separator(isBin, 2 * j, total, 2, 1) == if isBin then [] else [Newline]
  {
    assert (2 * j) % 2 == 0;
  }
}
