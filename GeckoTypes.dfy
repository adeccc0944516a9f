/**
 * The vocabulary of the Gecko code-type encoders: the enumerations of
 * include/gecko.h, the two-word record every emitter produces, the two ways a
 * record is written out (text "%08X %08X\n" or eight big-endian bytes), and
 * the C integer behaviour the encoders rely on (int16 wrap-around, the
 * shift-based round-up of src/gecko.c).
 */
module GeckoTypes {
  import opened Wrappers

  /* ----------------------------------------------------------- code types */

  const GCT_WRITE: bv32 := 0
  const GCT_REGIF: bv32 := 0x1 << 29
  const GCT_BAORPO: bv32 := 0x2 << 29
  const GCT_CTRLFLW: bv32 := 0x3 << 29
  const GCT_GR: bv32 := 0x4 << 29
  const GCT_SPECIF: bv32 := 0x5 << 29
  const GCT_MISC: bv32 := 0x6 << 29
  const GCT_END: bv32 := 0x7 << 29

  /* -------------------------------------------------------- code sub-types */

  const GCST_WRITE8: bv32 := 0
  const GCST_WRITE16: bv32 := 0x1 << 25
  const GCST_WRITE32: bv32 := 0x2 << 25
  const GCST_WRITESTR: bv32 := 0x3 << 25
  const GCST_WRITESRL: bv32 := 0x4 << 25

  const GCST_IF32EQU: bv32 := 0
  const GCST_IF32NEQ: bv32 := 0x1 << 25
  const GCST_IF32GTR: bv32 := 0x2 << 25
  const GCST_IF32LSS: bv32 := 0x3 << 25
  const GCST_IF16EQU: bv32 := 0x4 << 25
  const GCST_IF16NEQ: bv32 := 0x5 << 25
  const GCST_IF16GTR: bv32 := 0x6 << 25
  const GCST_IF16LSS: bv32 := 0x7 << 25

  const GCST_BAREAD: bv32 := 0
  const GCST_BASET: bv32 := 0x1 << 25
  const GCST_BAWRITE: bv32 := 0x2 << 25
  const GCST_BASETCODE: bv32 := 0x3 << 25
  const GCST_POREAD: bv32 := 0x4 << 25
  const GCST_POSET: bv32 := 0x5 << 25
  const GCST_POWRITE: bv32 := 0x6 << 25
  const GCST_POSETCODE: bv32 := 0x7 << 25

  const GCST_REPEATSET: bv32 := 0
  const GCST_REPEATEXEC: bv32 := 0x1 << 25
  const GCST_RETURN: bv32 := 0x2 << 25
  const GCST_GOTO: bv32 := 0x3 << 25
  const GCST_GOSUB: bv32 := 0x4 << 25

  const GCST_GRSET: bv32 := 0
  const GCST_GRREAD: bv32 := 0x1 << 25
  const GCST_GRWRITE: bv32 := 0x2 << 25
  const GCST_GRDIRECTOP: bv32 := 0x3 << 25
  const GCST_GROP: bv32 := 0x4 << 25
  const GCST_MEMCPYFROMGR: bv32 := 0x5 << 25
  const GCST_MEMCPYTOGR: bv32 := 0x6 << 25

  const GCST_IFGR16EQU: bv32 := 0
  const GCST_IFGR16NEQ: bv32 := 0x1 << 25
  const GCST_IFGR16GTR: bv32 := 0x2 << 25
  const GCST_IFGR16LSS: bv32 := 0x3 << 25
  const GCST_IFCNTR16EQU: bv32 := 0x4 << 25
  const GCST_IFCNTR16NEQ: bv32 := 0x5 << 25
  const GCST_IFCNTR16GTR: bv32 := 0x6 << 25
  const GCST_IFCNTR16LSS: bv32 := 0x7 << 25

  const GCST_ASMEXEC: bv32 := 0
  const GCST_ASMINST: bv32 := 0x1 << 25
  const GCST_ASMBRCH: bv32 := 0x3 << 25
  const GCST_SWITCH: bv32 := 0x6 << 25
  const GCST_RNGCHCK: bv32 := 0x7 << 25

  const GCST_FULLTERM: bv32 := 0
  const GCST_ENDIFELSE: bv32 := 0x1 << 25
  const GCST_ENDOFCODE: bv32 := 0x8 << 25

  /* ------------------------------------------------------------- flag sets */

  const GCF_NONE: bv32 := 0
  const GCF_USEPOINTER: bv32 := 1 << 28
  const GCF_ADDRISSTACK: bv32 := 1 << 24

  const GOF_NONE: bv32 := 0
  const GOF_GECKOREG: bv32 := 1 << 12
  const GOF_PTRORBASEADDR: bv32 := 1 << 16
  const GOF_ADDTO: bv32 := 1 << 20

  const GES_TRUE: bv32 := 0
  const GES_FALSE: bv32 := 0x1 << 20
  const GES_EITHER: bv32 := 0x2 << 20
  const GES_NONE: bv32 := 0xFF

  const GDT_8: bv32 := 0
  const GDT_16: bv32 := 0x1 << 20
  const GDT_32: bv32 := 0x2 << 20

  const GRO_ADD: bv32 := 0
  const GRO_MULTIPLY: bv32 := 0x1 << 20
  const GRO_OR: bv32 := 0x2 << 20
  const GRO_AND: bv32 := 0x3 << 20
  const GRO_XOR: bv32 := 0x4 << 20
  const GRO_SHIFTLEFT: bv32 := 0x5 << 20
  const GRO_SHIFTRIGHT: bv32 := 0x6 << 20
  const GRO_ROTATELEFT: bv32 := 0x7 << 20
  const GRO_SIGNEDSHIFTRIGHT: bv32 := 0x8 << 20
  const GRO_FLOATADD: bv32 := 0x9 << 20
  const GRO_FLOATMULTIPLY: bv32 := 0xA << 20

  const GROT_SRCVALUE_DSTVALUE: bv32 := 0
  const GROT_SRCDEREF_DSTVALUE: bv32 := 0x1 << 16
  const GROT_SRCVALUE_DSTDEREF: bv32 := 0x2 << 16
  const GROT_SRCDEREF_DSTDEREF: bv32 := 0x3 << 16

  /** GR_0 .. GR_15 are the values 0 .. 15; GB_0 .. GB_15 likewise. */
  const GR_0: bv32 := 0
  const GR_14: bv32 := 0xE
  const GR_15: bv32 := 0xF
  const GR_NONE: bv32 := 0xFF

  const GB_0: bv32 := 0
  const GB_15: bv32 := 0xF
  const GB_NONE: bv32 := 0xFF

  /** The eight code types, the values k << 29. */
  predicate IsCodeType(t: bv32) {
    t & 0x1FFF_FFFF == 0
  }

  /** The sub-types, the values k << 25 for k < 16. */
  predicate IsSubType(s: bv32) {
    s & 0xE1FF_FFFF == 0
  }

  /** A gecko register (or block) number, or the "none" marker the encoders replace. */
  predicate IsRegister(gr: bv32) {
    gr <= GR_15 || gr == GR_NONE
  }

  /** The code type of a first word: its top three bits. */
  function TypeOf(gecko: bv32): (t: bv32)
    ensures t < 8
  {
    gecko >> 29
  }

  /** The sub-type field of a first word: bits 25 to 28. */
  function SubTypeOf(gecko: bv32): (s: bv32)
    ensures s < 16
  {
    (gecko >> 25) & 0xF
  }

  /** Every enumerated code type is a code type and every enumerated sub-type a sub-type. */
  lemma {:induction false} EnumsWellFormed()
    ensures IsCodeType(GCT_WRITE) && IsCodeType(GCT_REGIF) && IsCodeType(GCT_BAORPO) && IsCodeType(GCT_CTRLFLW)
    ensures IsCodeType(GCT_GR) && IsCodeType(GCT_SPECIF) && IsCodeType(GCT_MISC) && IsCodeType(GCT_END)
    ensures IsSubType(GCST_WRITESTR) && IsSubType(GCST_WRITESRL) && IsSubType(GCST_IF16LSS)
    ensures IsSubType(GCST_POSETCODE) && IsSubType(GCST_GOSUB) && IsSubType(GCST_MEMCPYTOGR)
    ensures IsSubType(GCST_IFCNTR16LSS) && IsSubType(GCST_RNGCHCK) && IsSubType(GCST_ENDOFCODE)
  {
  }

  /**
   * A code type and a sub-type never share a bit, and OR-ing them keeps both
   * readable: the type from the top three bits, the sub-type from the next four.
   */
  lemma {:induction false} TypeAndSubTypeDisjoint(t: bv32, s: bv32)
    requires IsCodeType(t) && IsSubType(s)
    ensures t & s == 0
    ensures TypeOf(t | s) == t >> 29
    ensures SubTypeOf(t | s) == s >> 25
  {
  }

  /* --------------------------------------------------------------- records */

  /** The two words every emitter writes: the code word and the value word. */
  datatype Record = Record(gecko: bv32, value: bv32)

  /* Text form: "%08X %08X\n" as ASCII bytes. */

  /** The uppercase hex digit of a nibble, as "%X" prints it. */
  function HexDigitByte(n: bv32): (b: bv8)
    requires n < 16
  {
    if n < 10 then 0x30 + n as bv8 else 0x41 + (n - 10) as bv8
  }

  /** '0'..'9' or 'A'..'F': the digits "%X" prints, never lowercase. */
  predicate IsHexDigitByte(b: bv8) {
    (0x30 <= b <= 0x39) || (0x41 <= b <= 0x46)
  }

  function HexDigitValue(b: bv8): (n: bv32)
    requires IsHexDigitByte(b)
    ensures n < 16
  {
    if b <= 0x39 then (b - 0x30) as bv32 else (b - 0x41) as bv32 + 10
  }

  lemma {:induction false} HexDigitRoundTrip(n: bv32)
    requires n < 16
    ensures IsHexDigitByte(HexDigitByte(n)) && HexDigitValue(HexDigitByte(n)) == n
  {
  }

  /** "%08X": eight uppercase digits, most significant first. */
  function Hex8(w: bv32): (s: seq<bv8>)
    ensures |s| == 8
  {
    [HexDigitByte(w >> 28), HexDigitByte((w >> 24) & 0xF), HexDigitByte((w >> 20) & 0xF), HexDigitByte((w >> 16) & 0xF),
     HexDigitByte((w >> 12) & 0xF), HexDigitByte((w >> 8) & 0xF), HexDigitByte((w >> 4) & 0xF), HexDigitByte(w & 0xF)]
  }

  /** "%02X": two uppercase digits. */
  function Hex2(b: bv8): (s: seq<bv8>)
    ensures |s| == 2
  {
    [HexDigitByte((b >> 4) as bv32), HexDigitByte((b & 0xF) as bv32)]
  }

  predicate AllHexDigits(s: seq<bv8>) {
    forall i :: 0 <= i < |s| ==> IsHexDigitByte(s[i])
  }

  /** Reading eight hex digits back into a word. */
  function ParseHex8(s: seq<bv8>): bv32
    requires |s| == 8 && AllHexDigits(s)
  {
    (HexDigitValue(s[0]) << 28) | (HexDigitValue(s[1]) << 24) | (HexDigitValue(s[2]) << 20)
    | (HexDigitValue(s[3]) << 16) | (HexDigitValue(s[4]) << 12) | (HexDigitValue(s[5]) << 8)
    | (HexDigitValue(s[6]) << 4) | HexDigitValue(s[7])
  }

  lemma {:induction false} ParseDigits(n0: bv32, n1: bv32, n2: bv32, n3: bv32, n4: bv32, n5: bv32, n6: bv32, n7: bv32)
    requires n0 < 16 && n1 < 16 && n2 < 16 && n3 < 16 && n4 < 16 && n5 < 16 && n6 < 16 && n7 < 16
    ensures var s := [HexDigitByte(n0), HexDigitByte(n1), HexDigitByte(n2), HexDigitByte(n3),
                      HexDigitByte(n4), HexDigitByte(n5), HexDigitByte(n6), HexDigitByte(n7)];
      && AllHexDigits(s)
      && ParseHex8(s) == (n0 << 28) | (n1 << 24) | (n2 << 20) | (n3 << 16) | (n4 << 12) | (n5 << 8) | (n6 << 4) | n7
  {
    HexDigitRoundTrip(n0);
    HexDigitRoundTrip(n1);
    HexDigitRoundTrip(n2);
    HexDigitRoundTrip(n3);
    HexDigitRoundTrip(n4);
    HexDigitRoundTrip(n5);
    HexDigitRoundTrip(n6);
    HexDigitRoundTrip(n7);
  }

  lemma {:induction false} Reassemble(w: bv32)
    ensures ((w >> 28) << 28) | (((w >> 24) & 0xF) << 24) | (((w >> 20) & 0xF) << 20) | (((w >> 16) & 0xF) << 16)
      | (((w >> 12) & 0xF) << 12) | (((w >> 8) & 0xF) << 8) | (((w >> 4) & 0xF) << 4) | (w & 0xF) == w
  {
  }

  /** "%08X" is uppercase hex and reads back as the word printed. */
  lemma {:induction false} Hex8RoundTrip(w: bv32)
    ensures AllHexDigits(Hex8(w))
    ensures ParseHex8(Hex8(w)) == w
  {
    ParseDigits(w >> 28, (w >> 24) & 0xF, (w >> 20) & 0xF, (w >> 16) & 0xF,
                (w >> 12) & 0xF, (w >> 8) & 0xF, (w >> 4) & 0xF, w & 0xF);
    Reassemble(w);
  }

  const Space: bv8 := 0x20
  const Newline: bv8 := 0x0A

  /** `fprintf(G_OutputHandle, "%08X %08X\n", gecko, geckoVal)`. */
  function TextRecord(r: Record): seq<bv8> {
    Hex8(r.gecko) + [Space] + Hex8(r.value) + [Newline]
  }

  /** Binary form: each word byte-swapped to big-endian and written as four bytes. */
  function BigEndian(w: bv32): (s: seq<bv8>)
    ensures |s| == 4
  {
    [(w >> 24) as bv8, ((w >> 16) & 0xFF) as bv8, ((w >> 8) & 0xFF) as bv8, (w & 0xFF) as bv8]
  }

  function FromBigEndian(s: seq<bv8>): bv32
    requires |s| == 4
  {
    (s[0] as bv32 << 24) | (s[1] as bv32 << 16) | (s[2] as bv32 << 8) | s[3] as bv32
  }

  lemma {:induction false} BigEndianRoundTrip(w: bv32)
    ensures FromBigEndian(BigEndian(w)) == w
  {
  }

  function BinaryRecord(r: Record): seq<bv8> {
    BigEndian(r.gecko) + BigEndian(r.value)
  }

  /** `__G_PrintCodeType__`: the bytes one record adds to the output. */
  function RecordBytes(isBin: bool, r: Record): seq<bv8> {
    if isBin then BinaryRecord(r) else TextRecord(r)
  }

  /** Reading one record back from its bytes, in either form; None when the bytes are not a record. */
  function ParseRecord(isBin: bool, s: seq<bv8>): Option<Record> {
    if isBin then
      if |s| == 8 then Some(Record(FromBigEndian(s[..4]), FromBigEndian(s[4..]))) else None
    else if |s| == 18 && AllHexDigits(s[..8]) && s[8] == Space && AllHexDigits(s[9..17]) && s[17] == Newline then
      Some(Record(ParseHex8(s[..8]), ParseHex8(s[9..17])))
    else
      None
  }

  /**
   * A text record is 18 bytes: two blocks of eight uppercase digits, a space
   * and a newline; a binary record is 8 bytes. Either reads back as the record.
   */
  lemma {:induction false} RecordRoundTrip(isBin: bool, r: Record)
    ensures |RecordBytes(isBin, r)| == if isBin then 8 else 18
    ensures ParseRecord(isBin, RecordBytes(isBin, r)) == Some(r)
  {
    var s := RecordBytes(isBin, r);
    if isBin {
      assert s[..4] == BigEndian(r.gecko);
      assert s[4..] == BigEndian(r.value);
      BigEndianRoundTrip(r.gecko);
      BigEndianRoundTrip(r.value);
    } else {
      assert s[..8] == Hex8(r.gecko);
      assert s[9..17] == Hex8(r.value);
      Hex8RoundTrip(r.gecko);
      Hex8RoundTrip(r.value);
    }
  }

  /* ------------------------------------------------------- C integer model */

  const U32: nat := 0x1_0000_0000

  type Int16 = x: int | -0x8000 <= x < 0x8000

  /** Conversion of an int to int16_t: reduction modulo 2^16 into the signed range. */
  function Wrap16(x: int): (r: Int16)
  {
    (x + 0x8000) % 0x1_0000 - 0x8000
  }

  /** The int16_t value is congruent to the int modulo 2^16. */
  lemma {:induction false} Wrap16Residue(x: int)
    ensures (Wrap16(x) - x) % 0x1_0000 == 0
  {
  }

  lemma {:induction false} Wrap16Id(x: int)
    requires -0x8000 <= x < 0x8000
    ensures Wrap16(x) == x
  {
  }

  /** Wrap16 depends only on its argument modulo 2^16. */
  lemma {:induction false} Wrap16Congruent(x: int, y: int)
    requires (x - y) % 0x1_0000 == 0
    ensures Wrap16(x) == Wrap16(y)
  {
    var q := (x - y) / 0x1_0000;
    assert x == y + q * 0x1_0000;
    assert (x + 0x8000) % 0x1_0000 == (y + 0x8000 + q * 0x1_0000) % 0x1_0000;
    ModMultiple(y + 0x8000, q);
  }

  lemma {:induction false} ModMultiple(a: int, q: int)
    ensures (a + q * 0x1_0000) % 0x1_0000 == a % 0x1_0000
  {
  }

  /** Counting on from a wrapped value is wrapping the successor. */
  lemma {:induction false} Wrap16Succ(n: int)
    ensures Wrap16(Wrap16(n) + 1) == Wrap16(n + 1)
  {
    Wrap16Residue(n);
    Wrap16Congruent(Wrap16(n) + 1, n + 1);
  }

  /** Subtracting wrapped values is wrapping the difference. */
  lemma {:induction false} Wrap16Sub(a: int, b: int)
    ensures Wrap16(Wrap16(a) - Wrap16(b)) == Wrap16(a - b)
  {
    Wrap16Congruent(Wrap16(a) - Wrap16(b), a - b);
  }

  /**
   * The offset `G_GetLabel` computes from a label and the current line: the
   * absolute difference truncated to int16_t, negated when the label is
   * behind. That is the difference itself reduced to int16_t.
   */
  function LabelDistance(target: Int16, cur: Int16): (offs: Int16)
    ensures offs == Wrap16(target - cur)
    ensures -0x8000 <= target - cur < 0x8000 ==> offs == target - cur
  {
    var d := target - cur;
    var a := Wrap16(if d < 0 then -d else d);
    if cur > target then
      Wrap16Congruent(-(a as int), d);
      Wrap16(-(a as int))
    else
      a
  }

  /** `x & 0xFFFF` of a (possibly negative) int: its two's-complement low 16 bits. */
  function Low16Of(x: int): (r: bv32)
    ensures r < 0x1_0000
  {
    (x % 0x1_0000) as bv32
  }

  lemma {:induction false} LowBitsOr(hi: bv32, l: bv32)
    requires hi & 0xFFFF == 0 && l < 0x1_0000
    ensures (hi | l) & 0xFFFF == l
  {
  }

  function Pow2(s: nat): (p: nat)
    ensures p > 0
  {
    if s == 0 then 1 else 2 * Pow2(s - 1)
  }

  /** `__RoundUpToNearestS__(n, s)` in uint32_t arithmetic: ((((n - 1) >> s) + 1) >> 0) << s. */
  function RoundUpS(n: nat, s: nat): (r: nat)
    requires n < U32 && s < 32
    ensures r < U32
  {
    var m := (n - 1) % U32;
    ((m / Pow2(s) + 1) % U32 * Pow2(s)) % U32
  }

  /** `__RoundUpToNearest8__`: ceil(n / 8) * 8 modulo 2^32, so 0 stays 0. */
  lemma {:induction false} RoundUp8Means(n: nat)
    requires n < U32
    ensures RoundUpS(n, 3) == ((n + 7) / 8 * 8) % U32
    ensures n == 0 ==> RoundUpS(n, 3) == 0
    ensures 0 < n <= U32 - 8 ==> var r := RoundUpS(n, 3); r % 8 == 0 && n <= r < n + 8
  {
    assert Pow2(3) == 8;
    if n == 0 {
      assert (n - 1) % U32 == U32 - 1 && (U32 - 1) / 8 + 1 == 0x2000_0000;
    } else {
      var q := (n - 1) / 8;
      assert (n - 1) % U32 == n - 1 && n - 1 == 8 * q + (n - 1) % 8;
      assert (n + 7) / 8 == q + 1 && (q + 1) % U32 == q + 1;
    }
  }

  /** `__RoundUpToNearest2__`: ceil(n / 2) * 2 modulo 2^32; only n = 2^32 - 1 wraps (to 0). */
  lemma {:induction false} RoundUp2Means(n: nat)
    requires n < U32
    ensures RoundUpS(n, 1) == ((n + 1) / 2 * 2) % U32
    ensures n < U32 - 1 ==> var r := RoundUpS(n, 1); r % 2 == 0 && n <= r <= n + 1
    ensures n == U32 - 1 ==> RoundUpS(n, 1) == 0
  {
    assert Pow2(1) == 2;
    if n == 0 {
      assert (n - 1) % U32 == U32 - 1 && (U32 - 1) / 2 + 1 == 0x8000_0000;
    } else {
      var q := (n - 1) / 2;
      assert (n - 1) % U32 == n - 1 && n - 1 == 2 * q + (n - 1) % 2;
      assert (n + 1) / 2 == q + 1 && (q + 1) % U32 == q + 1;
    }
  }
}
