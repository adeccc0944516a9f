/**
 * bin2c from compile.py: turns a binary file into a C source file declaring the
 * bytes as an array of 8-, 16- or 32-bit words plus its element count. The file
 * contents and the filesystem facts the function asks about are parameters.
 */
module Bin2C {
  import opened Wrappers
  import opened PyStr

  /** bin2cSize: the word width, in bytes 1, 2 or 4. */
  datatype Width = UInt8 | UInt16 | UInt32

  function Bytes(w: Width): (n: nat)
    ensures n == 1 || n == 2 || n == 4
  {
    match w
    case UInt8 => 1
    case UInt16 => 2
    case UInt32 => 4
  }

  /** The limit named in the size error, in GiB. */
  function MaxGiB(w: Width): nat {
    match w
    case UInt8 => 4
    case UInt16 => 2
    case UInt32 => 1
  }

  const MaxSize: nat := 0xFFFF_FFFF
  const ChunkSize: nat := 1024 * 64

  /** Every byte of a name that is not allowed in a C identifier fragment here. */
  function NameForbidden(): string { ": \\/\"'.%-" }

  /**
   * The sanitised file name: each forbidden character in turn is replaced by
   * '_'. The `all(...)` walrus loop only stops early on an empty string, and a
   * name that holds the character is never empty, so every character is handled.
   */
  function SanitizeName(name: string): string {
    ReplaceEach(name, NameForbidden(), '_')
  }

  /** The sanitised name keeps its length and every allowed character, and has no forbidden one left. */
  lemma {:induction false} SanitizeNameMeans(name: string)
    ensures |SanitizeName(name)| == |name|
    ensures forall i :: 0 <= i < |name| ==>
      SanitizeName(name)[i] == if name[i] in NameForbidden() then '_' else name[i]
    ensures forall i :: 0 <= i < |name| ==> SanitizeName(name)[i] !in NameForbidden()
  {
    ReplaceEachMeans(name, NameForbidden(), '_');
  }

  /* ------------------------------------------------------------ groups */

  function Min(a: nat, b: nat): nat {
    if a <= b then a else b
  }

  /** W * g, where group g starts; written per width so that it stays linear. */
  function Start(w: Width, g: nat): nat {
    match w
    case UInt8 => g
    case UInt16 => 2 * g
    case UInt32 => 4 * g
  }

  /** ceil(size / W): how many groups the data splits into, the last one possibly short. */
  function Count(size: nat, w: Width): nat {
    match w
    case UInt8 => size
    case UInt16 => (size + 1) / 2
    case UInt32 => (size + 3) / 4
  }

  lemma {:induction false} CountBounds(size: nat, w: Width)
    ensures var n, k := Count(size, w), Bytes(w);
      size <= Start(w, n) && (n > 0 ==> Start(w, n - 1) < size) && (size % k == 0 ==> Start(w, n) == size)
  {
  }

  /** Group g: the bytes W*g up to W*g + W, cut at the end of the data. */
  function Group(data: seq<bv8>, w: Width, g: nat): seq<bv8>
    requires g < Count(|data|, w)
  {
    CountBounds(|data|, w);
    data[Start(w, g) .. Min(Start(w, g) + Bytes(w), |data|)]
  }

  function Groups(data: seq<bv8>, w: Width): seq<seq<bv8>> {
    seq(Count(|data|, w), g requires 0 <= g < Count(|data|, w) => Group(data, w, g))
  }

  /** The groups split the data: read back in order they are the data, and none is empty or longer than W. */
  lemma {:induction false} GroupsPartition(data: seq<bv8>, w: Width)
    ensures Concat(Groups(data, w)) == data
    ensures forall g :: 0 <= g < |Groups(data, w)| ==> 0 < |Groups(data, w)[g]| <= Bytes(w)
    ensures |data| % Bytes(w) == 0 ==> forall g :: 0 <= g < |Groups(data, w)| ==> |Groups(data, w)[g]| == Bytes(w)
  {
    GroupsConcat(data, w);
    GroupSizes(data, w);
  }

  lemma {:induction false} GroupsConcat(data: seq<bv8>, w: Width)
    ensures Concat(Groups(data, w)) == data
  {
    var gs := Groups(data, w);
    CountBounds(|data|, w);
    GroupsPrefix(data, w, |gs|);
    assert gs[..|gs|] == gs;
  }

  lemma {:induction false} GroupSizes(data: seq<bv8>, w: Width)
    ensures forall g :: 0 <= g < |Groups(data, w)| ==> 0 < |Groups(data, w)[g]| <= Bytes(w)
    ensures |data| % Bytes(w) == 0 ==> forall g :: 0 <= g < |Groups(data, w)| ==> |Groups(data, w)[g]| == Bytes(w)
  {
    CountBounds(|data|, w);
  }

  lemma {:induction false} GroupsPrefix(data: seq<bv8>, w: Width, n: nat)
    requires n <= Count(|data|, w)
    ensures Concat(Groups(data, w)[..n]) == data[..Min(Start(w, n), |data|)]
  {
    if n > 0 {
      GroupsPrefix(data, w, n - 1);
      var gs := Groups(data, w);
      var a, m := Start(w, n - 1), Min(Start(w, n), |data|);
      LastGroup(data, w, n);
      ConcatAppend(gs[..n - 1], [data[a..m]]);
      ConcatOne(data[a..m]);
      PrefixSplit(data, a, m);
    }
  }

  /** The first n groups are the first n - 1 and the bytes from W*(n-1) to W*n, cut at the end of the data. */
  lemma {:induction false} LastGroup(data: seq<bv8>, w: Width, n: nat)
    requires 0 < n <= Count(|data|, w)
    ensures Start(w, n - 1) <= Min(Start(w, n), |data|) <= |data|
    ensures Min(Start(w, n - 1), |data|) == Start(w, n - 1)
    ensures Groups(data, w)[..n] == Groups(data, w)[..n - 1] + [data[Start(w, n - 1) .. Min(Start(w, n), |data|)]]
  {
    CountBounds(|data|, w);
    var gs := Groups(data, w);
    assert Start(w, n) == Start(w, n - 1) + Bytes(w);
    assert gs[n - 1] == Group(data, w, n - 1);
    assert gs[..n] == gs[..n - 1] + [gs[n - 1]];
  }

  lemma {:induction false} PrefixSplit<T>(s: seq<T>, a: nat, m: nat)
    requires a <= m <= |s|
    ensures s[..a] + s[a..m] == s[..m]
  {
  }

  /* --------------------------------------------------------------- hex */

  function HexDigit(d: nat): (c: char)
    requires d < 16
  {
    "0123456789abcdef"[d]
  }

  predicate IsHexDigit(c: char) {
    '0' <= c <= '9' || 'a' <= c <= 'f'
  }

  function HexDigitValue(c: char): (d: nat)
    requires IsHexDigit(c)
    ensures d < 16
  {
    if c <= '9' then c as int - '0' as int else c as int - 'a' as int + 10
  }

  lemma {:induction false} HexDigitRoundTrip(d: nat)
    requires d < 16
    ensures IsHexDigit(HexDigit(d)) && HexDigitValue(HexDigit(d)) == d
  {
  }

  /** bytes.hex(): two lower-case hex digits per byte, high nibble first. */
  function Hex(bs: seq<bv8>): (s: string)
    ensures |s| == 2 * |bs|
  {
    if bs == [] then []
    else
      var b := bs[|bs| - 1] as nat;
      Hex(bs[..|bs| - 1]) + [HexDigit(b / 16), HexDigit(b % 16)]
  }

  predicate AllHex(s: string) {
    forall i :: 0 <= i < |s| ==> IsHexDigit(s[i])
  }

  /** Python's f'{s:0>{n}}': right-aligned in a field of n, filled with '0'. */
  function LeftPad(s: string, n: nat): (r: string)
    ensures |r| == if |s| >= n then |s| else n
  {
    if |s| >= n then s else seq(n - |s|, _ => '0') + s
  }

  /** One array element: `0x` and the group's hex, padded to 2W digits. */
  function Element(w: Width, group: seq<bv8>): string {
    "0x" + LeftPad(Hex(group), 2 * Bytes(w))
  }

  function Elements(data: seq<bv8>, w: Width): seq<string> {
    seq(Count(|data|, w), g requires 0 <= g < Count(|data|, w) => Element(w, Group(data, w, g)))
  }

  /** The array's initialiser: the elements joined by ", ". */
  function Body(data: seq<bv8>, w: Width): string {
    Join(Elements(data, w), ", ")
  }

  /* ----------------------------------------------------- reading back */

  /** The number a hex digit string denotes. */
  function HexValue(s: string): nat
    requires AllHex(s)
  {
    if s == [] then 0 else 16 * HexValue(s[..|s| - 1]) + HexDigitValue(s[|s| - 1])
  }

  /** The big-endian number a byte string denotes. */
  function BigEndian(bs: seq<bv8>): nat {
    if bs == [] then 0 else 256 * BigEndian(bs[..|bs| - 1]) + bs[|bs| - 1] as nat
  }

  /** Two hex digits per byte back into bytes. */
  function DecodeHex(s: string): seq<bv8>
    requires AllHex(s) && |s| % 2 == 0
  {
    if s == [] then []
    else
      DecodeHex(s[..|s| - 2]) + [(16 * HexDigitValue(s[|s| - 2]) + HexDigitValue(s[|s| - 1])) as bv8]
  }

  lemma {:induction false} HexIsHex(bs: seq<bv8>)
    ensures AllHex(Hex(bs))
  {
    if bs != [] {
      HexIsHex(bs[..|bs| - 1]);
      var b := bs[|bs| - 1] as nat;
      HexDigitRoundTrip(b / 16);
      HexDigitRoundTrip(b % 16);
    }
  }

  /** One byte's two digits decode to the byte. */
  lemma {:induction false} ByteRoundTrip(b: bv8)
    ensures var v := b as nat;
      IsHexDigit(HexDigit(v / 16)) && IsHexDigit(HexDigit(v % 16))
      && (16 * HexDigitValue(HexDigit(v / 16)) + HexDigitValue(HexDigit(v % 16))) as bv8 == b
  {
    ByteDigits(b as nat);
  }

  lemma {:induction false} ByteDigits(v: nat)
    requires v < 256
    ensures IsHexDigit(HexDigit(v / 16)) && IsHexDigit(HexDigit(v % 16))
    ensures 16 * HexDigitValue(HexDigit(v / 16)) + HexDigitValue(HexDigit(v % 16)) == v
  {
    HexDigitRoundTrip(v / 16);
    HexDigitRoundTrip(v % 16);
  }

  /** Decoding the hex of some bytes gives the bytes back. */
  lemma {:induction false} HexRoundTrip(bs: seq<bv8>)
    ensures AllHex(Hex(bs)) && DecodeHex(Hex(bs)) == bs
  {
    HexIsHex(bs);
    if bs != [] {
      var s := Hex(bs);
      var front := bs[..|bs| - 1];
      ByteRoundTrip(bs[|bs| - 1]);
      assert s[..|s| - 2] == Hex(front);
      HexRoundTrip(front);
      assert bs == front + [bs[|bs| - 1]];
    }
  }

  lemma {:induction false} HexValueSnoc(p: string, hi: char, lo: char)
    requires AllHex(p) && IsHexDigit(hi) && IsHexDigit(lo)
    ensures AllHex(p + [hi, lo])
    ensures HexValue(p + [hi, lo]) == 256 * HexValue(p) + 16 * HexDigitValue(hi) + HexDigitValue(lo)
  {
    var s := p + [hi, lo];
    assert s[..|s| - 1] == p + [hi];
    assert (p + [hi])[..|p|] == p;
  }

  /** The hex of some bytes denotes their big-endian value. */
  lemma {:induction false} HexValueIsBigEndian(bs: seq<bv8>)
    ensures AllHex(Hex(bs)) && HexValue(Hex(bs)) == BigEndian(bs)
  {
    HexIsHex(bs);
    if bs != [] {
      var front := bs[..|bs| - 1];
      var v := bs[|bs| - 1] as nat;
      HexDigitRoundTrip(v / 16);
      HexDigitRoundTrip(v % 16);
      HexIsHex(front);
      HexValueIsBigEndian(front);
      HexValueSnoc(Hex(front), HexDigit(v / 16), HexDigit(v % 16));
    }
  }

  /** Leading zeros do not change the value. */
  lemma {:induction false} HexValueLeftPad(s: string, n: nat)
    requires AllHex(s)
    ensures AllHex(LeftPad(s, n)) && HexValue(LeftPad(s, n)) == HexValue(s)
    decreases |s|
  {
    var r := LeftPad(s, n);
    if |s| < n {
      if s == [] {
        ZerosValue(r);
      } else {
        HexValueLeftPad(s[..|s| - 1], n - 1);
        assert r[..|r| - 1] == LeftPad(s[..|s| - 1], n - 1);
      }
    }
  }

  lemma {:induction false} ZerosValue(s: string)
    requires forall i :: 0 <= i < |s| ==> s[i] == '0'
    ensures AllHex(s) && HexValue(s) == 0
  {
    if s != [] {
      ZerosValue(s[..|s| - 1]);
    }
  }

  /**
   * What a C compiler reads from an element: `0x`, then exactly 2W hex digits
   * whose value is the group's big-endian value, the short final group included.
   */
  lemma {:induction false} ElementValue(w: Width, group: seq<bv8>)
    requires |group| <= Bytes(w)
    ensures var e := Element(w, group);
      |e| == 2 + 2 * Bytes(w) && e[..2] == "0x" && AllHex(e[2..])
      && HexValue(e[2..]) == BigEndian(group)
  {
    var e := Element(w, group);
    HexValueIsBigEndian(group);
    HexValueLeftPad(Hex(group), 2 * Bytes(w));
    assert e[2..] == LeftPad(Hex(group), 2 * Bytes(w));
  }

  /** The bytes an element spells out as hex digit pairs. */
  function DecodeElement(e: string): seq<bv8>
    requires |e| >= 2 && |e| % 2 == 0 && AllHex(e[2..])
  {
    DecodeHex(e[2..])
  }

  /** A full group comes back unchanged from its element. */
  lemma {:induction false} ElementRoundTrip(w: Width, group: seq<bv8>)
    requires |group| == Bytes(w)
    ensures var e := Element(w, group);
      |e| >= 2 && |e| % 2 == 0 && AllHex(e[2..]) && DecodeElement(e) == group
  {
    var e := Element(w, group);
    HexRoundTrip(group);
    assert e[2..] == Hex(group);
  }

  /** When the size is a multiple of W, decoding every element in order gives back the data. */
  lemma {:induction false} ElementsRoundTrip(data: seq<bv8>, w: Width)
    requires |data| % Bytes(w) == 0
    ensures var es := Elements(data, w);
      forall g :: 0 <= g < |es| ==> |es[g]| >= 2 && |es[g]| % 2 == 0 && AllHex(es[g][2..])
    ensures var es := Elements(data, w);
      Concat(seq(|es|, g requires 0 <= g < |es| && |es[g]| >= 2 && |es[g]| % 2 == 0 && AllHex(es[g][2..]) =>
        DecodeElement(es[g]))) == data
  {
    var es := Elements(data, w);
    var gs := Groups(data, w);
    GroupsPartition(data, w);
    forall g | 0 <= g < |es|
      ensures |es[g]| >= 2 && |es[g]| % 2 == 0 && AllHex(es[g][2..]) && DecodeElement(es[g]) == gs[g]
    {
      ElementRoundTrip(w, gs[g]);
    }
    var ds := seq(|es|, g requires 0 <= g < |es| && |es[g]| >= 2 && |es[g]| % 2 == 0 && AllHex(es[g][2..]) =>
      DecodeElement(es[g]));
    assert ds == gs;
  }

  /* ------------------------------------------------------ the C file */

  function Banner(): string { "// Generated by bin2c, do not modify.\n" }
  function StdintInclude(): string { "\n#include <stdint.h>\n\n" }

  /** The array's declarator, `uint<8W>_t *<name>_data`. */
  function DataName(name: string, w: Width): string {
    "uint" + Decimal(8 * Bytes(w)) + "_t *" + name + "_data"
  }

  /** The count's declarator, `int32_t <name>_length`. */
  function LengthName(name: string): string {
    "int32_t " + name + "_length"
  }

  /** Everything before the elements. */
  function Prefix(name: string, w: Width): string {
    Banner() + StdintInclude() + DataName(name, w) + " = { "
  }

  /** Everything after the elements, given the element count. */
  function Suffix(name: string, count: nat): string {
    " };\n\n" + LengthName(name) + " = " + Decimal(count) + ";\n"
  }

  /** What bin2c asks the filesystem, as answered at the time of the call. */
  datatype Fs = Fs(srcdirExists: bool, srcdirIsFile: bool, srcPathExists: bool, srcPathIsFile: bool)

  datatype OutFile = OutFile(path: string, text: string)

  function SizeError(w: Width): string {
    "Max " + Decimal(MaxGiB(w)) + " GiB supported"
  }

  datatype PathProblem = DoesNotExist | NotADirectory | ExistsAsDirectory

  /** The exception text for a path bin2c cannot use. */
  function PathError(path: string, p: PathProblem): string {
    "ERROR: \"" + path + "\" " +
      match p
      case DoesNotExist => "does not exist"
      case NotADirectory => "is not a directory"
      case ExistsAsDirectory => "already exists as a directory"
  }

  /** The generated file's path: `<srcdir>/<name>.c` (resolve() is not modelled). */
  function SourcePath(srcdir: string, name: string): string {
    srcdir + "/" + name + ".c"
  }

  /**
   * The whole of bin2c without a header directory: the size check, then the
   * output directory checks, then the C text.
   */
  function Bin2CResult(binName: string, w: Width, data: seq<bv8>, srcdir: string, fs: Fs): Result<OutFile, string> {
    var name := SanitizeName(binName);
    var srcPath := SourcePath(srcdir, name);
    if |data| * Bytes(w) > MaxSize then Failure(SizeError(w))
    else if !fs.srcdirExists then Failure(PathError(srcdir, DoesNotExist))
    else if fs.srcdirIsFile then Failure(PathError(srcdir, NotADirectory))
    else if fs.srcPathExists && !fs.srcPathIsFile then Failure(PathError(srcPath, ExistsAsDirectory))
    else
      Success(OutFile(srcPath, Prefix(name, w) + Body(data, w) + Suffix(name, Count(|data|, w))))
  }

  /** bin2c refuses exactly the data longer than 0xFFFFFFFF / W bytes, naming 4, 2 or 1 GiB; W times that is always 4 GiB. */
  lemma {:induction false} SizeLimit(binName: string, w: Width, data: seq<bv8>, srcdir: string, fs: Fs)
    ensures Bin2CResult(binName, w, data, srcdir, fs) == Failure(SizeError(w)) <==> |data| * Bytes(w) > MaxSize
    ensures MaxGiB(w) * Bytes(w) == 4
  {
    var r := Bin2CResult(binName, w, data, srcdir, fs);
    if |data| * Bytes(w) <= MaxSize && r.Failure? {
      var name := SanitizeName(binName);
      var path := if !fs.srcdirExists || fs.srcdirIsFile then srcdir else SourcePath(srcdir, name);
      var p := if !fs.srcdirExists then DoesNotExist else if fs.srcdirIsFile then NotADirectory else ExistsAsDirectory;
      assert r.error == PathError(path, p);
      PathErrorIsNotSizeError(path, p, w);
    }
  }

  /** The two kinds of error text start differently ("ERROR" and "Max "). */
  lemma {:induction false} PathErrorIsNotSizeError(path: string, p: PathProblem, w: Width)
    ensures PathError(path, p) != SizeError(w)
  {
    assert PathError(path, p)[..5] == "ERROR";
    assert SizeError(w)[..5] == "Max " + [DigitChar(MaxGiB(w))];
  }

  /** The text of Python's NameError for an undefined name. */
  function NameError(name: string): string {
    "name '" + name + "' is not defined"
  }

  /**
   * bin2c as written: right after opening the input it calls
   * `br.seek(0, os.SEEK_END)`, but compile.py binds only `getenv` and `sep`
   * from os, never `os` itself, so every call raises a NameError.
   */
  function Bin2CAsWritten(binName: string, w: Width, data: seq<bv8>, srcdir: string, fs: Fs): Result<OutFile, string> {
    Failure(NameError("os"))
  }

  /** As written, bin2c never writes a file and never raises one of the errors it means to raise. */
  lemma {:induction false} Bin2CAsWrittenNeverIntended(binName: string, w: Width, data: seq<bv8>, srcdir: string, fs: Fs)
    ensures Bin2CAsWritten(binName, w, data, srcdir, fs).Failure?
    ensures Bin2CAsWritten(binName, w, data, srcdir, fs) != Bin2CResult(binName, w, data, srcdir, fs)
  {
    var r := Bin2CResult(binName, w, data, srcdir, fs);
    if r.Failure? {
      var e := r.error;
      assert e[0] == 'M' || e[0] == 'E';
      assert NameError("os")[0] == 'n';
    }
  }

  /** The text written out is the prefix, the elements joined by ", ", and the suffix naming ceil(size / W). */
  lemma {:induction false} Bin2CSuccess(binName: string, w: Width, data: seq<bv8>, srcdir: string, fs: Fs)
    requires Bin2CResult(binName, w, data, srcdir, fs).Success?
    ensures var f := Bin2CResult(binName, w, data, srcdir, fs).value;
      var name := SanitizeName(binName);
      f.path == SourcePath(srcdir, name)
      && f.text == Prefix(name, w) + Join(Elements(data, w), ", ") + Suffix(name, Count(|data|, w))
      && |Elements(data, w)| == Count(|data|, w)
      && |data| <= Start(w, Count(|data|, w)) < |data| + Bytes(w)
  {
    CountBounds(|data|, w);
  }

  /* ---------------------------------------------------- the encoder loop */

  /** Elements 0 .. n-1 of es, each followed by ", " unless it is the last of es. */
  function JoinedUpTo(es: seq<string>, n: nat): string
    requires n <= |es|
  {
    if n == 0 then [] else JoinedUpTo(es, n - 1) + es[n - 1] + (if n < |es| then ", " else "")
  }

  lemma {:induction false} JoinedUpToJoin(es: seq<string>, n: nat)
    requires n <= |es|
    ensures JoinedUpTo(es, n) == Join(es[..n], ", ") + (if 0 < n < |es| then ", " else "")
  {
    if n > 0 {
      JoinedUpToJoin(es, n - 1);
      assert es[..n] == es[..n - 1] + [es[n - 1]];
      JoinSnoc(es[..n - 1], es[n - 1], ", ");
    }
  }

  /** Appending group n's element, and ", " when more data follows it. */
  lemma {:induction false} NextElement(data: seq<bv8>, w: Width, n: nat, next: nat)
    requires n < Count(|data|, w) && next == n + 1
    ensures Elements(data, w)[n] == "0x" + LeftPad(Hex(Group(data, w, n)), 2 * Bytes(w))
    ensures JoinedUpTo(Elements(data, w), next) ==
      JoinedUpTo(Elements(data, w), n) + Elements(data, w)[n] + (if Start(w, next) < |data| then ", " else "")
  {
    JoinedStep(Elements(data, w), n, next);
    MoreData(|data|, w, next);
  }

  /** One more element joined: the element, then ", " unless it is the last. */
  lemma {:induction false} JoinedStep(es: seq<string>, n: nat, next: nat)
    requires n < |es| && next == n + 1
    ensures JoinedUpTo(es, next) == JoinedUpTo(es, n) + es[n] + (if next < |es| then ", " else "")
  {
    assert next - 1 == n;
  }

  /* Arithmetic of the loop, split on the width so that every product is by a constant. */

  lemma {:induction false} GroupStart(w: Width, n: nat)
    ensures Start(w, n) / Bytes(w) == n && Start(w, n) % Bytes(w) == 0
    ensures Start(w, n + 1) == Start(w, n) + Bytes(w)
  {
  }

  /** n groups reach past the data exactly when n is the count. */
  lemma {:induction false} CountUnique(size: nat, w: Width, n: nat)
    requires size <= Start(w, n) && (n == 0 || Start(w, n - 1) < size)
    ensures n == Count(size, w)
  {
  }

  lemma {:induction false} MoreData(size: nat, w: Width, n: nat)
    requires n <= Count(size, w)
    ensures Start(w, n) < size <==> n < Count(size, w)
  {
    CountBounds(size, w);
    match w
    case UInt8 =>
    case UInt16 =>
    case UInt32 =>
  }

  /** A chunk holds whole groups only, so a group read inside a chunk is never cut by the chunk's end before the data's. */
  lemma {:induction false} GroupInChunk(data: seq<bv8>, w: Width, pos: nat, c: nat, chunk: seq<bv8>, j: nat, n: nat)
    requires pos == ChunkSize * c && pos < |data| && chunk == data[pos .. Min(pos + ChunkSize, |data|)]
    requires j < |chunk| && pos + j == Start(w, n)
    ensures n < Count(|data|, w)
    ensures chunk[j .. Min(j + Bytes(w), |chunk|)] == Group(data, w, n)
  {
    var k := Bytes(w);
    var size := |data|;
    CountBounds(size, w);
    MoreData(size, w, n);
    WholeGroups(w, c, n);
    assert pos + Min(j + k, |chunk|) == Min(Start(w, n) + k, size);
    SliceOfSlice(data, pos, Min(pos + ChunkSize, size), j, Min(j + k, |chunk|));
  }

  lemma {:induction false} SliceOfSlice<T>(s: seq<T>, a: nat, b: nat, i: nat, j: nat)
    requires a <= b <= |s| && i <= j <= b - a
    ensures s[a..b][i..j] == s[a + i..a + j]
  {
    forall t | 0 <= t < j - i
      ensures s[a..b][i..j][t] == s[a + i..a + j][t]
    {
      assert s[a..b][i..j][t] == s[a..b][i + t];
    }
  }

  /** A group that starts inside a chunk also ends inside it (64 KiB is a multiple of W). */
  lemma {:induction false} WholeGroups(w: Width, c: nat, n: nat)
    requires Start(w, n) < ChunkSize * c + ChunkSize
    ensures Start(w, n) + Bytes(w) <= ChunkSize * c + ChunkSize
  {
    match w
    case UInt8 =>
    case UInt16 =>
    case UInt32 =>
  }

  /** After a chunk: either the next chunk starts where the groups stopped, or the data is done. */
  lemma {:induction false} ChunkDone(size: nat, w: Width, pos: nat, c: nat, n: nat, next: nat)
    requires pos == ChunkSize * c && pos < size && next == Min(pos + ChunkSize, size)
    requires next <= Start(w, n) < next + Bytes(w)
    ensures next <= size
    ensures next < size ==> next == ChunkSize * (c + 1) && Start(w, n) == next
    ensures next == size ==> n == Count(size, w)
  {
    if pos + ChunkSize >= size {
      CountUnique(size, w, n);
    } else {
      match w
      case UInt8 =>
      case UInt16 =>
        assert 2 * n >= 2 * (32768 * (c + 1)) && 2 * n < 2 * (32768 * (c + 1) + 1);
      case UInt32 =>
        assert 4 * n >= 4 * (16384 * (c + 1)) && 4 * n < 4 * (16384 * (c + 1) + 1);
    }
  }

  /**
   * The outer read loop: 64 KiB chunks until the data is exhausted. The body
   * equals the elements joined by ", " and i / W is the element count.
   */
  method EncodeBody(data: seq<bv8>, w: Width) returns (body: string, i: nat)
    ensures body == Body(data, w)
    ensures i / Bytes(w) == Count(|data|, w)
  {
    var k := Bytes(w);
    var size := |data|;
    ghost var es := Elements(data, w);
    ghost var n: nat := 0;
    ghost var c: nat := 0;
    body := "";
    i := 0;
    var pos := 0;
    while pos < size
      invariant pos <= size && i == Start(w, n) && n <= |es|
      invariant pos < size ==> pos == ChunkSize * c && i == pos
      invariant pos == size ==> n == |es|
      invariant body == JoinedUpTo(es, n)
      decreases size - pos
    {
      body, i, n, pos := ReadChunk(data, w, pos, c, body, i, n);
      c := c + 1;
    }
    GroupStart(w, n);
    JoinedUpToJoin(es, n);
    assert es[..n] == es;
  }

  /** One turn of the outer loop: read up to 64 KiB at `pos` and write its groups. */
  method ReadChunk(data: seq<bv8>, w: Width, pos0: nat, ghost c: nat, body0: string, i0: nat, ghost n0: nat)
    returns (body: string, i: nat, ghost n: nat, pos: nat)
    requires pos0 < |data| && pos0 == ChunkSize * c && i0 == pos0 && i0 == Start(w, n0) && n0 <= Count(|data|, w)
    requires body0 == JoinedUpTo(Elements(data, w), n0)
    ensures pos0 < pos <= |data| && i == Start(w, n) && n <= Count(|data|, w)
    ensures pos < |data| ==> pos == ChunkSize * (c + 1) && i == pos
    ensures pos == |data| ==> n == Count(|data|, w)
    ensures body == JoinedUpTo(Elements(data, w), n)
  {
    var chunk := data[pos0 .. Min(pos0 + ChunkSize, |data|)];
    body, i, n := EncodeChunk(data, w, pos0, c, chunk, body0, i0, n0);
    ChunkDone(|data|, w, pos0, c, n, pos0 + |chunk|);
    pos := pos0 + |chunk|;
  }

  /** One turn of the inner loop: writing the group read next extends the body by element n. */
  lemma {:induction false} ChunkStep(data: seq<bv8>, w: Width, pos: nat, c: nat, chunk: seq<bv8>, j: nat, n: nat,
                                     next: nat, body: string, bb: seq<bv8>, i0: nat, k: nat, i: nat)
    requires pos == ChunkSize * c && pos < |data| && chunk == data[pos .. Min(pos + ChunkSize, |data|)]
    requires j < |chunk| && pos + j == Start(w, n) && next == n + 1 && k == Bytes(w)
    requires bb == chunk[j .. Min(j + k, |chunk|)] && i0 == pos + j && i == i0 + k
    requires body == JoinedUpTo(Elements(data, w), n)
    ensures next <= Count(|data|, w) && i0 % k == 0 && i == Start(w, next)
    ensures var e := body + "0x" + LeftPad(Hex(bb), 2 * k);
      JoinedUpTo(Elements(data, w), next) == if i < |data| then e + ", " else e
  {
    GroupInChunk(data, w, pos, c, chunk, j, n);
    StepArith(w, n, next, i0, k, i);
    NextElement(data, w, n, next);
    var hex := LeftPad(Hex(bb), 2 * k);
    assert Elements(data, w)[n] == "0x" + hex;
    var sep := if i < |data| then ", " else "";
    assert JoinedUpTo(Elements(data, w), next) == body + ("0x" + hex) + sep;
    AppendAssoc(body, "0x", hex);
    if i >= |data| {
      assert body + "0x" + hex + "" == body + "0x" + hex;
    }
  }

  /** The next group starts W bytes on, at a multiple of W. */
  lemma {:induction false} StepArith(w: Width, n: nat, next: nat, i0: nat, k: nat, i: nat)
    requires next == n + 1 && k == Bytes(w) && i0 == Start(w, n) && i == i0 + k
    ensures i0 % k == 0 && i == Start(w, next)
  {
    GroupStart(w, n);
  }

  /**
   * The inner read loop over one chunk: W bytes at a time, each group written
   * as `0x` and its padded hex, then ", " while the position is short of the
   * size. `i` grows by W per group, so its `i % W == 0` test always holds.
   */
  method EncodeChunk(data: seq<bv8>, w: Width, pos: nat, ghost c: nat, chunk: seq<bv8>,
                     body0: string, i0: nat, ghost n0: nat)
    returns (body: string, i: nat, ghost n: nat)
    requires pos == ChunkSize * c && pos < |data| && chunk == data[pos .. Min(pos + ChunkSize, |data|)]
    requires i0 == pos && i0 == Start(w, n0) && n0 <= Count(|data|, w)
    requires body0 == JoinedUpTo(Elements(data, w), n0)
    ensures i == Start(w, n) && n <= Count(|data|, w)
    ensures pos + |chunk| <= i < pos + |chunk| + Bytes(w)
    ensures body == JoinedUpTo(Elements(data, w), n)
  {
    var k := Bytes(w);
    var size := |data|;
    body, i, n := body0, i0, n0;
    var j := 0;
    while j < |chunk|
      invariant i == pos + j && i == Start(w, n) && n <= Count(|data|, w)
      invariant j < |chunk| + k
      invariant body == JoinedUpTo(Elements(data, w), n)
      decreases |chunk| - j
    {
      body, i, n, j := NextGroup(data, w, pos, c, chunk, j, n, body, i, k, size);
    }
  }

  /** One turn of the inner loop, from the loop's own variables to their next values. */
  method NextGroup(data: seq<bv8>, w: Width, pos: nat, ghost c: nat, chunk: seq<bv8>, j0: nat, ghost n0: nat,
                   body0: string, i0: nat, k: nat, size: nat) returns (body: string, i: nat, ghost n: nat, j: nat)
    requires pos == ChunkSize * c && pos < |data| && chunk == data[pos .. Min(pos + ChunkSize, |data|)]
    requires k == Bytes(w) && size == |data| && j0 < |chunk|
    requires i0 == pos + j0 && i0 == Start(w, n0) && n0 <= Count(|data|, w)
    requires body0 == JoinedUpTo(Elements(data, w), n0)
    ensures i == pos + j && i == Start(w, n) && n <= Count(|data|, w)
    ensures j0 < j < |chunk| + k
    ensures body == JoinedUpTo(Elements(data, w), n)
  {
    var bb := chunk[j0 .. Min(j0 + k, |chunk|)];
    body, i, n := WriteGroup(data, w, pos, c, chunk, j0, n0, body0, bb, i0, k, size);
    j := j0 + k;
  }

  /** The body of the inner loop: one group of `W` bytes and the separator after it. */
  method WriteGroup(data: seq<bv8>, w: Width, pos: nat, ghost c: nat, chunk: seq<bv8>, ghost j: nat, ghost n: nat,
                    body0: string, bb: seq<bv8>, i0: nat, k: nat, size: nat) returns (body: string, i: nat, ghost n': nat)
    requires pos == ChunkSize * c && pos < |data| && chunk == data[pos .. Min(pos + ChunkSize, |data|)]
    requires j < |chunk| && pos + j == Start(w, n) && i0 == pos + j && k == Bytes(w) && size == |data|
    requires n <= Count(|data|, w) && body0 == JoinedUpTo(Elements(data, w), n)
    requires bb == chunk[j .. Min(j + k, |chunk|)]
    ensures n' == n + 1 && i == i0 + k && n' <= Count(|data|, w) && i == Start(w, n')
    ensures body == JoinedUpTo(Elements(data, w), n')
  {
    n' := n + 1;
    ChunkStep(data, w, pos, c, chunk, j, n, n', body0, bb, i0, k, i0 + k);
    body, i := body0, i0;
    if i % k == 0 {
      body := body + "0x";
    }
    body := body + LeftPad(Hex(bb), 2 * k);
    i := i + k;
    if i < size {
      body := body + ", ";
    }
  }

  /** The writes to the C file, in order: banner, include, declarator, elements, count. */
  method WriteSource(name: string, w: Width, data: seq<bv8>) returns (text: string)
    ensures text == Prefix(name, w) + Body(data, w) + Suffix(name, Count(|data|, w))
  {
    var dataName := DataName(name, w);
    var lengthName := LengthName(name);
    text := Banner();
    text := text + StdintInclude();
    text := text + dataName;
    text := text + " = { ";
    var body, i := EncodeBody(data, w);
    text := text + body;
    ghost var head := text;
    text := text + " };\n\n";
    text := text + lengthName;
    text := text + " = ";
    text := text + Decimal(i / Bytes(w));
    text := text + ";\n";
    AppendPieces(head, " };\n\n", lengthName, " = ", Decimal(i / Bytes(w)), ";\n");
  }

  /** Writing five pieces after a head leaves the head followed by the five pieces. */
  lemma {:induction false} AppendPieces<T>(h: seq<T>, a: seq<T>, b: seq<T>, c: seq<T>, d: seq<T>, e: seq<T>)
    ensures h + a + b + c + d + e == h + (a + b + c + d + e)
  {
    AppendAssoc(h, a, b);
    AppendAssoc(h, a + b, c);
    AppendAssoc(h, a + b + c, d);
    AppendAssoc(h, a + b + c + d, e);
  }

  /**
   * bin2c(bin_path, nlen, srcdir_path) with no header directory: the checks
   * in the source's order, then the C text written piece by piece.
   */
  method Bin2C(binName: string, w: Width, data: seq<bv8>, srcdir: string, fs: Fs) returns (r: Result<OutFile, string>)
    ensures r == Bin2CResult(binName, w, data, srcdir, fs)
  {
    var size := |data|;
    if size * Bytes(w) > MaxSize {
      return Failure(SizeError(w));
    }
    var name := SanitizeName(binName);
    if !fs.srcdirExists {
      return Failure(PathError(srcdir, DoesNotExist));
    } else if fs.srcdirIsFile {
      return Failure(PathError(srcdir, NotADirectory));
    }
    var srcPath := SourcePath(srcdir, name);
    if fs.srcPathExists && !fs.srcPathIsFile {
      return Failure(PathError(srcPath, ExistsAsDirectory));
    }
    var text := WriteSource(name, w, data);
    r := Success(OutFile(srcPath, text));
  }
}
