/**
 * The few Python string operations that compile.py relies on, written over Dafny
 * strings (sequences of Unicode scalar values, as Python 3 strings are).
 */
module PyStr {

  /** Python's str.isspace() set: Unicode space separators plus the ASCII and C1 controls it counts. */
  predicate IsSpace(c: char) {
    c == ' ' || c == '\t' || c == '\n' || c == '\r' || c == '\U{0B}' || c == '\U{0C}'
    || ('\U{1C}' <= c <= '\U{1F}') || c == '\U{85}' || c == '\U{A0}' || c == '\U{1680}'
    || ('\U{2000}' <= c <= '\U{200A}') || c == '\U{2028}' || c == '\U{2029}'
    || c == '\U{202F}' || c == '\U{205F}' || c == '\U{3000}'
  }

  /** str.lstrip(): drop leading whitespace. */
  function LStrip(s: string): string {
    if |s| > 0 && IsSpace(s[0]) then LStrip(s[1..]) else s
  }

  /** str.rstrip(): drop trailing whitespace. */
  function RStrip(s: string): string {
    if |s| > 0 && IsSpace(s[|s| - 1]) then RStrip(s[..|s| - 1]) else s
  }

  /** lstrip() keeps a suffix, starts on a non-space and cut only whitespace. */
  lemma {:induction false} LStripShape(s: string)
    ensures var r := LStrip(s);
      |r| <= |s| && r == s[|s| - |r|..]
      && (r == [] || !IsSpace(r[0]))
      && (forall i :: 0 <= i < |s| - |r| ==> IsSpace(s[i]))
  {
    if |s| > 0 && IsSpace(s[0]) {
      LStripShape(s[1..]);
      var r := LStrip(s);
      forall i | 0 <= i < |s| - |r| ensures IsSpace(s[i]) {
        if i > 0 { assert s[i] == s[1..][i - 1]; }
      }
    }
  }

  /** rstrip() keeps a prefix, ends on a non-space and cut only whitespace. */
  lemma {:induction false} RStripShape(s: string)
    ensures var r := RStrip(s);
      |r| <= |s| && r == s[..|r|]
      && (r == [] || !IsSpace(r[|r| - 1]))
      && (forall i :: |r| <= i < |s| ==> IsSpace(s[i]))
  {
    if |s| > 0 && IsSpace(s[|s| - 1]) {
      RStripShape(s[..|s| - 1]);
      var r := RStrip(s);
      forall i | |r| <= i < |s| ensures IsSpace(s[i]) {
        if i < |s| - 1 { assert s[i] == s[..|s| - 1][i]; }
      }
    }
  }

  /** str.strip() with no argument: drop leading and trailing whitespace. */
  function Strip(s: string): string {
    RStrip(LStrip(s))
  }

  /** Where the stripped text starts inside the original. */
  function StripStart(s: string): nat {
    LStripShape(s);
    |s| - |LStrip(s)|
  }

  /** What strip() promises: a contiguous piece of s, whitespace-free at both ends, with only whitespace cut away. */
  lemma {:induction false} StripShape(s: string)
    ensures var r, i := Strip(s), StripStart(s);
      i + |r| <= |s| && r == s[i..i + |r|]
      && (forall k :: 0 <= k < i ==> IsSpace(s[k]))
      && (forall k :: i + |r| <= k < |s| ==> IsSpace(s[k]))
      && (r == [] || (!IsSpace(r[0]) && !IsSpace(r[|r| - 1])))
  {
    var l := LStrip(s);
    var r := RStrip(l);
    LStripShape(s);
    RStripShape(l);
    var i := |s| - |l|;
    assert r == s[i..i + |r|];
    forall k | i + |r| <= k < |s|
      ensures IsSpace(s[k])
    {
      assert s[k] == l[k - i];
    }
    if r != [] {
      assert r[0] == l[0];
    }
  }

  lemma {:induction false} LStripNoLead(s: string)
    requires s == [] || !IsSpace(s[0])
    ensures LStrip(s) == s
  {
  }

  lemma {:induction false} RStripKeepsHead(s: string)
    requires s == [] || !IsSpace(s[0])
    ensures RStrip(s) == [] || !IsSpace(RStrip(s)[0])
  {
    RStripShape(s);
  }

  /** Stripping a second time changes nothing. */
  lemma {:induction false} StripIdempotent(s: string)
    ensures Strip(Strip(s)) == Strip(s)
  {
    var l := LStrip(s);
    var r := RStrip(l);
    LStripShape(s);
    RStripKeepsHead(l);
    RStripShape(l);
    LStripNoLead(r);
    assert RStrip(r) == r;
  }

  /** Python's `any(c in s for c in cs)`: walks the character list in order. */
  function ContainsAny(s: string, cs: string): bool {
    if cs == [] then false else cs[0] in s || ContainsAny(s, cs[1..])
  }

  lemma {:induction false} ContainsAnyMeans(s: string, cs: string)
    ensures ContainsAny(s, cs) <==> exists i :: 0 <= i < |s| && s[i] in cs
  {
    if cs != [] {
      ContainsAnyMeans(s, cs[1..]);
      if cs[0] in s {
        var i :| 0 <= i < |s| && s[i] == cs[0];
        assert s[i] in cs;
      }
      if exists i :: 0 <= i < |s| && s[i] in cs {
        var i :| 0 <= i < |s| && s[i] in cs;
        if s[i] != cs[0] {
          assert s[i] in cs[1..];
        }
      }
    }
  }

  /** Python's str.replace(old, new) for a one-character old and new. */
  function ReplaceChar(s: string, from: char, to: char): (r: string)
    ensures |r| == |s|
    ensures forall i :: 0 <= i < |s| ==> r[i] == if s[i] == from then to else s[i]
  {
    if s == [] then [] else [if s[0] == from then to else s[0]] + ReplaceChar(s[1..], from, to)
  }

  /** Rewriting every character of cs to `to`, one replace() per character of cs, in order. */
  function ReplaceEach(s: string, cs: string, to: char): string
    decreases cs
  {
    if cs == [] then s else ReplaceEach(ReplaceChar(s, cs[0], to), cs[1..], to)
  }

  lemma {:induction false} ReplaceEachMeans(s: string, cs: string, to: char)
    requires to !in cs
    ensures |ReplaceEach(s, cs, to)| == |s|
    ensures forall i :: 0 <= i < |s| ==> ReplaceEach(s, cs, to)[i] == if s[i] in cs then to else s[i]
    decreases cs
  {
    if cs != [] {
      var t := ReplaceChar(s, cs[0], to);
      ReplaceEachMeans(t, cs[1..], to);
    }
  }

  /** Index of the first '\n' in s, or |s| when there is none. */
  function NewlineAt(s: string): (k: nat)
    ensures k <= |s|
    ensures forall i :: 0 <= i < k ==> s[i] != '\n'
    ensures k < |s| ==> s[k] == '\n'
  {
    if s == [] then 0 else if s[0] == '\n' then 0 else 1 + NewlineAt(s[1..])
  }

  /**
   * The lines that iterating over io.StringIO(s) yields, each with its '\n'
   * terminator when it has one; a trailing '\n' does not start an empty line.
   */
  function StringIOLines(s: string): (lines: seq<string>)
    decreases |s|
  {
    if s == [] then []
    else
      var k := NewlineAt(s);
      if k == |s| then [s] else [s[..k + 1]] + StringIOLines(s[k + 1..])
  }

  /** Concatenating the lines gives back the text: no character is lost or added. */
  lemma {:induction false} StringIOLinesConcat(s: string)
    ensures Concat(StringIOLines(s)) == s
    decreases |s|
  {
    if s != [] {
      var k := NewlineAt(s);
      if k < |s| {
        StringIOLinesConcat(s[k + 1..]);
        assert s == s[..k + 1] + s[k + 1..];
      }
    }
  }

  /** Every line but possibly the last ends in '\n', and no line has a '\n' anywhere else. */
  lemma {:induction false} StringIOLinesShape(s: string)
    ensures forall j :: 0 <= j < |StringIOLines(s)| ==>
      var l := StringIOLines(s)[j];
      l != [] && (forall i :: 0 <= i < |l| - 1 ==> l[i] != '\n')
      && (j < |StringIOLines(s)| - 1 ==> l[|l| - 1] == '\n')
    decreases |s|
  {
    if s != [] {
      var k := NewlineAt(s);
      if k < |s| {
        StringIOLinesShape(s[k + 1..]);
      }
    }
  }

  function Concat<T>(xs: seq<seq<T>>): seq<T> {
    if xs == [] then [] else xs[0] + Concat(xs[1..])
  }

  lemma {:induction false} ConcatAppend<T>(xs: seq<seq<T>>, ys: seq<seq<T>>)
    ensures Concat(xs + ys) == Concat(xs) + Concat(ys)
  {
    if xs != [] {
      assert (xs + ys)[0] == xs[0];
      assert (xs + ys)[1..] == xs[1..] + ys;
      ConcatAppend(xs[1..], ys);
    } else {
      assert xs + ys == ys;
    }
  }

  lemma {:induction false} ConcatOne<T>(x: seq<T>)
    ensures Concat([x]) == x
  {
    assert [x][1..] == [];
  }

  lemma {:induction false} AppendAssoc<T>(a: seq<T>, b: seq<T>, c: seq<T>)
    ensures a + b + c == a + (b + c)
  {
  }

  /** Python's sep.join(xs). */
  function Join(xs: seq<string>, sep: string): string {
    if xs == [] then [] else if |xs| == 1 then xs[0] else xs[0] + sep + Join(xs[1..], sep)
  }

  lemma {:induction false} JoinSnoc(xs: seq<string>, x: string, sep: string)
    ensures Join(xs + [x], sep) == if xs == [] then x else Join(xs, sep) + sep + x
  {
    if |xs| > 1 {
      assert (xs + [x])[1..] == xs[1..] + [x];
      JoinSnoc(xs[1..], x, sep);
    } else if |xs| == 1 {
      assert (xs + [x])[1..] == [x];
    }
  }

  /** Decimal digits of n, as Python's f'{n:d}' writes a non-negative integer. */
  function Decimal(n: nat): (r: string)
    ensures |r| >= 1
    ensures forall i :: 0 <= i < |r| ==> '0' <= r[i] <= '9'
    decreases n
  {
    if n < 10 then [DigitChar(n)] else Decimal(n / 10) + [DigitChar(n % 10)]
  }

  function DigitChar(d: nat): (c: char)
    requires d < 10
    ensures '0' <= c <= '9'
  {
    ['0', '1', '2', '3', '4', '5', '6', '7', '8', '9'][d]
  }

  function DecimalValue(s: string): nat
    requires forall i :: 0 <= i < |s| ==> '0' <= s[i] <= '9'
  {
    if s == [] then 0 else 10 * DecimalValue(s[..|s| - 1]) + (s[|s| - 1] as int - '0' as int)
  }

  /** Reading the decimal digits back gives the number. */
  lemma {:induction false} DecimalRoundTrip(n: nat)
    ensures DecimalValue(Decimal(n)) == n
    decreases n
  {
    var r := Decimal(n);
    if n >= 10 {
      DecimalRoundTrip(n / 10);
      assert r[..|r| - 1] == Decimal(n / 10);
    }
  }
}
