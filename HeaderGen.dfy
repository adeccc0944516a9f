/**
 * The two C headers compile.py writes for a validated code list:
 * `__gen__/standard_defs.h`, declaring one function per code, and
 * `__gen__/standard.h`, whose printclf prints the list's and each code's
 * header (and description) in the chosen format and calls each code's
 * function. The license comment at the top of both is a parameter.
 */
module HeaderGen {
  import opened Wrappers
  import opened PyStr
  import opened Validation

  /** A validated Code as the generator reads it: every field a str, an absent description as "" (both are falsy). */
  datatype GenCode = GenCode(file: string, name: string, author: string, description: string)

  datatype GenList = GenList(project: string, title: string, author: string, game: string, gameId: string,
                             codes: seq<GenCode>)

  /** What the generator needs of a record: str fields, a codes list of Code objects, a str or absent description. */
  predicate PrintableCode(c: CodeValue) {
    c.file.Str? && c.name.Str? && c.author.Str? && (c.description.Str? || c.description.NoneVal?)
  }

  predicate Printable(l: CodeListValue) {
    && l.project.Str? && l.title.Str? && l.author.Str? && l.game.Str? && l.gameId.Str?
    && l.codes.CodesList? && AllCodes(l.codes.items)
    && forall i :: 0 <= i < |l.codes.items| ==> PrintableCode(l.codes.items[i].value)
  }

  function ToGenCode(c: CodeValue): GenCode
    requires PrintableCode(c)
  {
    GenCode(c.file.s, c.name.s, c.author.s, if c.description.Str? then c.description.s else "")
  }

  function ToGen(l: CodeListValue): GenList
    requires Printable(l)
  {
    GenList(l.project.s, l.title.s, l.author.s, l.game.s, l.gameId.s,
      seq(|l.codes.items|, i requires 0 <= i < |l.codes.items| => ToGenCode(l.codes.items[i].value)))
  }

  /** Every list CodeList.validate accepts can be printed, and no code's file name has a line break in it. */
  lemma {:induction false} ValidatedPrintable(l: CodeListValue)
    requires ValidateCodeList(l).Success?
    ensures Printable(ValidateCodeList(l).value)
    ensures var g := ToGen(ValidateCodeList(l).value);
      forall i :: 0 <= i < |g.codes| ==> '\n' !in g.codes[i].file
  {
    ValidateCodeListShape(l);
  }

  /* ------------------------------------------------ standard_defs.h */

  function GenNotice(): string { "\n// Generated code output file from compile.py, do not modify." }

  function DefsHead(license: string): string {
    license + "\n" + GenNotice() + "\n" + "\n#ifndef __GEN_STANDARD_DEFS_H__" + "\n#define __GEN_STANDARD_DEFS_H__"
    + "\n#include <stdio.h>" + "\n#include <stdint.h>" + "\n#include <gecko.h>" + "\n"
  }

  function Endif(): string { "\n#endif\n" }

  /** One code's declaration, on a line of its own. */
  function Decl(file: string): string {
    "\nvoid " + file + "(void);"
  }

  function Decls(codes: seq<GenCode>): string {
    if codes == [] then [] else Decl(codes[0].file) + Decls(codes[1..])
  }

  lemma {:induction false} DeclsSnoc(codes: seq<GenCode>, c: GenCode)
    ensures Decls(codes + [c]) == Decls(codes) + Decl(c.file)
  {
    if codes != [] {
      assert (codes + [c])[1..] == codes[1..] + [c];
      DeclsSnoc(codes[1..], c);
    } else {
      assert [c][1..] == [];
    }
  }

  /** Writing standard_defs.h: the opening, one declaration per code in list order, the closing #endif. */
  method GenerateDefs(license: string, l: GenList) returns (text: string)
    ensures text == DefsHead(license) + Decls(l.codes) + Endif()
  {
    text := DefsHead(license);
    var k := 0;
    while k < |l.codes|
      invariant k <= |l.codes|
      invariant text == DefsHead(license) + Decls(l.codes[..k])
    {
      DeclsSnoc(l.codes[..k], l.codes[k]);
      assert l.codes[..k + 1] == l.codes[..k] + [l.codes[k]];
      AppendAssoc(DefsHead(license), Decls(l.codes[..k]), Decl(l.codes[k].file));
      text := text + Decl(l.codes[k].file);
      k := k + 1;
    }
    assert l.codes[..k] == l.codes;
    text := text + Endif();
  }

  /* Reading the declarations back. */

  function DeclPrefix(): string { "void " }
  function DeclSuffix(): string { "(void);" }

  /** The function name on one declaration line. */
  function DeclName(line: string): string {
    if |line| >= 12 && line[..5] == DeclPrefix() && line[|line| - 7..] == DeclSuffix() then line[5..|line| - 7] else line
  }

  /** Each "\n"-introduced line of the declaration block, by the name it declares. */
  function ParseDecls(s: string): seq<string>
    decreases |s|
  {
    if s == [] || s[0] != '\n' then []
    else
      var r := s[1..];
      var k := NewlineAt(r);
      [DeclName(r[..k])] + ParseDecls(r[k..])
  }

  lemma {:induction false} NewlineAtConcat(a: string, b: string)
    requires '\n' !in a && (b == [] || b[0] == '\n')
    ensures NewlineAt(a + b) == |a|
  {
    if a != [] {
      assert (a + b)[1..] == a[1..] + b;
      NewlineAtConcat(a[1..], b);
    } else {
      assert a + b == b;
    }
  }

  lemma {:induction false} DeclsStart(codes: seq<GenCode>)
    ensures Decls(codes) == [] || Decls(codes)[0] == '\n'
  {
  }

  /** standard_defs.h declares exactly the codes' functions, in list order, when no file name holds a line break. */
  lemma {:induction false} DeclsRoundTrip(codes: seq<GenCode>)
    requires forall i :: 0 <= i < |codes| ==> '\n' !in codes[i].file
    ensures ParseDecls(Decls(codes)) == seq(|codes|, i requires 0 <= i < |codes| => codes[i].file)
  {
    if codes != [] {
      DeclsStart(codes[1..]);
      DeclParse(codes[0].file, Decls(codes[1..]));
      DeclsRoundTrip(codes[1..]);
      FilesCons(codes);
    }
  }

  lemma {:induction false} FilesCons(codes: seq<GenCode>)
    requires codes != []
    ensures seq(|codes|, i requires 0 <= i < |codes| => codes[i].file)
         == [codes[0].file] + seq(|codes[1..]|, i requires 0 <= i < |codes[1..]| => codes[1..][i].file)
  {
    var names := seq(|codes|, i requires 0 <= i < |codes| => codes[i].file);
    var tail := seq(|codes[1..]|, i requires 0 <= i < |codes[1..]| => codes[1..][i].file);
    assert names[1..] == tail;
  }

  /** One declaration line in front of more lines reads back as its name, then the rest. */
  lemma {:induction false} DeclParse(f: string, rest: string)
    requires '\n' !in f && (rest == [] || rest[0] == '\n')
    ensures ParseDecls(Decl(f) + rest) == [f] + ParseDecls(rest)
  {
    var line := DeclPrefix() + f + DeclSuffix();
    var s := Decl(f) + rest;
    assert s == "\n" + line + rest;
    assert s[1..] == line + rest;
    assert '\n' !in line;
    NewlineAtConcat(line, rest);
    assert (line + rest)[..|line|] == line;
    assert (line + rest)[|line|..] == rest;
    assert line[..5] == DeclPrefix() && line[|line| - 7..] == DeclSuffix() && line[5..|line| - 7] == f;
  }

  /* ------------------------------------------------------ standard.h */

  function StdGuard(): string {
    "\n#ifndef __GEN_STANDARD_H__" + "\n#define __GEN_STANDARD_H__"
    + "\n#include <__gen__/standard_defs.h>" + "\n#include <stdext/cmacros.h>" + "\n"
  }

  /** The usage text standard.c prints: title, author and project. */
  function UsageIntro(l: GenList): string {
    "\n#define __STANDARD_USAGE_INTRO__ \\" + "\n    \"" + l.title + " by " + l.author + "\\n\" \\"
    + "\n    \"USAGE: " + l.project + "\"" + "\n"
  }

  function FormatEnum(): string {
    "\ntypedef enum __CLFFmt {" + "\n    CLF_DOLPHIN," + "\n    CLF_GCT," + "\n    CLF_OCARINA,"
    + "\n    CLF_RAW," + "\n    CLF_RAWTEXT," + "\n    CLF_NONE = 0xFF" + "\n} CLFFmt;" + "\n"
  }

  /** The opening of printclf: the list header in each format, the GCT start. */
  function ListHeader(l: GenList): string {
    "\nINLINE void printclf(CLFFmt lfmt) {" + "\n    if (lfmt == CLF_DOLPHIN)"
    + "\n        fprintf(G_OutputHandle, \"; " + l.title + " by " + l.author + "\\n[Gecko]\\n\");"
    + "\n    else if (lfmt == CLF_GCT)" + "\n        G_BeginGCT();"
    + "\n    else if (lfmt == CLF_OCARINA)" + "\n        fprintf(G_OutputHandle,"
    + "\n            \"" + l.gameId + "\\n" + l.game + "\\n\\n\""
    + "\n            \"" + l.title + " by " + l.author + "\\n\\n\"" + "\n        );" + "\n    "
  }

  function StdHead(license: string, l: GenList): string {
    license + "\n" + GenNotice() + "\n" + StdGuard() + UsageIntro(l) + FormatEnum() + ListHeader(l)
  }

  /** A code's title line in DOLPHIN (`$name [author]`) and OCARINA (`name [author]`) form, then its call. */
  function CodeHeader(c: GenCode): string {
    "\n    if (lfmt == CLF_DOLPHIN)" + "\n        fprintf(G_OutputHandle, \"$" + c.name + " [" + c.author + "]\\n\");"
    + "\n    else if (lfmt == CLF_OCARINA)" + "\n        fprintf(G_OutputHandle, \"" + c.name + " [" + c.author + "]\\n\");"
    + "\n    " + c.file + "();"
  }

  /** One description line as a C string literal, stripped, with the given prefix ("*" for DOLPHIN). */
  function DescLine(prefix: string, line: string): string {
    "\n            \"" + prefix + Strip(line) + "\\n\""
  }

  function DescLines(prefix: string, lines: seq<string>): string {
    if lines == [] then [] else DescLines(prefix, lines[..|lines| - 1]) + DescLine(prefix, lines[|lines| - 1])
  }

  function DolphinOpen(): string { "\n    if (lfmt == CLF_DOLPHIN) {" + "\n        fprintf(G_OutputHandle, (" }
  function OcarinaOpen(): string {
    "\n        ));" + "\n    } else if (lfmt == CLF_OCARINA) {" + "\n        fprintf(G_OutputHandle, ("
  }
  function OcarinaClose(): string { "\n            \"\\n\"" + "\n        ));" + "\n    }" }

  function Indent(): string { "\n    " }

  /**
   * Everything printclf does for one code: the header and call; when the
   * description is non-empty, its lines with "*" for DOLPHIN, then plain and an
   * empty line for OCARINA; then the indent.
   */
  function CodeBlock(c: GenCode): string {
    if c.description != "" then
      var lines := StringIOLines(c.description);
      CodeHeader(c) + DolphinOpen() + DescLines("*", lines) + OcarinaOpen() + DescLines("", lines) + OcarinaClose()
      + Indent()
    else
      CodeHeader(c) + Indent()
  }

  function CodeBlocks(codes: seq<GenCode>): string {
    if codes == [] then [] else CodeBlocks(codes[..|codes| - 1]) + CodeBlock(codes[|codes| - 1])
  }

  function StdFoot(): string {
    "\n    if (lfmt == CLF_GCT)" + "\n        G_EndGCT();" + "\n}" + Endif()
  }

  /** One pass over a description's lines, writing each as a string literal. */
  method WriteDescLines(prefix: string, d: string) returns (text: string)
    ensures text == DescLines(prefix, StringIOLines(d))
  {
    var lines := StringIOLines(d);
    text := [];
    var k := 0;
    while k < |lines|
      invariant k <= |lines|
      invariant text == DescLines(prefix, lines[..k])
    {
      assert lines[..k + 1][..k] == lines[..k];
      text := text + DescLine(prefix, lines[k]);
      k := k + 1;
    }
    assert lines[..k] == lines;
  }

  /** One iteration of the codes loop: the header and call, the description block if any, the indent. */
  method WriteCodeBlock(code: GenCode) returns (text: string)
    ensures text == CodeBlock(code)
  {
    text := CodeHeader(code);
    if code.description != "" {
      text := text + DolphinOpen();
      var dolphin := WriteDescLines("*", code.description);
      text := text + dolphin;
      text := text + OcarinaOpen();
      var ocarina := WriteDescLines("", code.description);
      text := text + ocarina;
      text := text + OcarinaClose();
    }
    text := text + Indent();
  }

  /** Writing standard.h: the opening, a block per code in list order, the closing. */
  method GenerateStandard(license: string, l: GenList) returns (text: string)
    ensures text == StdHead(license, l) + CodeBlocks(l.codes) + StdFoot()
  {
    text := StdHead(license, l);
    var blocks: string := [];
    var k := 0;
    while k < |l.codes|
      invariant k <= |l.codes|
      invariant blocks == CodeBlocks(l.codes[..k])
    {
      var block := WriteCodeBlock(l.codes[k]);
      CodeBlocksSnoc(l.codes, k);
      blocks := blocks + block;
      k := k + 1;
    }
    TakeAll(l.codes);
    text := text + blocks + StdFoot();
  }

  lemma {:induction false} TakeAll<T>(s: seq<T>)
    ensures s[..|s|] == s
  {
  }

  lemma {:induction false} CodeBlocksSnoc(codes: seq<GenCode>, k: nat)
    requires k < |codes|
    ensures CodeBlocks(codes[..k + 1]) == CodeBlocks(codes[..k]) + CodeBlock(codes[k])
  {
    assert codes[..k + 1][..k] == codes[..k];
  }

  /* Properties of the generated printclf. */

  /** A code gets a description block exactly when its description is non-empty. */
  lemma {:induction false} CodeBlockDescription(c: GenCode)
    ensures c.description == "" <==> CodeBlock(c) == CodeHeader(c) + Indent()
  {
    if c.description != "" {
      assert |CodeBlock(c)| > |CodeHeader(c) + Indent()|;
    }
  }

  /** Every description line written is free of line breaks, so each is one C string literal on one line. */
  lemma {:induction false} DescLinesSingle(d: string)
    ensures forall j :: 0 <= j < |StringIOLines(d)| ==> '\n' !in Strip(StringIOLines(d)[j])
  {
    var lines := StringIOLines(d);
    StringIOLinesShape(d);
    forall j | 0 <= j < |lines| ensures '\n' !in Strip(lines[j]) {
      var l := lines[j];
      StripShape(l);
      var r, i := Strip(l), StripStart(l);
      forall t | 0 <= t < |r| ensures r[t] != '\n' {
        assert r[t] == l[i + t];
        if i + t == |l| - 1 {
          assert t == |r| - 1 && !IsSpace(r[t]);
        }
      }
    }
  }

  /** The description's lines, read back in order, are the whole description: none is dropped. */
  lemma {:induction false} DescLinesCover(d: string)
    ensures Concat(StringIOLines(d)) == d
    ensures d != "" ==> |StringIOLines(d)| >= 1
  {
    StringIOLinesConcat(d);
  }
}
