/**
 * The older standalone encoder of include/gecko.h. Its encoders compute the
 * same words as src/gecko.c (the GeckoWords functions) but print text records
 * straight to standard output, stop printing once a code has 231 lines, and
 * come with a two-pass label protocol: G_BeginCode runs its body twice, the
 * first time only to record where each G_DefineLabel stands, the second time
 * to print with G_GetLabel turning those positions into relative offsets.
 *
 * A body between G_BeginCode and G_EndCode is modelled as a sequence of
 * statements; Run is what one pass does to the state, and the lemmas below
 * say what the two passes add up to.
 */
module GeckoLegacy {
  import opened Wrappers
  import opened GeckoTypes
  import opened GeckoWords
  import PyStr

  /** A Gecko code holds at most this many lines; `__G_CheckIfExec__` prints none after it. */
  const MaxLines: int := 231

  /**
   * One statement of a code body: a label definition, an encoder call whose
   * record does not depend on a label, or one of the two encoders that take a
   * `G_GetLabel` offset (a goto/gosub, or setting ba/po to a code address).
   * Labels are numbered in the order `G_DeclareLabel` introduced them.
   */
  datatype Stmt =
    | Define(l: nat)
    | Code(r: Record)
    | Jump(typ: bv32, l: nat, block: bv32, exec: bv32)
    | SetToCode(typ: bv32, l: nat)

  /** Every label the body names is one of the n declared ones. */
  predicate Declared(body: seq<Stmt>, n: nat) {
    forall i :: 0 <= i < |body| ==> body[i].Code? || body[i].l < n
  }

  /** The code lines of a body: every statement but a label definition is one. */
  function Lines(body: seq<Stmt>): nat {
    if body == [] then 0
    else Lines(body[..|body| - 1]) + (if body[|body| - 1].Define? then 0 else 1)
  }

  /**
   * An encoder call that printed, with the offset `G_GetLabel` gave it already
   * in place: the inputs of the record it wrote.
   */
  datatype Call =
    | Plain(r: Record)
    | JumpCall(typ: bv32, offs: Int16, block: bv32, exec: bv32)
    | SetCall(typ: bv32, offs: Int16)

  /** The call a code statement makes when `G_GetLabel` produced `offs` for it. */
  function StmtCall(s: Stmt, offs: Int16): Call
    requires !s.Define?
  {
    match s
    case Code(r) => Plain(r)
    case Jump(typ, _, block, exec) => JumpCall(typ, offs, block, exec)
    case SetToCode(typ, _) => SetCall(typ, offs)
  }

  /** The record a call prints: a goto/gosub is `__G_ControlFlow__`, a ba/po address `__G_SetBAOrPOToCodeAddress__`. */
  function CallRecord(c: Call): Record {
    match c
    case Plain(r) => r
    case JumpCall(typ, offs, block, exec) => ControlFlowWords(typ, 0, offs, block, exec)
    case SetCall(typ, offs) => SetToCodeAddressWords(typ, offs)
  }

  /** The records a sequence of calls prints, in order. */
  function CallRecords(cs: seq<Call>): (rs: seq<Record>)
    ensures |rs| == |cs|
  {
    if cs == [] then [] else CallRecords(cs[..|cs| - 1]) + [CallRecord(cs[|cs| - 1])]
  }

  /** Record i is the record of call i. */
  lemma {:induction false} CallRecordsAt(cs: seq<Call>, i: nat)
    requires i < |cs|
    ensures CallRecords(cs)[i] == CallRecord(cs[i])
  {
    if i < |cs| - 1 {
      CallRecordsAt(cs[..|cs| - 1], i);
    }
  }

  /** Calls made one after the other print their records one after the other. */
  lemma {:induction false} CallRecordsAppend(a: seq<Call>, b: seq<Call>)
    ensures CallRecords(a + b) == CallRecords(a) + CallRecords(b)
    decreases |b|
  {
    if b == [] {
      assert a + b == a;
    } else {
      var b' := b[..|b| - 1];
      assert (a + b)[..|a + b| - 1] == a + b';
      CallRecordsAppend(a, b');
    }
  }

  /** Standard output after printing records: one `%08X %08X\n` line each. */
  function Stdout(rs: seq<Record>): (t: seq<bv8>)
    ensures |t| == 18 * |rs|
  {
    if rs == [] then [] else Stdout(rs[..|rs| - 1]) + TextRecord(rs[|rs| - 1])
  }

  /** Line i of standard output is the text of record i (which RecordRoundTrip reads back). */
  lemma {:induction false} StdoutLine(rs: seq<Record>, i: nat)
    requires i < |rs|
    ensures Stdout(rs)[18 * i .. 18 * i + 18] == TextRecord(rs[i])
  {
    var front := rs[..|rs| - 1];
    if i < |rs| - 1 {
      StdoutLine(front, i);
      assert Stdout(rs)[..18 * |front|] == Stdout(front);
    }
  }

  /** What a pass works on: `G_CurProcLine`, the label variables, and the calls it has printed. */
  datatype PassState = PassState(line: Int16, labels: seq<Int16>, printed: seq<Call>)

  /** Whether an encoder called when the counter shows `line` prints (`__G_CheckIfExec__`). */
  predicate Prints(isProcLabels: bool, line: Int16) {
    !isProcLabels && Wrap16(line + 1) <= MaxLines
  }

  /** `G_GetLabel`: 0 on the label pass, else the label's distance from the current line. */
  function PassLabel(isProcLabels: bool, line: Int16, target: Int16): (offs: Int16)
    ensures isProcLabels ==> offs == 0
    ensures !isProcLabels ==> offs == Wrap16(target - line)
  {
    if isProcLabels then 0 else LabelDistance(target, line)
  }

  /**
   * What statement s prints when the counter shows `line`: nothing for a
   * definition, on the label pass or past the cap; otherwise its call, with a
   * label argument read before the encoder counts its line.
   */
  function Emits(isProcLabels: bool, line: Int16, labels: seq<Int16>, s: Stmt): (cs: seq<Call>)
    requires s.Code? || s.l < |labels|
  {
    if s.Define? || !Prints(isProcLabels, line) then []
    else [StmtCall(s, if s.Code? then 0 else PassLabel(isProcLabels, line, labels[s.l]))]
  }

  /** The counter after statement s: a definition leaves it, any other statement counts a line. */
  function StepLine(line: Int16, s: Stmt): Int16 {
    if s.Define? then line else Wrap16(line + 1)
  }

  /** The labels after statement s: a definition on the label pass sets its label to the current line. */
  function StepLabels(isProcLabels: bool, line: Int16, labels: seq<Int16>, s: Stmt): (r: seq<Int16>)
    requires s.Code? || s.l < |labels|
    ensures |r| == |labels|
  {
    if s.Define? && isProcLabels then labels[s.l := line] else labels
  }

  /** One statement run in a pass. */
  function Step(isProcLabels: bool, st: PassState, s: Stmt): (r: PassState)
    requires s.Code? || s.l < |st.labels|
    ensures |r.labels| == |st.labels|
  {
    PassState(
      StepLine(st.line, s),
      StepLabels(isProcLabels, st.line, st.labels, s),
      st.printed + Emits(isProcLabels, st.line, st.labels, s))
  }

  /** A body run in one pass, statement by statement. */
  function Run(isProcLabels: bool, st: PassState, body: seq<Stmt>): (r: PassState)
    requires Declared(body, |st.labels|)
    ensures |r.labels| == |st.labels|
  {
    if body == [] then st
    else Step(isProcLabels, Run(isProcLabels, st, body[..|body| - 1]), body[|body| - 1])
  }

  /** Running one more statement is one more step. */
  lemma {:induction false} RunSnoc(isProcLabels: bool, st: PassState, body: seq<Stmt>, i: nat)
    requires Declared(body, |st.labels|) && i < |body|
    ensures Run(isProcLabels, st, body[..i + 1]) == Step(isProcLabels, Run(isProcLabels, st, body[..i]), body[i])
  {
    assert body[..i + 1][..i] == body[..i];
  }

  /* ------------------------------------------------------------ the label pass */

  /** Where the last definition of label l in the body is, if there is one. */
  function LastDefine(body: seq<Stmt>, l: nat): (j: Option<nat>)
    ensures j.Some? ==> j.value < |body| && body[j.value] == Define(l)
    ensures j.Some? ==> forall k :: j.value < k < |body| ==> body[k] != Define(l)
    ensures j.None? ==> forall k :: 0 <= k < |body| ==> body[k] != Define(l)
  {
    if body == [] then None
    else if body[|body| - 1] == Define(l) then Some(|body| - 1)
    else LastDefine(body[..|body| - 1], l)
  }

  /**
   * The label variables after a label pass that started on `line0`: each label
   * holds the line at its last definition, and a label never defined keeps
   * the value it had.
   */
  function DefinedLabels(line0: Int16, labels: seq<Int16>, body: seq<Stmt>): (r: seq<Int16>)
    ensures |r| == |labels|
  {
    seq(|labels|, l requires 0 <= l < |labels| =>
      match LastDefine(body, l)
      case Some(j) => Wrap16(line0 + Lines(body[..j]))
      case None => labels[l])
  }

  /** Running a pass moves the line counter on by the body's code lines, as an int16_t. */
  lemma {:induction false} RunLine(isProcLabels: bool, st: PassState, body: seq<Stmt>)
    requires Declared(body, |st.labels|)
    ensures Run(isProcLabels, st, body).line == Wrap16(st.line + Lines(body))
  {
    if body == [] {
      Wrap16Id(st.line);
    } else {
      var prefix := body[..|body| - 1];
      RunLine(isProcLabels, st, prefix);
      if !body[|body| - 1].Define? {
        Wrap16Succ(st.line + Lines(prefix));
      }
    }
  }

  /** The label pass prints nothing and leaves every label at the line of its last definition. */
  lemma {:induction false} LabelPass(st: PassState, body: seq<Stmt>)
    requires Declared(body, |st.labels|)
    ensures Run(true, st, body).printed == st.printed
    ensures Run(true, st, body).labels == DefinedLabels(st.line, st.labels, body)
  {
    if body != [] {
      var prefix := body[..|body| - 1];
      LabelPass(st, prefix);
      RunLine(true, st, prefix);
      DefinedLabelsSnoc(st.line, st.labels, body);
    }
  }

  /** A statement added to the body changes the labels it defines as a label-pass step would. */
  lemma {:induction false} DefinedLabelsSnoc(line0: Int16, labels: seq<Int16>, body: seq<Stmt>)
    requires body != [] && Declared(body, |labels|)
    ensures var prefix := body[..|body| - 1];
      DefinedLabels(line0, labels, body)
        == StepLabels(true, Wrap16(line0 + Lines(prefix)), DefinedLabels(line0, labels, prefix), body[|body| - 1])
  {
    var prefix := body[..|body| - 1];
    var s := body[|body| - 1];
    var before := DefinedLabels(line0, labels, prefix);
    var after := DefinedLabels(line0, labels, body);
    forall l | 0 <= l < |labels| && s != Define(l)
      ensures after[l] == before[l]
    {
      LastDefinePrefix(body, l);
      match LastDefine(body, l)
      case Some(j) => assert body[..j] == prefix[..j];
      case None =>
    }
    if s.Define? {
      assert after == before[s.l := Wrap16(line0 + Lines(prefix))];
    } else {
      assert after == before;
    }
  }

  /** The last definition in a body that does not end with one is the last one in all but its final statement. */
  lemma {:induction false} LastDefinePrefix(body: seq<Stmt>, l: nat)
    requires body != [] && body[|body| - 1] != Define(l)
    ensures LastDefine(body, l) == LastDefine(body[..|body| - 1], l)
  {
  }

  /* --------------------------------------------------------- the printing pass */

  /**
   * The calls the code lines of a body stand for on the printing pass, in
   * order: line k (counted from 0) jumping to label l has the offset
   * labels[l] - k.
   */
  function Calls(labels: seq<Int16>, body: seq<Stmt>): (cs: seq<Call>)
    requires Declared(body, |labels|)
    ensures |cs| == Lines(body)
  {
    if body == [] then []
    else
      var prefix := Calls(labels, body[..|body| - 1]);
      var s := body[|body| - 1];
      if s.Define? then prefix
      else prefix + [StmtCall(s, Offset(labels, s, |prefix|))]
  }

  /** The offset the code statement s on line k takes: its label's line minus k. */
  function Offset(labels: seq<Int16>, s: Stmt, k: int): Int16
    requires s.Code? || s.l < |labels|
  {
    match s
    case Define(_) => 0
    case Code(_) => 0
    case Jump(_, l, _, _) => Wrap16(labels[l] - k)
    case SetToCode(_, l) => Wrap16(labels[l] - k)
  }

  function Min(a: nat, b: nat): nat {
    if a <= b then a else b
  }

  /**
   * A printing pass started on line 0 prints the calls of its first 231 code
   * lines and leaves the labels alone (for bodies short enough that the
   * int16_t line counter does not wrap).
   */
  lemma {:induction false} PrintPass(labels: seq<Int16>, printed: seq<Call>, body: seq<Stmt>)
    requires Declared(body, |labels|) && Lines(body) < 0x7FFF
    ensures Run(false, PassState(0, labels, printed), body)
         == PassState(Lines(body), labels, printed + Calls(labels, body)[..Min(Lines(body), MaxLines)])
  {
    if body != [] {
      var prefix := body[..|body| - 1];
      var s := body[|body| - 1];
      PrintPass(labels, printed, prefix);
      if !s.Define? {
        var cs := Calls(labels, prefix);
        PrintStep(Run(false, PassState(0, labels, printed), prefix), s);
        TakeStep(cs, StmtCall(s, Offset(labels, s, |cs|)), printed);
      }
    }
  }

  /** A code statement on the printing pass, while the counter cannot wrap. */
  lemma {:induction false} PrintStep(st: PassState, s: Stmt)
    requires !s.Define? && (s.Code? || s.l < |st.labels|) && 0 <= st.line < 0x7FFF
    ensures Step(false, st, s) == PassState(st.line + 1, st.labels,
      st.printed + if st.line < MaxLines then [StmtCall(s, Offset(st.labels, s, st.line))] else [])
  {
    Wrap16Id(st.line + 1);
  }

  /** One more call under the cap is printed; past it, none is. */
  lemma {:induction false} TakeStep(cs: seq<Call>, c: Call, printed: seq<Call>)
    ensures printed + (cs + [c])[..Min(|cs| + 1, MaxLines)]
         == printed + cs[..Min(|cs|, MaxLines)] + if |cs| < MaxLines then [c] else []
  {
    if |cs| < MaxLines {
      assert (cs + [c])[..|cs| + 1] == cs + [c];
      assert cs[..|cs|] == cs;
    } else {
      assert (cs + [c])[..MaxLines] == cs[..MaxLines];
    }
  }

  /** The call of the code statement at body index i is call number Lines(body[..i]). */
  lemma {:induction false} CallAt(labels: seq<Int16>, body: seq<Stmt>, i: nat)
    requires Declared(body, |labels|) && i < |body| && !body[i].Define?
    ensures Lines(body[..i]) < Lines(body)
    ensures var k := Lines(body[..i]);
      Calls(labels, body)[k] == StmtCall(body[i], Offset(labels, body[i], k))
  {
    var prefix := body[..|body| - 1];
    if i == |body| - 1 {
      assert body[..i] == prefix;
    } else {
      CallAt(labels, prefix, i);
      assert prefix[..i] == body[..i];
      LinesGrow(prefix, body[|body| - 1]);
    }
  }

  lemma {:induction false} LinesGrow(prefix: seq<Stmt>, s: Stmt)
    ensures Lines(prefix) <= Lines(prefix + [s])
  {
    assert (prefix + [s])[..|prefix|] == prefix;
  }

  /** A prefix of a body has no more code lines than the body. */
  lemma {:induction false} LinesPrefix(body: seq<Stmt>, j: nat)
    requires j <= |body|
    ensures Lines(body[..j]) <= Lines(body)
    decreases |body|
  {
    if j < |body| {
      var prefix := body[..|body| - 1];
      LinesPrefix(prefix, j);
      assert prefix[..j] == body[..j];
      LinesGrow(prefix, body[|body| - 1]);
      assert prefix + [body[|body| - 1]] == body;
    } else {
      assert body[..j] == body;
    }
  }

  /* ---------------------------------------------------------- both passes */

  /** The state `G_BeginCode` ... `G_EndCode` leaves: a label pass, then a printing pass over its labels. */
  function TwoPasses(labels: seq<Int16>, body: seq<Stmt>): PassState
    requires Declared(body, |labels|)
  {
    var p0 := Run(true, PassState(0, labels, []), body);
    Run(false, PassState(0, p0.labels, p0.printed), body)
  }

  /** The labels a body defines, as line numbers: each defined label holds the line of its last definition. */
  function BodyLabels(labels: seq<Int16>, body: seq<Stmt>): seq<Int16> {
    DefinedLabels(0, labels, body)
  }

  /**
   * Both passes together print the first 231 calls of the body, where every
   * label stands for the line of its last definition, and leave the labels so.
   */
  lemma {:induction false} TwoPassesPrint(labels: seq<Int16>, body: seq<Stmt>)
    requires Declared(body, |labels|) && Lines(body) < 0x7FFF
    ensures var L := BodyLabels(labels, body);
      TwoPasses(labels, body) == PassState(Lines(body), L, Calls(L, body)[..Min(Lines(body), MaxLines)])
  {
    LabelPass(PassState(0, labels, []), body);
    PrintPass(BodyLabels(labels, body), [], body);
  }

  /**
   * The point of the protocol: a jump printed on the second pass to a label the
   * body defines carries the label's line minus its own line, forward or
   * backward (these are G_GetLabel's offsets; `__G_ControlFlow__` encodes them).
   */
  lemma {:induction false} JumpReachesLabel(labels: seq<Int16>, body: seq<Stmt>, i: nat)
    requires Declared(body, |labels|) && Lines(body) < 0x7FFF
    requires i < |body| && (body[i].Jump? || body[i].SetToCode?) && LastDefine(body, body[i].l).Some?
    ensures Lines(body[..i]) < Lines(body)
    ensures var j := LastDefine(body, body[i].l).value;
      var offs := Lines(body[..j]) - Lines(body[..i]);
      && -0x8000 <= offs < 0x8000
      && Calls(BodyLabels(labels, body), body)[Lines(body[..i])] == StmtCall(body[i], offs)
  {
    DefinedLine(labels, body, body[i].l);
    CallAtLine(BodyLabels(labels, body), body, i, Lines(body[..LastDefine(body, body[i].l).value]));
  }

  /** The call of a code statement whose label holds line d carries d minus its own line. */
  lemma {:induction false} CallAtLine(labels: seq<Int16>, body: seq<Stmt>, i: nat, d: int)
    requires Declared(body, |labels|) && i < |body| && (body[i].Jump? || body[i].SetToCode?)
    requires labels[body[i].l] == d && 0 <= d <= Lines(body) < 0x7FFF
    ensures Lines(body[..i]) < Lines(body)
    ensures var offs := d - Lines(body[..i]);
      && -0x8000 <= offs < 0x8000
      && Calls(labels, body)[Lines(body[..i])] == StmtCall(body[i], offs)
  {
    CallAt(labels, body, i);
    OffsetIsDistance(labels, body[i], Lines(body[..i]));
  }

  /** After the label pass, a label the body defines holds the number of code lines before its last definition. */
  lemma {:induction false} DefinedLine(labels: seq<Int16>, body: seq<Stmt>, l: nat)
    requires Lines(body) < 0x7FFF && l < |labels| && LastDefine(body, l).Some?
    ensures var j := LastDefine(body, l).value;
      Lines(body[..j]) <= Lines(body) && BodyLabels(labels, body)[l] == Lines(body[..j])
  {
    var j := LastDefine(body, l).value;
    LinesPrefix(body, j);
    Wrap16Id(Lines(body[..j]));
  }

  /** In range, a label offset is the plain difference. */
  lemma {:induction false} OffsetIsDistance(labels: seq<Int16>, s: Stmt, k: int)
    requires (s.Jump? || s.SetToCode?) && s.l < |labels| && -0x8000 <= labels[s.l] - k < 0x8000
    ensures Offset(labels, s, k) == labels[s.l] - k
  {
    Wrap16Id(labels[s.l] - k);
  }

  /* ------------------------------------------------------------- the coder */

  /** The static state of include/gecko.h and the encoders that print through it. */
  class LegacyCoder {
    /** `G_CurProcLine`, an int16_t. */
    var curLine: Int16
    /** `G_IsProcLabels`. */
    var isProcLabels: bool
    /** The label variables `G_DeclareLabel` introduced, by number. */
    var labels: seq<Int16>
    /** The records printed to standard output so far, in order: the text is Stdout(out). */
    var out: seq<Record>

    /** The statics start at 0, and nothing is declared or printed yet. */
    constructor ()
      ensures curLine == 0 && !isProcLabels && labels == [] && out == []
    {
      curLine := 0;
      isProcLabels := false;
      labels := [];
      out := [];
    }

    /** What an encoder does: one more line, and the payload printed when `__G_CheckIfExec__` lets it through. */
    twostate predicate Emitted(r: Record)
      reads this
    {
      && curLine == Wrap16(old(curLine) + 1)
      && isProcLabels == old(isProcLabels) && labels == old(labels)
      && (if Prints(old(isProcLabels), old(curLine)) then out == old(out) + [r] else out == old(out))
    }

    /** `G_DeclareLabel`: a new label variable holding 0. */
    method DeclareLabel() returns (l: nat)
      modifies this
      ensures l == |old(labels)| && labels == old(labels) + [0]
      ensures curLine == old(curLine) && isProcLabels == old(isProcLabels) && out == old(out)
    {
      l := |labels|;
      labels := labels + [0];
    }

    /** `__G_CheckIfExec__`: the counter always advances; the encoder goes on unless labels are being processed or the code is full. */
    method CheckIfExec() returns (exec: bool)
      modifies this
      ensures exec == Prints(old(isProcLabels), old(curLine))
      ensures curLine == Wrap16(old(curLine) + 1)
      ensures isProcLabels == old(isProcLabels) && labels == old(labels) && out == old(out)
    {
      curLine := Wrap16(curLine + 1);
      exec := !(isProcLabels || curLine > MaxLines);
    }

    /** `G_DefineLabel`: on the label pass the label takes the current line; otherwise nothing happens. */
    method DefineLabel(l: nat)
      requires l < |labels|
      modifies this
      ensures isProcLabels ==> labels == old(labels)[l := old(curLine)]
      ensures !isProcLabels ==> labels == old(labels)
      ensures curLine == old(curLine) && isProcLabels == old(isProcLabels) && out == old(out)
    {
      if isProcLabels {
        labels := labels[l := curLine];
      }
    }

    /** `G_GetLabel`. */
    function GetLabel(target: Int16): (offs: Int16)
      reads this
      ensures isProcLabels ==> offs == 0
      ensures !isProcLabels ==> offs == Wrap16(target - curLine)
    {
      PassLabel(isProcLabels, curLine, target)
    }

    /** `fprintf(stdout, "%08X %08X\n", ...)`. */
    method Print(r: Record)
      modifies this
      ensures out == old(out) + [r]
      ensures curLine == old(curLine) && isProcLabels == old(isProcLabels) && labels == old(labels)
    {
      out := out + [r];
    }

    /** Any encoder, by the record it prints. */
    method Encode(r: Record)
      modifies this
      ensures Emitted(r)
    {
      var exec := CheckIfExec();
      if !exec {
        return;
      }
      Print(r);
    }

    /** `__G_Write__`. */
    method Write(typ: bv32, addr: bv32, val: bv32, extraCount: bv32, flg: bv32)
      modifies this
      ensures Emitted(WriteWords(typ, addr, val, extraCount, flg))
    {
      Encode(WriteWords(typ, addr, val, extraCount, flg));
    }

    /** `__G_If__`: the endif bit is always set. */
    method If(typ: bv32, addr: bv32, val: bv32, mask: bv32, flg: bv32)
      modifies this
      ensures Emitted(LegacyIfWords(typ, addr, val, mask, flg))
    {
      Encode(LegacyIfWords(typ, addr, val, mask, flg));
    }

    /** `G_If8Equal`. */
    method If8Equal(addr: bv32, val: bv8, flg: bv32)
      modifies this
      ensures Emitted(GeckoWords.If8Equal(addr, val, flg))
    {
      If(GCST_IF16EQU, addr, val as bv32, 0xFF, flg);
    }

    /** `G_If8NotEqual`. */
    method If8NotEqual(addr: bv32, val: bv32, flg: bv32)
      modifies this
      ensures Emitted(GeckoWords.If8NotEqual(addr, val, flg))
    {
      If(GCST_IF16NEQ, addr, val & 0xFFFF, 0xFF, flg);
    }

    /** `G_If8GreaterThan`. */
    method If8GreaterThan(addr: bv32, val: bv32, flg: bv32)
      modifies this
      ensures Emitted(GeckoWords.If8GreaterThan(addr, val, flg))
    {
      If(GCST_IF16GTR, addr, val & 0xFFFF, 0xFF, flg);
    }

    /** `G_If8LessThan`. */
    method If8LessThan(addr: bv32, val: bv32, flg: bv32)
      modifies this
      ensures Emitted(GeckoWords.If8LessThan(addr, val, flg))
    {
      If(GCST_IF16LSS, addr, val & 0xFFFF, 0xFF, flg);
    }

    /** `__G_BAOrPO__`. */
    method BAOrPO(typ: bv32, addr: bv32, gr: bv32, oFlg: bv32, flg: bv32)
      modifies this
      ensures Emitted(BAOrPOWords(typ, addr, gr, oFlg, flg))
    {
      Encode(BAOrPOWords(typ, addr, gr, oFlg, flg));
    }

    /** `__G_SetBAOrPOToCodeAddress__`. */
    method SetBAOrPOToCodeAddress(typ: bv32, offs: Int16)
      modifies this
      ensures Emitted(SetToCodeAddressWords(typ, offs))
    {
      Encode(SetToCodeAddressWords(typ, offs));
    }

    /** `__G_ControlFlow__`. */
    method ControlFlow(typ: bv32, cnt: bv32, offs: Int16, block: bv32, exec: bv32)
      modifies this
      ensures Emitted(ControlFlowWords(typ, cnt, offs, block, exec))
    {
      Encode(ControlFlowWords(typ, cnt, offs, block, exec));
    }

    /** `__G_GR__`. */
    method GR(typ: bv32, gr: bv32, dtype: bv32, addrOrVal: bv32, oFlg: bv32, flg: bv32)
      modifies this
      ensures Emitted(GRWords(typ, gr, dtype, addrOrVal, oFlg, flg))
    {
      Encode(GRWords(typ, gr, dtype, addrOrVal, oFlg, flg));
    }

    /** `__G_GROperation__`. */
    method GROperation(typ: bv32, grn: bv32, grk: bv32, op: bv32, ref: bv32, addrOrVal: bv32)
      modifies this
      ensures Emitted(GROperationWords(typ, grn, grk, op, ref, addrOrVal))
    {
      Encode(GROperationWords(typ, grn, grk, op, ref, addrOrVal));
    }

    /** `__G_CopyMem__`. */
    method CopyMem(typ: bv32, grn: bv32, grk: bv32, addr: bv32, cnt: bv32, flg: bv32)
      modifies this
      ensures Emitted(CopyMemWords(typ, grn, grk, addr, cnt, flg))
    {
      Encode(CopyMemWords(typ, grn, grk, addr, cnt, flg));
    }

    /** `__G_SpecIf__`: the endif bit is always set. */
    method SpecIf(typ: bv32, grn: bv32, grk: bv32, addr: bv32, mask: bv32, flg: bv32)
      modifies this
      ensures Emitted(LegacySpecIfWords(typ, grn, grk, addr, mask, flg))
    {
      Encode(LegacySpecIfWords(typ, grn, grk, addr, mask, flg));
    }

    /** `G_Switch`. */
    method Switch()
      modifies this
      ensures Emitted(SwitchWords())
    {
      Encode(SwitchWords());
    }

    /** `__G_RangeCheck__`. */
    method RangeCheck(startAddr: bv32, endAddr: bv32, endif: bv32, flg: bv32)
      modifies this
      ensures Emitted(RangeCheckWords(startAddr, endAddr, endif, flg))
    {
      Encode(RangeCheckWords(startAddr, endAddr, endif, flg));
    }

    /** `__G_End__`. */
    method End(typ: bv32, ba: bv32, po: bv32, endifCount: bv32, doelse: bv32)
      modifies this
      ensures Emitted(EndWords(typ, ba, po, endifCount, doelse))
    {
      Encode(EndWords(typ, ba, po, endifCount, doelse));
    }

    /** `G_EndOfCodeList`. */
    method EndOfCodeList()
      modifies this
      ensures Emitted(EndGCTWords())
    {
      Encode(EndGCTWords());
    }

    /**
     * One statement of a body: the counter and labels move as Step says, and
     * standard output gains the text of what Step prints.
     */
    method Exec(s: Stmt)
      requires s.Code? || s.l < |labels|
      modifies this
      ensures curLine == StepLine(old(curLine), s)
      ensures labels == StepLabels(old(isProcLabels), old(curLine), old(labels), s)
      ensures isProcLabels == old(isProcLabels)
      ensures out == old(out) + CallRecords(Emits(old(isProcLabels), old(curLine), old(labels), s))
    {
      match s
      case Define(l) =>
        DefineLabel(l);
        assert old(out) + CallRecords([]) == old(out);
      case Code(r) =>
        Encode(r);
      case Jump(typ, l, block, exec) =>
        var offs := GetLabel(labels[l]);
        ControlFlow(typ, 0, offs, block, exec);
      case SetToCode(typ, l) =>
        var offs := GetLabel(labels[l]);
        SetBAOrPOToCodeAddress(typ, offs);
    }

    /** The body between `G_BeginCode` and `G_EndCode`, run once: one pass, its calls printed as text. */
    method RunBody(body: seq<Stmt>)
      requires Declared(body, |labels|)
      modifies this
      ensures var r := Run(old(isProcLabels), PassState(old(curLine), old(labels), []), body);
        && curLine == r.line && labels == r.labels && isProcLabels == old(isProcLabels)
        && out == old(out) + CallRecords(r.printed)
    {
      ghost var st0 := PassState(curLine, labels, []);
      ghost var r := st0;
      var i := 0;
      while i < |body|
        invariant i <= |body| && isProcLabels == old(isProcLabels)
        invariant r == Run(isProcLabels, st0, body[..i])
        invariant curLine == r.line && labels == r.labels && out == old(out) + CallRecords(r.printed)
      {
        ghost var e := Emits(isProcLabels, curLine, labels, body[i]);
        Exec(body[i]);
        CallRecordsAppend(r.printed, e);
        PyStr.AppendAssoc(old(out), CallRecords(r.printed), CallRecords(e));
        RunSnoc(isProcLabels, st0, body, i);
        r := Step(isProcLabels, r, body[i]);
        i := i + 1;
      }
      assert body[..i] == body;
    }

    /**
     * `G_BeginCode` ... `G_EndCode`: the body twice, each time from line 0, the
     * first time as the label pass.
     */
    method BeginCode(body: seq<Stmt>)
      requires Declared(body, |labels|)
      modifies this
      ensures !isProcLabels
      ensures var p := TwoPasses(old(labels), body);
        curLine == p.line && labels == p.labels && out == old(out) + CallRecords(p.printed)
      ensures Lines(body) < 0x7FFF ==>
        var L := BodyLabels(old(labels), body);
        && labels == L
        && out == old(out) + CallRecords(Calls(L, body)[..Min(Lines(body), MaxLines)])
    {
      ghost var p0 := Run(true, PassState(0, labels, []), body);
      LabelPass(PassState(0, labels, []), body);
      for pass := 0 to 2
        invariant pass == 0 ==> labels == old(labels) && out == old(out)
        invariant pass == 1 ==> labels == p0.labels && out == old(out)
        invariant pass == 2 ==> !isProcLabels && var p := Run(false, PassState(0, p0.labels, []), body);
          curLine == p.line && labels == p.labels && out == old(out) + CallRecords(p.printed)
      {
        curLine := 0;
        isProcLabels := pass == 0;
        RunBody(body);
        if pass == 0 {
          assert old(out) + CallRecords([]) == old(out);
        }
      }
      if Lines(body) < 0x7FFF {
        TwoPassesPrint(old(labels), body);
      }
    }
  }
}
