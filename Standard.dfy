/**
 * The command line of src/standard.c: `main` folds the option stream of
 * getopt_long ("-:hyo:c:") into the help and yes flags, the output file name
 * and the code-list format, then applies the default format and decides
 * whether the output is binary. getopt_long itself is not modelled: its
 * return values while argv lasts arrive as a sequence of items, followed by
 * the -1 it repeats once argv is used up.
 */
module Standard {
  import opened Wrappers

  /** `CLFFmt` of the generated standard_defs.h; NoFmt is CLF_NONE, "not chosen yet". */
  datatype CLFFmt = Dolphin | GCT | Ocarina | Raw | RawText | NoFmt

  /** What one getopt_long call returned: '\1', one of h y o c, '?', ':', any other code, or -1. */
  datatype OptChar =
    | NonOption
    | HelpOpt
    | YesOpt
    | OutfileOpt
    | CodefmtOpt
    | UnknownOpt
    | MissingArg
    | OtherCode(code: int)
    | EndOfOpts

  /**
   * One call's result: the option character, `optarg` (None for NULL), and
   * whether `argv[optind - 1]` is "--" afterwards.
   */
  datatype Item = Item(optc: OptChar, optarg: Option<string>, dashDash: bool)

  /** The ways `main` gives up with exit code 1, one per error message. */
  datatype CliError =
    | OutfileTwice
    | OutfileMissing
    | CodefmtTwice
    | CodefmtMissing
    | CodefmtInvalid
    | UnknownOption
    | MissingValue
    | UnexpectedCode

  /** The locals the option loop updates. */
  datatype Opts = Opts(help: bool, yes: bool, outfName: Option<string>, listFmt: CLFFmt, ignoreOpts: bool)

  function Initial(): Opts {
    Opts(false, false, None, NoFmt, false)
  }

  /** What one pass of the loop does: go on, leave the loop, or return 1. */
  datatype Flow = Next(st: Opts) | Stop(st: Opts) | Abort(e: CliError)

  /** `STR_ISNULL`: a NULL or empty string. */
  predicate IsNull(s: Option<string>) {
    s.None? || s.value == ""
  }

  /** The ASCII lower-casing strcasecmp compares by. */
  function Lower(c: char): char {
    if 'A' <= c <= 'Z' then (c as int + 32) as char else c
  }

  /** `!cstrcmpi(a, b)`: equal ignoring ASCII case. */
  predicate SameIgnoringCase(a: string, b: string) {
    |a| == |b| && forall i :: 0 <= i < |a| ==> Lower(a[i]) == Lower(b[i])
  }

  /** The `-c` value naming each format. */
  function FormatName(f: CLFFmt): string
    requires f != NoFmt
  {
    match f
    case Dolphin => "dolphin"
    case GCT => "gct"
    case Ocarina => "ocarina"
    case Raw => "raw"
    case RawText => "rawtext"
  }

  /** The format a `-c` value names, tried in the order of the source; None for anything else. */
  function ParseFormat(s: string): (f: Option<CLFFmt>)
    ensures f != Some(NoFmt)
  {
    if SameIgnoringCase(s, "dolphin") then Some(Dolphin)
    else if SameIgnoringCase(s, "gct") then Some(GCT)
    else if SameIgnoringCase(s, "ocarina") then Some(Ocarina)
    else if SameIgnoringCase(s, "raw") then Some(Raw)
    else if SameIgnoringCase(s, "rawtext") then Some(RawText)
    else None
  }

  /** Two names that differ in their first letter (ignoring case) cannot both match one value. */
  lemma {:induction false} FirstLetterDiffers(s: string, a: string, b: string)
    requires |a| > 0 && |b| > 0 && Lower(a[0]) != Lower(b[0])
    ensures !(SameIgnoringCase(s, a) && SameIgnoringCase(s, b))
  {
    if SameIgnoringCase(s, a) {
      assert Lower(s[0]) == Lower(a[0]);
    }
  }

  /** A `-c` value selects a format exactly when it spells that format's name in any case. */
  lemma {:induction false} ParseFormatMeans(s: string, f: CLFFmt)
    requires f != NoFmt
    ensures ParseFormat(s) == Some(f) <==> SameIgnoringCase(s, FormatName(f))
  {
    FirstLetterDiffers(s, "dolphin", "ocarina");
    FirstLetterDiffers(s, "dolphin", "rawtext");
    FirstLetterDiffers(s, "ocarina", "rawtext");
    FirstLetterDiffers(s, "gct", "raw");
  }

  /** One pass of the `while (standardLoopSafety)` loop over the item getopt_long returned. */
  function Step(st: Opts, it: Item): Flow {
    var c := if st.ignoreOpts && !it.optc.EndOfOpts? then NonOption else it.optc;
    var st := st.(ignoreOpts := st.ignoreOpts || it.dashDash);
    if it.dashDash then Next(st)
    else
      match c
      case EndOfOpts => Stop(st)
      case NonOption => Next(st)
      case OutfileOpt =>
        if st.outfName.Some? then Abort(OutfileTwice)
        else if IsNull(it.optarg) then Abort(OutfileMissing)
        else Next(st.(outfName := it.optarg))
      case CodefmtOpt =>
        if st.listFmt != NoFmt then Abort(CodefmtTwice)
        else if IsNull(it.optarg) then Abort(CodefmtMissing)
        else (match ParseFormat(it.optarg.value)
              case Some(f) => Next(st.(listFmt := f))
              case None => Abort(CodefmtInvalid))
      case YesOpt => Next(st.(yes := true))
      case HelpOpt => Next(st.(help := true))
      case UnknownOpt => Abort(UnknownOption)
      case MissingArg => Abort(MissingValue)
      case OtherCode(_) => Abort(UnexpectedCode)
  }

  /**
   * The call getopt_long answers once argv is used up: -1, on every call from
   * then on, with optind no longer moving, so `argv[optind - 1]` is whatever
   * the last argument it consumed was.
   */
  function Terminal(dashDash: bool): Item {
    Item(EndOfOpts, None, dashDash)
  }

  /**
   * The option loop as the evidently intended reference: getopt_long's final
   * -1 ends it, whether or not the last argument consumed was "--".
   */
  function Parse(st: Opts, items: seq<Item>): Result<Opts, CliError>
    decreases |items|
  {
    if items == [] then Success(st)
    else
      match Step(st, items[0])
      case Next(s) => Parse(s, items[1..])
      case Stop(s) => Success(s)
      case Abort(e) => Failure(e)
  }

  /** How the loop as written ends: with a result, or by spinning for ever. */
  datatype Outcome = Done(r: Result<Opts, CliError>) | Loops

  /**
   * The option loop as written: `items` are getopt_long's answers while argv
   * lasts, then `Terminal(lastDashDash)` comes back on every further call.
   * A pass over that final -1 that goes on instead of breaking meets the same
   * item in the same state next time (TerminalSpins), so the loop never ends.
   */
  function ParseAsWritten(st: Opts, items: seq<Item>, lastDashDash: bool): Outcome
    decreases |items|
  {
    if items == [] then
      match Step(st, Terminal(lastDashDash))
      case Next(_) => Loops
      case Stop(s) => Done(Success(s))
      case Abort(e) => Done(Failure(e))
    else
      match Step(st, items[0])
      case Next(s) => ParseAsWritten(s, items[1..], lastDashDash)
      case Stop(s) => Done(Success(s))
      case Abort(e) => Done(Failure(e))
  }

  /** The loop reads every item of argv's stretch without leaving or giving up. */
  predicate RunsOut(st: Opts, items: seq<Item>)
    decreases |items|
  {
    items == [] || (Step(st, items[0]).Next? && RunsOut(Step(st, items[0]).st, items[1..]))
  }

  /** The settings `main` goes on with after option parsing. */
  datatype Config = Config(fmt: CLFFmt, isBin: bool, outfName: Option<string>, yes: bool)

  /**
   * How `main` continues: usage text and exit 1, an error and exit 1,
   * printing the list, or never leaving the option loop.
   */
  datatype Exit = Usage | Error(e: CliError) | Emit(cfg: Config) | Hangs

  /**
   * After the loop: the format defaults to Dolphin, `-h` wins over producing
   * output, and the output is binary exactly for GCT and raw.
   */
  function Finish(r: Result<Opts, CliError>): (x: Exit)
    ensures !x.Hangs?
    ensures x.Error? <==> r.Failure?
    ensures r.Failure? ==> x == Error(r.error)
    ensures x.Usage? <==> r.Success? && r.value.help
    ensures x.Emit? ==> x.cfg.fmt != NoFmt && (x.cfg.isBin <==> x.cfg.fmt == GCT || x.cfg.fmt == Raw)
    ensures x.Emit? ==> x.cfg.outfName == r.value.outfName && x.cfg.yes == r.value.yes
    ensures x.Emit? && r.value.listFmt != NoFmt ==> x.cfg.fmt == r.value.listFmt
    ensures r.Success? && !r.value.help && r.value.listFmt == NoFmt ==> x.Emit? && x.cfg.fmt == Dolphin
  {
    match r
    case Failure(e) => Error(e)
    case Success(o) =>
      var fmt := if o.listFmt == NoFmt then Dolphin else o.listFmt;
      if o.help then Usage else Emit(Config(fmt, fmt == GCT || fmt == Raw, o.outfName, o.yes))
  }

  /** What `main` does after a loop that may not end. */
  function Conclude(o: Outcome): Exit {
    match o
    case Loops => Hangs
    case Done(r) => Finish(r)
  }

  /**
   * The option handling of `main` as written: the loop over getopt_long's
   * results, then the terminal -1 it repeats once argv is used up.
   */
  method ParseCommandLine(items: seq<Item>, lastDashDash: bool) returns (x: Exit)
    ensures x == Conclude(ParseAsWritten(Initial(), items, lastDashDash))
  {
    var help, yes := false, false;
    var outfName: Option<string> := None;
    var listFmt := NoFmt;
    var ignoreOpts := false;
    var i := 0;
    while true
      invariant i <= |items|
      invariant ParseAsWritten(Opts(help, yes, outfName, listFmt, ignoreOpts), items[i..], lastDashDash)
             == ParseAsWritten(Initial(), items, lastDashDash)
      decreases |items| - i
    {
      var atEnd := i == |items|;
      var it;
      if atEnd {
        it := Terminal(lastDashDash);
      } else {
        it := items[i];
        assert items[i..][1..] == items[i + 1..];
        i := i + 1;
      }
      var optc := it.optc;
      if ignoreOpts && !optc.EndOfOpts? {
        optc := NonOption;
      }
      if !ignoreOpts {
        ignoreOpts := it.dashDash;
      }
      if it.dashDash {
        if atEnd {
          // every later pass gets the same -1 in the same state and continues
          return Hangs;
        }
        continue;
      } else if optc.EndOfOpts? {
        break;
      }
      match optc {
        case NonOption =>
        case OutfileOpt =>
          if outfName.Some? {
            return Error(OutfileTwice);
          } else if IsNull(it.optarg) {
            return Error(OutfileMissing);
          } else {
            outfName := it.optarg;
          }
        case CodefmtOpt =>
          if listFmt != NoFmt {
            return Error(CodefmtTwice);
          } else if IsNull(it.optarg) {
            return Error(CodefmtMissing);
          } else {
            var f := ParseFormat(it.optarg.value);
            if f.None? {
              return Error(CodefmtInvalid);
            }
            listFmt := f.value;
          }
        case YesOpt =>
          yes := true;
        case HelpOpt =>
          help := true;
        case UnknownOpt =>
          return Error(UnknownOption);
        case MissingArg =>
          return Error(MissingValue);
        case OtherCode(_) =>
          return Error(UnexpectedCode);
      }
    }
    if listFmt == NoFmt {
      listFmt := Dolphin;
    }
    if help {
      return Usage;
    }
    var isBin := listFmt == GCT || listFmt == Raw;
    return Emit(Config(listFmt, isBin, outfName, yes));
  }

  /* ---------------------------------------------------------------- lemmas */

  /**
   * A `-c` option read while options count: it is accepted exactly when no
   * format was chosen before and its value names a format, which it then
   * chooses; a second `-c` and an empty value are errors.
   */
  lemma {:induction false} CodefmtOption(st: Opts, it: Item)
    requires !st.ignoreOpts && !it.dashDash && it.optc == CodefmtOpt
    ensures st.listFmt != NoFmt ==> Step(st, it) == Abort(CodefmtTwice)
    ensures st.listFmt == NoFmt && IsNull(it.optarg) ==> Step(st, it) == Abort(CodefmtMissing)
    ensures Step(st, it).Next? <==>
      st.listFmt == NoFmt && !IsNull(it.optarg) && exists f :: f != NoFmt && SameIgnoringCase(it.optarg.value, FormatName(f))
    ensures forall f :: f != NoFmt ==>
      (Step(st, it) == Next(st.(listFmt := f)) <==> st.listFmt == NoFmt && !IsNull(it.optarg) && SameIgnoringCase(it.optarg.value, FormatName(f)))
  {
    if st.listFmt == NoFmt && !IsNull(it.optarg) {
      var s := it.optarg.value;
      forall f | f != NoFmt {
        ParseFormatMeans(s, f);
      }
      if ParseFormat(s).Some? {
        assert SameIgnoringCase(s, FormatName(ParseFormat(s).value));
      }
    }
  }

  /** The same for `-o`: a second one and an empty value are errors; otherwise it names the output file. */
  lemma {:induction false} OutfileOption(st: Opts, it: Item)
    requires !st.ignoreOpts && !it.dashDash && it.optc == OutfileOpt
    ensures st.outfName.Some? ==> Step(st, it) == Abort(OutfileTwice)
    ensures st.outfName.None? && IsNull(it.optarg) ==> Step(st, it) == Abort(OutfileMissing)
    ensures st.outfName.None? && !IsNull(it.optarg) ==> Step(st, it) == Next(st.(outfName := it.optarg))
  {
  }

  /** Giving `-c` twice fails even when the first value is valid. */
  lemma {:induction false} CodefmtTwiceFails(a: string, b: Option<string>, rest: seq<Item>)
    requires ParseFormat(a).Some?
    ensures Parse(Initial(), [Item(CodefmtOpt, Some(a), false), Item(CodefmtOpt, b, false)] + rest) == Failure(CodefmtTwice)
  {
    var items := [Item(CodefmtOpt, Some(a), false), Item(CodefmtOpt, b, false)] + rest;
    assert items[1..] == [Item(CodefmtOpt, b, false)] + rest;
    assert items[1..][0] == Item(CodefmtOpt, b, false);
  }

  /** Once a "--" has been seen nothing else counts: the loop only runs to the end. */
  lemma {:induction false} IgnoredAfterDashDash(st: Opts, items: seq<Item>)
    requires st.ignoreOpts
    ensures Parse(st, items) == Success(st)
    decreases |items|
  {
    if items != [] {
      assert Step(st, items[0]) == Next(st) || Step(st, items[0]) == Stop(st);
      IgnoredAfterDashDash(st, items[1..]);
    }
  }

  /** A run without any `-c` keeps the format it started with; from the start that is the Dolphin default. */
  lemma {:induction false} NoCodefmtKeepsFormat(st: Opts, items: seq<Item>)
    requires forall i :: 0 <= i < |items| ==> items[i].optc != CodefmtOpt
    requires Parse(st, items).Success?
    ensures Parse(st, items).value.listFmt == st.listFmt
    decreases |items|
  {
    if items != [] {
      match Step(st, items[0])
      case Next(s) =>
        assert s.listFmt == st.listFmt;
        NoCodefmtKeepsFormat(s, items[1..]);
      case Stop(s) =>
      case Abort(_) =>
    }
  }

  /** Without `-c` and `-h` and without errors, the list is printed as text in Dolphin format. */
  lemma {:induction false} DefaultIsDolphin(items: seq<Item>)
    requires forall i :: 0 <= i < |items| ==> items[i].optc != CodefmtOpt
    requires Parse(Initial(), items).Success? && !Parse(Initial(), items).value.help
    ensures Finish(Parse(Initial(), items)).Emit?
    ensures Finish(Parse(Initial(), items)).cfg.fmt == Dolphin && !Finish(Parse(Initial(), items)).cfg.isBin
  {
    NoCodefmtKeepsFormat(Initial(), items);
  }

  /** Once `-h` is seen, a run that does not fail ends in the usage text, whatever follows. */
  lemma {:induction false} HelpSticks(st: Opts, items: seq<Item>)
    requires st.help && Parse(st, items).Success?
    ensures Parse(st, items).value.help
    ensures Finish(Parse(st, items)) == Usage
    decreases |items|
  {
    if items != [] {
      match Step(st, items[0])
      case Next(s) =>
        assert s.help;
        HelpSticks(s, items[1..]);
      case Stop(s) =>
      case Abort(_) =>
    }
  }

  /**
   * getopt_long's final -1: after a last argument other than "--" it leaves
   * the loop with the state unchanged; after "--" the pass continues into a
   * state in which the same -1 continues again, for ever.
   */
  lemma {:induction false} TerminalSpins(st: Opts)
    ensures Step(st, Terminal(false)) == Stop(st)
    ensures Step(st, Terminal(true)) == Next(st.(ignoreOpts := true))
    ensures Step(st.(ignoreOpts := true), Terminal(true)) == Next(st.(ignoreOpts := true))
  {
  }

  /**
   * The loop as written agrees with the reference Parse except on exactly the
   * runs that read all of argv and whose last argument is "--": those spin.
   */
  lemma {:induction false} AsWrittenAgrees(st: Opts, items: seq<Item>, lastDashDash: bool)
    ensures ParseAsWritten(st, items, lastDashDash) ==
      (if lastDashDash && RunsOut(st, items) then Loops else Done(Parse(st, items)))
    decreases |items|
  {
    if items == [] {
      TerminalSpins(st);
    } else {
      match Step(st, items[0])
      case Next(s) => AsWrittenAgrees(s, items[1..], lastDashDash);
      case Stop(s) =>
      case Abort(_) =>
    }
  }

  /** Hence `main` as written ends as the reference does, or hangs exactly in those runs. */
  lemma {:induction false} CommandLineAgrees(items: seq<Item>, lastDashDash: bool)
    ensures Conclude(ParseAsWritten(Initial(), items, lastDashDash)) ==
      (if lastDashDash && RunsOut(Initial(), items) then Hangs else Finish(Parse(Initial(), items)))
  {
    AsWrittenAgrees(Initial(), items, lastDashDash);
  }

  /**
   * `prog --` (getopt_long skips the "--" and answers -1 at once) and
   * `prog -o --` (the "--" is the value of -o, so that pass is skipped too)
   * never leave the loop, where the reference prints the list in Dolphin format.
   */
  lemma {:induction false} TrailingDashDashHangs()
    ensures ParseAsWritten(Initial(), [], true) == Loops
    ensures ParseAsWritten(Initial(), [Item(OutfileOpt, Some("--"), true)], true) == Loops
    ensures Finish(Parse(Initial(), [])) == Emit(Config(Dolphin, false, None, false))
    ensures Finish(Parse(Initial(), [Item(OutfileOpt, Some("--"), true)])) == Emit(Config(Dolphin, false, None, false))
  {
    var items := [Item(OutfileOpt, Some("--"), true)];
    assert items[1..] == [];
  }
}
