/**
 * The manifest checks of compile.py (Code.validate, CodeList.validate and
 * ValidationError) as functions on record values. Records.dfy wraps them in the
 * classes whose fields validation rewrites in place.
 */
module Validation {
  import opened Wrappers
  import opened PyStr

  /** An attribute as a PyYAML-constructed record may hold it: a str, None, or any other object. */
  datatype PyVal = Str(s: string) | NoneVal | OtherVal

  /** The fields validation can name, as they are spelt in the error. */
  datatype Field = File | Name | Author | Description | Project | Title | Game | GameId | Codes | Assemblies | GlobalSet

  function FieldName(f: Field): string {
    match f
    case File => "file"
    case Name => "name"
    case Author => "author"
    case Description => "description"
    case Project => "project"
    case Title => "title"
    case Game => "game"
    case GameId => "game_id"
    case Codes => "codes"
    case Assemblies => "assemblies"
    case GlobalSet => "global_set"
  }

  /** The messages validation raises. */
  datatype Message =
    | SingleLine | InvalidChars | GameIdShape | DescriptionType | DescriptionChars
    | CodesType | AssembliesType | AssembliesChars

  function MessageText(m: Message): string {
    match m
    case SingleLine => "Expected non-empty single line str"
    case InvalidChars => "Invalid characters: :, \\, /, \", ', ., and/or %"
    case GameIdShape => "Expected non-empty single line str of length 6"
    case DescriptionType => "Expected type of str or None"
    case DescriptionChars => "Invalid characters: \\, \", ', and/or %"
    case CodesType => "Expected type of list[Code]"
    case AssembliesType => "Expected type of list[str] or None"
    case AssembliesChars => "Invalid characters: :,  , \\, /, \", ', ., and/or %"
  }

  /** ValidationError(message, name): the message and the name of the offending field. */
  datatype ValidationError = ValidationError(message: Message, name: Field)

  /** ValidationError.__str__. */
  function ErrorText(e: ValidationError): string {
    "Failed to validate \"" + FieldName(e.name) + "\": " + MessageText(e.message)
  }

  /** Index of the first c in s, or |s| when there is none. */
  function FirstIndex(s: string, c: char): nat {
    if s == [] || s[0] == c then 0 else 1 + FirstIndex(s[1..], c)
  }

  lemma {:induction false} FirstIndexAfter(x: string, c: char, rest: string)
    requires c !in x
    ensures FirstIndex(x + [c] + rest, c) == |x|
  {
    if x != [] {
      assert (x + [c] + rest)[1..] == x[1..] + [c] + rest;
      FirstIndexAfter(x[1..], c, rest);
    }
  }

  lemma {:induction false} FieldNameInjective(f1: Field, f2: Field)
    requires FieldName(f1) == FieldName(f2)
    ensures f1 == f2
  {
  }

  lemma {:induction false} MessageTextInjective(m1: Message, m2: Message)
    requires MessageText(m1) == MessageText(m2)
    ensures m1 == m2
  {
  }

  lemma {:induction false} FieldNameUnquoted(f: Field)
    ensures '"' !in FieldName(f)
  {
  }

  /** `Failed to validate "<name>": <message>` can be split back into its name and message. */
  lemma {:induction false} SplitErrorText(n1: string, m1: string, n2: string, m2: string)
    requires '"' !in n1 && '"' !in n2
    requires "Failed to validate \"" + n1 + "\": " + m1 == "Failed to validate \"" + n2 + "\": " + m2
    ensures n1 == n2 && m1 == m2
  {
    var p := "Failed to validate \"";
    var t1, t2 := p + n1 + "\": " + m1, p + n2 + "\": " + m2;
    var a, b := t1[|p|..], t2[|p|..];
    assert a == n1 + ['"'] + (": " + m1);
    assert b == n2 + ['"'] + (": " + m2);
    FirstIndexAfter(n1, '"', ": " + m1);
    FirstIndexAfter(n2, '"', ": " + m2);
    assert n1 == a[..|n1|] == b[..|n2|] == n2;
    assert m1 == a[|n1| + 3..] == b[|n2| + 3..] == m2;
  }

  /** The printed text of an error determines the error: field and message can both be read back. */
  lemma {:induction false} ErrorTextInjective(e1: ValidationError, e2: ValidationError)
    requires ErrorText(e1) == ErrorText(e2)
    ensures e1 == e2
  {
    FieldNameUnquoted(e1.name);
    FieldNameUnquoted(e2.name);
    SplitErrorText(FieldName(e1.name), MessageText(e1.message), FieldName(e2.name), MessageText(e2.message));
    FieldNameInjective(e1.name, e2.name);
    MessageTextInjective(e1.message, e2.message);
  }

  function ScalarForbidden(): string { ":\\/\"'.%" }
  function DescriptionForbidden(): string { "\\\"'%" }
  function AssemblyForbidden(): string { ": \\/\"'.%-" }

  /** `if isinstance(x, str): x = x.strip()` */
  function StripVal(v: PyVal): PyVal {
    if v.Str? then Str(Strip(v.s)) else v
  }

  lemma {:induction false} StripValIdempotent(v: PyVal)
    ensures StripVal(StripVal(v)) == StripVal(v)
  {
    if v.Str? {
      StripIdempotent(v.s);
    }
  }

  /** No character of s is one of cs. */
  predicate Clean(s: string, cs: string) {
    forall i :: 0 <= i < |s| ==> s[i] !in cs
  }

  lemma {:induction false} ContainsAnyIsNotClean(s: string, cs: string)
    ensures ContainsAny(s, cs) <==> !Clean(s, cs)
  {
    ContainsAnyMeans(s, cs);
  }

  /** The single-line scalar check shared by every name-like field. */
  function CheckScalar(v: PyVal, name: Field): Outcome<ValidationError> {
    if !v.Str? || '\n' in v.s then Fail(ValidationError(SingleLine, name))
    else if ContainsAny(v.s, ScalarForbidden()) then Fail(ValidationError(InvalidChars, name))
    else Pass
  }

  /** What a scalar field must be once trimmed, stated without the search order of the check. */
  predicate GoodScalar(v: PyVal) {
    v.Str? && '\n' !in v.s && Clean(v.s, ScalarForbidden())
  }

  /** The check passes exactly on good values and otherwise fails with the field's own name. */
  lemma {:induction false} CheckScalarMeans(v: PyVal, name: Field)
    ensures CheckScalar(v, name).Pass? <==> GoodScalar(v)
    ensures CheckScalar(v, name).Fail? ==> CheckScalar(v, name).error.name == name
    ensures CheckScalar(v, name).Fail? ==>
      (CheckScalar(v, name).error.message == SingleLine <==> (!v.Str? || '\n' in v.s))
  {
    if v.Str? {
      ContainsAnyIsNotClean(v.s, ScalarForbidden());
    }
  }

  /* ---------------------------------------------------------------- Code */

  datatype CodeValue = CodeValue(file: PyVal, name: PyVal, author: PyVal, description: PyVal)

  /** The trimming pass of Code.validate: every str field is stripped. */
  function TrimCode(c: CodeValue): CodeValue {
    CodeValue(StripVal(c.file), StripVal(c.name), StripVal(c.author), StripVal(c.description))
  }

  lemma {:induction false} TrimCodeIdempotent(c: CodeValue)
    ensures TrimCode(TrimCode(c)) == TrimCode(c)
  {
    StripValIdempotent(c.file);
    StripValIdempotent(c.name);
    StripValIdempotent(c.author);
    StripValIdempotent(c.description);
  }

  function CheckDescription(v: PyVal): Outcome<ValidationError> {
    if v.NoneVal? then Pass
    else if !v.Str? then Fail(ValidationError(DescriptionType, Description))
    else if ContainsAny(v.s, DescriptionForbidden()) then Fail(ValidationError(DescriptionChars, Description))
    else Pass
  }

  /** An absent description is fine; a present one may hold newlines, '.' and ':' but none of \ " ' %. */
  predicate GoodDescription(v: PyVal) {
    v.NoneVal? || (v.Str? && Clean(v.s, DescriptionForbidden()))
  }

  lemma {:induction false} CheckDescriptionMeans(v: PyVal)
    ensures CheckDescription(v).Pass? <==> GoodDescription(v)
  {
    if v.Str? {
      ContainsAnyIsNotClean(v.s, DescriptionForbidden());
    }
  }

  /** The checks of Code.validate, in source order, on already trimmed fields. */
  function CheckCode(c: CodeValue): Outcome<ValidationError> {
    var f := CheckScalar(c.file, File);
    if f.Fail? then f else
    var n := CheckScalar(c.name, Name);
    if n.Fail? then n else
    var a := CheckScalar(c.author, Author);
    if a.Fail? then a else
    CheckDescription(c.description)
  }

  /** Code.validate on a record value: trim, then check; the accepted record is the trimmed one. */
  function ValidateCode(c: CodeValue): Result<CodeValue, ValidationError> {
    var t := TrimCode(c);
    match CheckCode(t)
    case Pass => Success(t)
    case Fail(e) => Failure(e)
  }

  predicate GoodCode(t: CodeValue) {
    GoodScalar(t.file) && GoodScalar(t.name) && GoodScalar(t.author) && GoodDescription(t.description)
  }

  /**
   * Code.validate accepts exactly the records whose trimmed file, name and author
   * are single-line strings free of : \ / " ' . % and whose description is absent
   * or free of \ " ' %; a rejection names the first offending field in the order
   * file, name, author, description.
   */
  lemma {:induction false} ValidateCodeMeans(c: CodeValue)
    ensures var t := TrimCode(c);
      && (ValidateCode(c).Success? <==> GoodCode(t))
      && (ValidateCode(c).Success? ==> ValidateCode(c).value == t)
      && (ValidateCode(c).Failure? ==>
           var n := ValidateCode(c).error.name;
           && (n == File <==> !GoodScalar(t.file))
           && (n == Name <==> GoodScalar(t.file) && !GoodScalar(t.name))
           && (n == Author <==> GoodScalar(t.file) && GoodScalar(t.name) && !GoodScalar(t.author))
           && (n == Description <==> GoodScalar(t.file) && GoodScalar(t.name) && GoodScalar(t.author)))
  {
    var t := TrimCode(c);
    CheckScalarMeans(t.file, File);
    CheckScalarMeans(t.name, Name);
    CheckScalarMeans(t.author, Author);
    CheckDescriptionMeans(t.description);
  }

  /** Validating an accepted record again changes no field and raises nothing. */
  lemma {:induction false} ValidateCodeIdempotent(c: CodeValue)
    requires ValidateCode(c).Success?
    ensures ValidateCode(ValidateCode(c).value) == ValidateCode(c)
  {
    TrimCodeIdempotent(c);
  }

  /** A record that was trimmed already, even one validation then rejected, validates exactly as before. */
  lemma {:induction false} ValidateCodeAfterTrim(c: CodeValue)
    ensures ValidateCode(TrimCode(c)) == ValidateCode(c)
  {
    TrimCodeIdempotent(c);
  }

  /** The messages claim "non-empty", yet empty strings pass: only type, newlines and characters are checked. */
  lemma {:induction false} EmptyFieldsAccepted()
    ensures ValidateCode(CodeValue(Str(""), Str(""), Str(""), Str(""))) == Success(CodeValue(Str(""), Str(""), Str(""), Str("")))
  {
    assert !ContainsAny("", ScalarForbidden());
    assert !ContainsAny("", DescriptionForbidden());
  }

  /* ------------------------------------------------------------ CodeList */

  /** The `codes` attribute: a list whose elements are Code records (Some) or other objects (None), or no list. */
  datatype CodesVal = CodesList(items: seq<Option<CodeValue>>) | CodesNotList
  /** The `assemblies` attribute: None, a list of arbitrary values, or some other object. */
  datatype AsmVal = AsmNone | AsmList(items: seq<PyVal>) | AsmOther

  datatype CodeListValue = CodeListValue(
    project: PyVal, title: PyVal, author: PyVal, game: PyVal, gameId: PyVal,
    codes: CodesVal, assemblies: AsmVal, globalSet: PyVal)

  /** `global_set` after validation's first pass: None becomes 'none', then a str is stripped. */
  function DefaultGlobalSet(v: PyVal): PyVal {
    StripVal(if v.NoneVal? then Str("none") else v)
  }

  /** The trimming pass of CodeList.validate on its own fields (codes are trimmed by their own validate). */
  function TrimHeader(l: CodeListValue): CodeListValue {
    l.(project := StripVal(l.project), title := StripVal(l.title), author := StripVal(l.author),
       game := StripVal(l.game), gameId := StripVal(l.gameId), globalSet := DefaultGlobalSet(l.globalSet))
  }

  function CheckGameId(v: PyVal): Outcome<ValidationError> {
    if !v.Str? || '\n' in v.s || |v.s| != 6 then Fail(ValidationError(GameIdShape, GameId))
    else if ContainsAny(v.s, ScalarForbidden()) then Fail(ValidationError(InvalidChars, GameId))
    else Pass
  }

  predicate AllCodes(items: seq<Option<CodeValue>>) {
    forall i :: 0 <= i < |items| ==> items[i].Some?
  }

  function CheckCodesType(c: CodesVal): Outcome<ValidationError> {
    if c.CodesNotList? || !AllCodes(c.items) then Fail(ValidationError(CodesType, Codes)) else Pass
  }

  /** `any(s in e for s in ': \\/"\'.%-' for e in self.assemblies)` over the str elements. */
  predicate AnyAssemblyDirty(items: seq<PyVal>)
    requires forall i :: 0 <= i < |items| ==> items[i].Str?
  {
    exists i :: 0 <= i < |items| && ContainsAny(items[i].s, AssemblyForbidden())
  }

  function CheckAssemblies(a: AsmVal): Outcome<ValidationError> {
    if a.AsmNone? then Pass
    else if a.AsmOther? || !(forall i :: 0 <= i < |a.items| ==> a.items[i].Str?) then
      Fail(ValidationError(AssembliesType, Assemblies))
    else if AnyAssemblyDirty(a.items) then Fail(ValidationError(AssembliesChars, Assemblies))
    else Pass
  }

  /** The checks of CodeList.validate before the per-code pass, in source order, on the trimmed record. */
  function CheckHeader(t: CodeListValue): Outcome<ValidationError> {
    var p := CheckScalar(t.project, Project);
    if p.Fail? then p else
    var ti := CheckScalar(t.title, Title);
    if ti.Fail? then ti else
    var a := CheckScalar(t.author, Author);
    if a.Fail? then a else
    var g := CheckScalar(t.game, Game);
    if g.Fail? then g else
    var id := CheckGameId(t.gameId);
    if id.Fail? then id else
    var c := CheckCodesType(t.codes);
    if c.Fail? then c else
    var asm := CheckAssemblies(t.assemblies);
    if asm.Fail? then asm else
    CheckScalar(t.globalSet, GlobalSet)
  }

  /** `all(c.validate() for c in self.codes)`: validate in order, the first error aborts. */
  function ValidateCodes(cs: seq<CodeValue>): (r: Result<seq<CodeValue>, ValidationError>)
    ensures r.Success? ==> |r.value| == |cs|
  {
    if cs == [] then Success([])
    else
      match ValidateCode(cs[0])
      case Failure(e) => Failure(e)
      case Success(c) =>
        match ValidateCodes(cs[1..])
        case Failure(e) => Failure(e)
        case Success(rest) => Success([c] + rest)
  }

  function CodeValues(items: seq<Option<CodeValue>>): seq<CodeValue>
    requires AllCodes(items)
  {
    seq(|items|, i requires 0 <= i < |items| => items[i].value)
  }

  function Wrap(cs: seq<CodeValue>): seq<Option<CodeValue>> {
    seq(|cs|, i requires 0 <= i < |cs| => Some(cs[i]))
  }

  /** CodeList.validate on a record value: trim, default, check the list's fields, then validate every code. */
  function ValidateCodeList(l: CodeListValue): Result<CodeListValue, ValidationError> {
    var t := TrimHeader(l);
    match CheckHeader(t)
    case Fail(e) => Failure(e)
    case Pass =>
      match ValidateCodes(CodeValues(t.codes.items))
      case Failure(e) => Failure(e)
      case Success(cs) => Success(t.(codes := CodesList(Wrap(cs))))
  }

  /** One code validated at a time: the list passes exactly when each code passes, with each code trimmed. */
  lemma {:induction false} ValidateCodesMeans(cs: seq<CodeValue>)
    ensures ValidateCodes(cs).Success? <==> forall i :: 0 <= i < |cs| ==> ValidateCode(cs[i]).Success?
    ensures ValidateCodes(cs).Success? ==>
      forall i :: 0 <= i < |cs| ==> ValidateCodes(cs).value[i] == TrimCode(cs[i])
  {
    if cs != [] {
      var tail := cs[1..];
      ValidateCodesMeans(tail);
      assert forall i :: 0 <= i < |tail| ==> tail[i] == cs[i + 1];
      if ValidateCodes(cs).Success? {
        var v := ValidateCodes(cs).value;
        assert v[0] == TrimCode(cs[0]);
        assert v[1..] == ValidateCodes(tail).value;
        forall i | 0 <= i < |cs| ensures ValidateCode(cs[i]).Success? && v[i] == TrimCode(cs[i]) {
          if i > 0 { assert v[i] == v[1..][i - 1]; }
        }
      }
    }
  }

  /** After k accepted codes, a rejected k-th code is the list's error. */
  lemma {:induction false} ValidateCodesFailsAt(cs: seq<CodeValue>, k: nat)
    requires k < |cs|
    requires forall i :: 0 <= i < k ==> ValidateCode(cs[i]).Success?
    requires ValidateCode(cs[k]).Failure?
    ensures ValidateCodes(cs) == Failure(ValidateCode(cs[k]).error)
  {
    if k > 0 {
      var tail := cs[1..];
      assert forall i :: 0 <= i < k - 1 ==> tail[i] == cs[i + 1];
      ValidateCodesFailsAt(tail, k - 1);
    }
  }

  /** A rejected list carries the error of its first rejected code. */
  lemma {:induction false} ValidateCodesFirstFailure(cs: seq<CodeValue>)
    requires ValidateCodes(cs).Failure?
    ensures exists j :: (0 <= j < |cs| && ValidateCode(cs[j]) == Failure(ValidateCodes(cs).error) &&
      forall i :: 0 <= i < j ==> ValidateCode(cs[i]).Success?)
  {
    if ValidateCode(cs[0]).Failure? {
      assert ValidateCode(cs[0]) == Failure(ValidateCodes(cs).error);
    } else {
      var tail := cs[1..];
      ValidateCodesFirstFailure(tail);
      var j :| (0 <= j < |tail| && ValidateCode(tail[j]) == Failure(ValidateCodes(tail).error) &&
        forall i :: 0 <= i < j ==> ValidateCode(tail[i]).Success?);
      assert ValidateCode(cs[j + 1]) == Failure(ValidateCodes(cs).error);
      forall i | 0 <= i < j + 1 ensures ValidateCode(cs[i]).Success? {
        if i > 0 { assert cs[i] == tail[i - 1]; }
      }
    }
  }

  lemma {:induction false} ValidateCodesIdempotent(cs: seq<CodeValue>)
    requires ValidateCodes(cs).Success?
    ensures ValidateCodes(ValidateCodes(cs).value) == ValidateCodes(cs)
  {
    if cs != [] {
      ValidateCodeIdempotent(cs[0]);
      ValidateCodesIdempotent(cs[1..]);
      var v := ValidateCodes(cs).value;
      assert v[1..] == ValidateCodes(cs[1..]).value;
    }
  }

  lemma {:induction false} TrimHeaderIdempotent(l: CodeListValue)
    ensures TrimHeader(TrimHeader(l)) == TrimHeader(l)
  {
    StripValIdempotent(l.project);
    StripValIdempotent(l.title);
    StripValIdempotent(l.author);
    StripValIdempotent(l.game);
    StripValIdempotent(l.gameId);
    StripValIdempotent(if l.globalSet.NoneVal? then Str("none") else l.globalSet);
  }

  lemma {:induction false} CodeValuesWrap(cs: seq<CodeValue>)
    ensures CodeValues(Wrap(cs)) == cs
  {
  }

  /** Validating an accepted code list again changes no field (its own or its codes') and raises nothing. */
  lemma {:induction false} ValidateCodeListIdempotent(l: CodeListValue)
    requires ValidateCodeList(l).Success?
    ensures ValidateCodeList(ValidateCodeList(l).value) == ValidateCodeList(l)
  {
    var t := TrimHeader(l);
    var cs := ValidateCodes(CodeValues(t.codes.items)).value;
    var w := t.(codes := CodesList(Wrap(cs)));
    TrimHeaderIdempotent(l);
    assert TrimHeader(w) == w;
    assert CheckHeader(w) == CheckHeader(t);
    CodeValuesWrap(cs);
    ValidateCodesIdempotent(CodeValues(t.codes.items));
  }

  /** An absent global_set is validated, and kept, as the string "none". */
  lemma {:induction false} GlobalSetDefault(l: CodeListValue)
    requires l.globalSet.NoneVal?
    ensures ValidateCodeList(l).Success? ==> ValidateCodeList(l).value.globalSet == Str("none")
  {
    assert LStrip("none") == "none";
    assert RStrip("none") == "none";
  }

  /** A game_id is rejected, as game_id, whenever its trimmed form is not a str of exactly six characters. */
  lemma {:induction false} GameIdLength(l: CodeListValue)
    requires GoodScalar(StripVal(l.project)) && GoodScalar(StripVal(l.title))
    requires GoodScalar(StripVal(l.author)) && GoodScalar(StripVal(l.game))
    ensures var id := StripVal(l.gameId);
      (!id.Str? || |id.s| != 6) ==>
        ValidateCodeList(l) == Failure(ValidationError(GameIdShape, GameId))
  {
    var t := TrimHeader(l);
    CheckScalarMeans(t.project, Project);
    CheckScalarMeans(t.title, Title);
    CheckScalarMeans(t.author, Author);
    CheckScalarMeans(t.game, Game);
  }

  /** Every accepted list has six-character game_id and string fields throughout, with every code accepted. */
  lemma {:induction false} ValidateCodeListShape(l: CodeListValue)
    requires ValidateCodeList(l).Success?
    ensures var w := ValidateCodeList(l).value;
      && GoodScalar(w.project) && GoodScalar(w.title) && GoodScalar(w.author) && GoodScalar(w.game)
      && GoodScalar(w.gameId) && |w.gameId.s| == 6 && GoodScalar(w.globalSet)
      && w.codes.CodesList? && AllCodes(w.codes.items)
      && forall i :: 0 <= i < |w.codes.items| ==> GoodCode(w.codes.items[i].value)
  {
    var t := TrimHeader(l);
    CheckScalarMeans(t.project, Project);
    CheckScalarMeans(t.title, Title);
    CheckScalarMeans(t.author, Author);
    CheckScalarMeans(t.game, Game);
    CheckScalarMeans(t.globalSet, GlobalSet);
    ContainsAnyIsNotClean(t.gameId.s, ScalarForbidden());
    var cs := CodeValues(t.codes.items);
    ValidateCodesMeans(cs);
    forall i | 0 <= i < |cs| ensures GoodCode(ValidateCodes(cs).value[i]) {
      ValidateCodeMeans(cs[i]);
      TrimCodeIdempotent(cs[i]);
    }
  }

  /** A trimmed game_id that passes: a clean single-line str of exactly six characters. */
  predicate GoodGameId(v: PyVal) {
    GoodScalar(v) && |v.s| == 6
  }

  /** `codes` that pass the type check: a list whose every element is a Code record. */
  predicate GoodCodes(c: CodesVal) {
    c.CodesList? && AllCodes(c.items)
  }

  /** `assemblies` that pass: None, or a list of strs each free of : space \ / " ' . % -. */
  predicate GoodAssemblies(a: AsmVal) {
    a.AsmNone? ||
    (a.AsmList? && forall i :: 0 <= i < |a.items| ==> a.items[i].Str? && Clean(a.items[i].s, AssemblyForbidden()))
  }

  /** Every own field of a trimmed code list that CodeList.validate checks before its codes passes. */
  predicate GoodHeader(t: CodeListValue) {
    && GoodScalar(t.project) && GoodScalar(t.title) && GoodScalar(t.author) && GoodScalar(t.game)
    && GoodGameId(t.gameId) && GoodCodes(t.codes) && GoodAssemblies(t.assemblies) && GoodScalar(t.globalSet)
  }

  lemma {:induction false} CheckGameIdMeans(v: PyVal)
    ensures CheckGameId(v).Pass? <==> GoodGameId(v)
  {
    if v.Str? {
      ContainsAnyIsNotClean(v.s, ScalarForbidden());
    }
  }

  lemma {:induction false} CheckAssembliesMeans(a: AsmVal)
    ensures CheckAssemblies(a).Pass? <==> GoodAssemblies(a)
  {
    if a.AsmList? && forall i :: 0 <= i < |a.items| ==> a.items[i].Str? {
      forall i | 0 <= i < |a.items| {
        ContainsAnyIsNotClean(a.items[i].s, AssemblyForbidden());
      }
    }
  }

  /** The checks before the codes pass exactly on a good header. */
  lemma {:induction false} CheckHeaderMeans(t: CodeListValue)
    ensures CheckHeader(t).Pass? <==> GoodHeader(t)
  {
    CheckScalarMeans(t.project, Project);
    CheckScalarMeans(t.title, Title);
    CheckScalarMeans(t.author, Author);
    CheckScalarMeans(t.game, Game);
    CheckGameIdMeans(t.gameId);
    CheckAssembliesMeans(t.assemblies);
    CheckScalarMeans(t.globalSet, GlobalSet);
  }

  /**
   * CodeList.validate accepts exactly the lists whose trimmed own fields pass
   * and whose codes each pass Code.validate; the accepted list is the trimmed
   * one with every code trimmed in place, in order.
   */
  lemma {:induction false} ValidateCodeListMeans(l: CodeListValue)
    ensures var t := TrimHeader(l);
      && (ValidateCodeList(l).Success? <==>
            GoodHeader(t) && forall i :: 0 <= i < |t.codes.items| ==> ValidateCode(t.codes.items[i].value).Success?)
      && (ValidateCodeList(l).Success? ==>
            var w := ValidateCodeList(l).value;
            && w.(codes := t.codes) == t && w.codes.CodesList? && |w.codes.items| == |t.codes.items|
            && forall i :: 0 <= i < |w.codes.items| ==> w.codes.items[i] == Some(TrimCode(t.codes.items[i].value)))
  {
    var t := TrimHeader(l);
    CheckHeaderMeans(t);
    if GoodHeader(t) {
      var cs := CodeValues(t.codes.items);
      ValidateCodesMeans(cs);
      assert forall i :: 0 <= i < |cs| ==> cs[i] == t.codes.items[i].value;
    }
  }

  /**
   * A rejected list names the first failing field in source order: project,
   * title, author, game, game_id, codes, assemblies, global_set; when they all
   * pass, the error is that of the first code Code.validate rejects.
   */
  lemma {:induction false} ValidateCodeListRejects(l: CodeListValue)
    requires ValidateCodeList(l).Failure?
    ensures var t := TrimHeader(l);
      var n := ValidateCodeList(l).error.name;
      && (!GoodScalar(t.project) ==> n == Project)
      && (GoodScalar(t.project) && !GoodScalar(t.title) ==> n == Title)
      && (GoodScalar(t.project) && GoodScalar(t.title) && !GoodScalar(t.author) ==> n == Author)
      && (GoodScalar(t.project) && GoodScalar(t.title) && GoodScalar(t.author) && !GoodScalar(t.game) ==> n == Game)
      && ((GoodScalar(t.project) && GoodScalar(t.title) && GoodScalar(t.author) && GoodScalar(t.game)
           && !GoodGameId(t.gameId)) ==> n == GameId)
      && ((GoodScalar(t.project) && GoodScalar(t.title) && GoodScalar(t.author) && GoodScalar(t.game)
           && GoodGameId(t.gameId) && !GoodCodes(t.codes)) ==> n == Codes)
      && ((GoodScalar(t.project) && GoodScalar(t.title) && GoodScalar(t.author) && GoodScalar(t.game)
           && GoodGameId(t.gameId) && GoodCodes(t.codes) && !GoodAssemblies(t.assemblies)) ==> n == Assemblies)
      && ((GoodScalar(t.project) && GoodScalar(t.title) && GoodScalar(t.author) && GoodScalar(t.game)
           && GoodGameId(t.gameId) && GoodCodes(t.codes) && GoodAssemblies(t.assemblies)
           && !GoodScalar(t.globalSet)) ==> n == GlobalSet)
      && (GoodHeader(t) ==>
           exists j :: 0 <= j < |t.codes.items| && ValidateCode(t.codes.items[j].value) == Failure(ValidateCodeList(l).error)
             && forall i :: 0 <= i < j ==> ValidateCode(t.codes.items[i].value).Success?)
  {
    var t := TrimHeader(l);
    CheckScalarMeans(t.project, Project);
    CheckScalarMeans(t.title, Title);
    CheckScalarMeans(t.author, Author);
    CheckScalarMeans(t.game, Game);
    CheckGameIdMeans(t.gameId);
    CheckAssembliesMeans(t.assemblies);
    CheckScalarMeans(t.globalSet, GlobalSet);
    if GoodHeader(t) {
      CheckHeaderMeans(t);
      var cs := CodeValues(t.codes.items);
      ValidateCodesFirstFailure(cs);
      var j :| (0 <= j < |cs| && ValidateCode(cs[j]) == Failure(ValidateCodes(cs).error) &&
        forall i :: 0 <= i < j ==> ValidateCode(cs[i]).Success?);
      assert cs[j] == t.codes.items[j].value;
      assert forall i :: 0 <= i < j ==> cs[i] == t.codes.items[i].value;
    }
  }

  /* ------------------------------------------------------- invocation */

  /** `args.project[1:-1]` when the argument is wrapped in matching quotes; an empty argument raises IndexError (None). */
  function UnquoteProject(p: string): (r: Option<string>)
    ensures p == [] <==> r.None?
    ensures r.Some? && |p| >= 2 && p[0] == p[|p| - 1] && (p[0] == '"' || p[0] == '\'') ==> r.value == p[1..|p| - 1]
    ensures r.Some? && !(p[0] == p[|p| - 1] && (p[0] == '"' || p[0] == '\'')) ==> r.value == p
    ensures |p| == 1 && (p[0] == '"' || p[0] == '\'') ==> r == Some([])
  {
    if p == [] then None
    else if (p[0] == '"' && p[|p| - 1] == '"') || (p[0] == '\'' && p[|p| - 1] == '\'') then
      Some(if |p| >= 2 then p[1..|p| - 1] else [])
    else Some(p)
  }

  function AuthorMismatch(listAuthor: string, author: string): string {
    "ERROR: Code list author \"" + listAuthor + "\" does not match the provided author \"" + author + "\""
  }

  function ProjectMismatch(listProject: string, project: string): string {
    "ERROR: Code list project \"" + listProject + "\" does not match the provided project \"" + project + "\""
  }

  /** The code list must name the author and project it was invoked for; the author is checked first. */
  function MatchInvocation(author: string, project: string, listAuthor: string, listProject: string): (r: Outcome<string>)
    ensures r.Pass? <==> listAuthor == author && listProject == project
    ensures r.Fail? ==> (listAuthor != author <==> r.error == AuthorMismatch(listAuthor, author))
    ensures r.Fail? ==> (listAuthor == author <==> r.error == ProjectMismatch(listProject, project))
  {
    assert AuthorMismatch(listAuthor, author)[17] != ProjectMismatch(listProject, project)[17];
    if listAuthor != author then
      Fail(AuthorMismatch(listAuthor, author))
    else if listProject != project then
      Fail(ProjectMismatch(listProject, project))
    else Pass
  }
}
