/**
 * The two YAML-loaded classes of compile.py. Their validate methods rewrite
 * their own fields (every str is stripped, an absent global_set becomes 'none')
 * before checking, so they are objects here, specified against Validation.
 */
module Records {
  import opened Wrappers
  import opened Validation

  class Code {
    var file: PyVal
    var name: PyVal
    var author: PyVal
    var description: PyVal

    /** Code(file, name, author, description=None). */
    constructor (file: PyVal, name: PyVal, author: PyVal, description: PyVal)
      ensures Value() == CodeValue(file, name, author, description)
    {
      this.file := file;
      this.name := name;
      this.author := author;
      this.description := description;
    }

    function Value(): CodeValue
      reads this
    {
      CodeValue(file, name, author, description)
    }

    /**
     * Code.validate: the fields are trimmed whether or not a check then fails;
     * the outcome is the one ValidateCode gives for the fields as they were.
     */
    method Validate() returns (r: Outcome<ValidationError>)
      modifies this
      ensures Value() == TrimCode(old(Value()))
      ensures r.Pass? <==> ValidateCode(old(Value())).Success?
      ensures r.Fail? ==> ValidateCode(old(Value())) == Failure(r.error)
    {
      file := StripVal(file);
      name := StripVal(name);
      author := StripVal(author);
      description := StripVal(description);
      r := CheckScalar(file, File);
      if r.Fail? { return; }
      r := CheckScalar(name, Name);
      if r.Fail? { return; }
      r := CheckScalar(author, Author);
      if r.Fail? { return; }
      r := CheckDescription(description);
    }
  }

  /** The `codes` attribute: a list whose elements are Code objects or, as null, any other object; or no list. */
  datatype CodesField = CodeSeq(items: seq<Code?>) | CodesOther

  /** What the elements hold right now: Code objects by their current field values. */
  function SlotValues(items: seq<Code?>): seq<Option<CodeValue>>
    reads items
  {
    seq(|items|, i requires 0 <= i < |items| reads items =>
      if items[i] != null then Some(items[i].Value()) else None)
  }

  class CodeList {
    var project: PyVal
    var title: PyVal
    var author: PyVal
    var game: PyVal
    var gameId: PyVal
    var codes: CodesField
    var assemblies: AsmVal
    var globalSet: PyVal

    /** CodeList(project, title, author, game, game_id, codes, assemblies=None, global_set=None). */
    constructor (project: PyVal, title: PyVal, author: PyVal, game: PyVal, gameId: PyVal,
                 codes: CodesField, assemblies: AsmVal, globalSet: PyVal)
      ensures this.project == project && this.title == title && this.author == author
      ensures this.game == game && this.gameId == gameId && this.codes == codes
      ensures this.assemblies == assemblies && this.globalSet == globalSet
    {
      this.project := project;
      this.title := title;
      this.author := author;
      this.game := game;
      this.gameId := gameId;
      this.codes := codes;
      this.assemblies := assemblies;
      this.globalSet := globalSet;
    }

    /** The elements of the codes list (none when it is not a list). */
    function Items(): seq<Code?>
      reads this
    {
      if codes.CodeSeq? then codes.items else []
    }

    /** The list as a value, its codes by their current field values. */
    function Snapshot(): CodeListValue
      reads this, Items()
    {
      CodeListValue(project, title, author, game, gameId,
        if codes.CodeSeq? then CodesList(SlotValues(codes.items)) else CodesNotList,
        assemblies, globalSet)
    }

    /**
     * CodeList.validate. The list's own fields end up trimmed (and global_set
     * defaulted) whatever the outcome; the outcome is ValidateCodeList's on the
     * list as it was; on success every field of the list and of its codes is
     * the validated value, and a code validation that fails leaves each code
     * either as it was or trimmed.
     */
    method Validate() returns (r: Outcome<ValidationError>)
      modifies this, Items()
      ensures codes == old(codes)
      ensures var t := TrimHeader(old(Snapshot()));
        project == t.project && title == t.title && author == t.author && game == t.game
        && gameId == t.gameId && assemblies == t.assemblies && globalSet == t.globalSet
      ensures r.Pass? <==> ValidateCodeList(old(Snapshot())).Success?
      ensures r.Fail? ==> ValidateCodeList(old(Snapshot())) == Failure(r.error)
      ensures r.Pass? ==> Snapshot() == ValidateCodeList(old(Snapshot())).value
      ensures forall i :: 0 <= i < |Items()| && Items()[i] != null ==>
        Items()[i].Value() == old(Items()[i].Value()) || Items()[i].Value() == TrimCode(old(Items()[i].Value()))
    {
      ghost var init := Snapshot();
      ghost var before := SlotValues(Items());
      TrimOwnFields();
      assert SlotValues(Items()) == before;
      assert Snapshot() == TrimHeader(init);
      r := ValidateTrimmed(init);
    }

    /** The rest of CodeList.validate once the list's own fields are trimmed: check them, then each code. */
    method ValidateTrimmed(ghost init: CodeListValue) returns (r: Outcome<ValidationError>)
      requires Snapshot() == TrimHeader(init)
      modifies Items()
      ensures r.Pass? <==> ValidateCodeList(init).Success?
      ensures r.Fail? ==> ValidateCodeList(init) == Failure(r.error)
      ensures r.Pass? ==> Snapshot() == ValidateCodeList(init).value
      ensures forall i :: 0 <= i < |Items()| && Items()[i] != null ==>
        Items()[i].Value() == old(Items()[i].Value()) || Items()[i].Value() == TrimCode(old(Items()[i].Value()))
    {
      r := CheckHeader(Snapshot());
      if r.Fail? { return; }
      CodeSlots(codes.items);
      r := ValidateAll(codes.items);
      if r.Pass? {
        var cs := ValidateCodes(CodeValues(init.codes.items)).value;
        assert Snapshot() == TrimHeader(init).(codes := CodesList(Wrap(cs)));
      }
    }

    /** The first pass of CodeList.validate: strip the list's own str fields, defaulting global_set first. */
    method TrimOwnFields()
      modifies this
      ensures codes == old(codes) && assemblies == old(assemblies)
      ensures project == StripVal(old(project)) && title == StripVal(old(title))
      ensures author == StripVal(old(author)) && game == StripVal(old(game))
      ensures gameId == StripVal(old(gameId)) && globalSet == DefaultGlobalSet(old(globalSet))
    {
      project := StripVal(project);
      title := StripVal(title);
      author := StripVal(author);
      game := StripVal(game);
      gameId := StripVal(gameId);
      globalSet := DefaultGlobalSet(globalSet);
    }
  }

  /**
   * `all(c.validate() for c in self.codes)` over elements that are all Code
   * objects: validate each in turn, stopping at the first error. A Code listed
   * twice is validated twice, which its idempotence makes harmless.
   */
  method ValidateAll(items: seq<Code?>) returns (r: Outcome<ValidationError>)
    requires forall i :: 0 <= i < |items| ==> items[i] != null
    modifies items
    ensures AllCodes(old(SlotValues(items)))
    ensures var vals := CodeValues(old(SlotValues(items)));
      && (r.Pass? <==> ValidateCodes(vals).Success?)
      && (r.Fail? ==> ValidateCodes(vals) == Failure(r.error))
      && (r.Pass? ==> SlotValues(items) == Wrap(ValidateCodes(vals).value))
    ensures forall i :: 0 <= i < |items| ==>
      items[i].Value() == old(items[i].Value()) || items[i].Value() == TrimCode(old(items[i].Value()))
  {
    SlotCodes(items);
    ghost var vals := CodeValues(SlotValues(items));
    var k := 0;
    while k < |items|
      invariant 0 <= k <= |items|
      invariant forall i :: 0 <= i < |items| ==>
        items[i].Value() == if items[i] in items[..k] then TrimCode(vals[i]) else vals[i]
      invariant forall i :: 0 <= i < k ==> ValidateCode(vals[i]).Success?
    {
      r := ValidateNext(items, vals, k);
      if r.Fail? {
        ValidateCodesFailsAt(vals, k);
        return;
      }
      k := k + 1;
    }
    assert items[..k] == items;
    AllValidated(items, vals);
    r := Pass;
  }

  /** Elements whose values are all codes are all Code objects. */
  lemma {:induction false} CodeSlots(items: seq<Code?>)
    requires AllCodes(SlotValues(items))
    ensures forall i :: 0 <= i < |items| ==> items[i] != null
  {
    forall i | 0 <= i < |items| ensures items[i] != null {
      assert SlotValues(items)[i].Some?;
    }
  }

  /** Elements that are all Code objects hold their values, in order. */
  lemma {:induction false} SlotCodes(items: seq<Code?>)
    requires forall i :: 0 <= i < |items| ==> items[i] != null
    ensures AllCodes(SlotValues(items))
    ensures var vals := CodeValues(SlotValues(items));
      |vals| == |items| && forall i :: 0 <= i < |items| ==> vals[i] == items[i].Value()
  {
  }

  /** Once every code has passed and been trimmed, the elements hold the validated codes. */
  lemma {:induction false} AllValidated(items: seq<Code?>, vals: seq<CodeValue>)
    requires |items| == |vals| && forall i :: 0 <= i < |items| ==> items[i] != null
    requires forall i :: 0 <= i < |items| ==> items[i].Value() == TrimCode(vals[i])
    requires forall i :: 0 <= i < |vals| ==> ValidateCode(vals[i]).Success?
    ensures ValidateCodes(vals).Success? && SlotValues(items) == Wrap(ValidateCodes(vals).value)
  {
    ValidateCodesMeans(vals);
  }

  /**
   * One element of ValidateAll: validating items[k] trims it, unless the same
   * Code came earlier and is trimmed already, in which case it stays as it is.
   */
  method ValidateNext(items: seq<Code?>, ghost vals: seq<CodeValue>, k: nat) returns (r: Outcome<ValidationError>)
    requires k < |items| == |vals| && forall i :: 0 <= i < |items| ==> items[i] != null
    requires forall i :: 0 <= i < |items| ==>
      items[i].Value() == if items[i] in items[..k] then TrimCode(vals[i]) else vals[i]
    modifies items[k]
    ensures forall i :: 0 <= i < |items| ==>
      items[i].Value() == if items[i] in items[..k + 1] then TrimCode(vals[i]) else vals[i]
    ensures r.Pass? <==> ValidateCode(vals[k]).Success?
    ensures r.Fail? ==> ValidateCode(vals[k]) == Failure(r.error)
  {
    var c := items[k];
    ValidateCodeAfterTrim(vals[k]);
    r := c.Validate();
    TrimCodeIdempotent(vals[k]);
    assert items[..k + 1] == items[..k] + [c];
  }
}
