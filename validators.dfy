/**
 * The FluentValidation rules of the two commands, as functions from a
 * command to the list of (property, failure) pairs the validator reports,
 * in the order it reports them (rule by rule, check by check).
 */
module Validators {
  import opened Wrappers
  import opened Text
  import opened Cards
  import opened Commands

  /** Which check failed; stands for FluentValidation's default message. */
  datatype Failure =
    | MinimumLength(min: nat, total: nat)
    | MaximumLength(max: nat, total: nat)
    | NotEmpty

  datatype ValidationError = ValidationError(property: string, failure: Failure)

  const UpdateMinimumLength: nat := 3

  /** The failures reported for one property, in the order they were reported. */
  function FailuresOf(errors: seq<ValidationError>, property: string): seq<Failure>
  {
    if errors == [] then []
    else
      var last := errors[|errors| - 1];
      FailuresOf(errors[..|errors| - 1], property) + (if last.property == property then [last.failure] else [])
  }

  lemma {:induction false} FailuresOfConcat(a: seq<ValidationError>, b: seq<ValidationError>, property: string)
    ensures FailuresOf(a + b, property) == FailuresOf(a, property) + FailuresOf(b, property)
    decreases |b|
  {
    if b != [] {
      var ab := a + b;
      assert ab[..|ab| - 1] == a + b[..|b| - 1];
      FailuresOfConcat(a, b[..|b| - 1], property);
    } else {
      assert a + b == a;
    }
  }

  /** `MinimumLength(min)`: a null value passes. */
  function MinimumLengthRule(property: string, value: Option<string>, min: nat): seq<ValidationError> {
    if value.Some? && |value.value| < min then [ValidationError(property, MinimumLength(min, |value.value|))] else []
  }

  /** `MaximumLength(max)`: a null value passes. */
  function MaximumLengthRule(property: string, value: Option<string>, max: nat): seq<ValidationError> {
    if value.Some? && |value.value| > max then [ValidationError(property, MaximumLength(max, |value.value|))] else []
  }

  /** `NotEmpty()`: fails on null, on "" and on a string of white space only. */
  function NotEmptyRule(property: string, value: Option<string>): seq<ValidationError> {
    if value.None? || IsBlank(value.value) then [ValidationError(property, NotEmpty)] else []
  }

  /**
   * `CreateCardCommandValidator`. Title: MaximumLength(100), NotEmpty, NotNull;
   * Content: MaximumLength(10000), NotEmpty, NotNull; List: MaximumLength(10000).
   * NotNull cannot fail on the non-nullable Title and Content.
   */
  function ValidateCreate(command: CreateCardCommand): seq<ValidationError> {
    MaximumLengthRule("Title", Some(command.title), TitleMaxLength)
    + NotEmptyRule("Title", Some(command.title))
    + MaximumLengthRule("Content", Some(command.content), ContentMaxLength)
    + NotEmptyRule("Content", Some(command.content))
    + MaximumLengthRule("List", command.list, ListMaxLength)
  }

  /**
   * `UpdateCardCommandValidator`. Title: MinimumLength(3), MaximumLength(100),
   * NotEmpty; Content: MinimumLength(3), MaximumLength(10000), NotEmpty;
   * List: MaximumLength(10000).
   */
  function ValidateUpdate(command: UpdateCardCommand): seq<ValidationError> {
    MinimumLengthRule("Title", command.title, UpdateMinimumLength)
    + MaximumLengthRule("Title", command.title, TitleMaxLength)
    + NotEmptyRule("Title", command.title)
    + MinimumLengthRule("Content", command.content, UpdateMinimumLength)
    + MaximumLengthRule("Content", command.content, ContentMaxLength)
    + NotEmptyRule("Content", command.content)
    + MaximumLengthRule("List", command.list, ListMaxLength)
  }

  // ---------------------------------------------------------------------
  // What each rule accepts
  // ---------------------------------------------------------------------

  predicate CreateTitleOk(title: string) {
    !IsBlank(title) && |title| <= TitleMaxLength
  }

  predicate CreateContentOk(content: string) {
    !IsBlank(content) && |content| <= ContentMaxLength
  }

  predicate UpdateTitleOk(title: Option<string>) {
    title.Some? && !IsBlank(title.value) && UpdateMinimumLength <= |title.value| <= TitleMaxLength
  }

  predicate UpdateContentOk(content: Option<string>) {
    content.Some? && !IsBlank(content.value) && UpdateMinimumLength <= |content.value| <= ContentMaxLength
  }

  predicate ListOk(list: Option<string>) {
    list.None? || |list.value| <= ListMaxLength
  }

  lemma FailuresOfSingle(e: ValidationError, property: string)
    ensures FailuresOf([e], property) == if e.property == property then [e.failure] else []
  {
    assert [e][..0] == [];
  }

  lemma FailuresOfAppendEmpty(a: seq<ValidationError>, b: seq<ValidationError>, property: string)
    ensures FailuresOf(a + b, property) == [] <==> FailuresOf(a, property) == [] && FailuresOf(b, property) == []
  {
    FailuresOfConcat(a, b, property);
  }

  /** What each single rule contributes under a given property name. */
  lemma RuleFailures(rule: string, value: Option<string>, bound: nat, property: string)
    ensures FailuresOf(MinimumLengthRule(rule, value, bound), property) == []
        <==> rule != property || !(value.Some? && |value.value| < bound)
    ensures FailuresOf(MaximumLengthRule(rule, value, bound), property) == []
        <==> rule != property || !(value.Some? && |value.value| > bound)
    ensures FailuresOf(NotEmptyRule(rule, value), property) == []
        <==> rule != property || !(value.None? || IsBlank(value.value))
  {
    forall e | true
      ensures FailuresOf([e], property) == if e.property == property then [e.failure] else []
    {
      FailuresOfSingle(e, property);
    }
  }

  /** The exact failures each single rule reports under a given property name. */
  lemma RuleFailureLists(rule: string, value: Option<string>, bound: nat, property: string)
    ensures FailuresOf(MinimumLengthRule(rule, value, bound), property)
        == if rule == property && value.Some? && |value.value| < bound then [MinimumLength(bound, |value.value|)] else []
    ensures FailuresOf(MaximumLengthRule(rule, value, bound), property)
        == if rule == property && value.Some? && |value.value| > bound then [MaximumLength(bound, |value.value|)] else []
    ensures FailuresOf(NotEmptyRule(rule, value), property)
        == if rule == property && (value.None? || IsBlank(value.value)) then [NotEmpty] else []
  {
    forall e | true
      ensures FailuresOf([e], property) == if e.property == property then [e.failure] else []
    {
      FailuresOfSingle(e, property);
    }
  }

  /** The create validator reports, per property, exactly the failing checks. */
  lemma {:induction false} CreateFailuresByProperty(command: CreateCardCommand, property: string)
    ensures FailuresOf(ValidateCreate(command), property) == []
        <==> && (property == "Title" ==> CreateTitleOk(command.title))
             && (property == "Content" ==> CreateContentOk(command.content))
             && (property == "List" ==> ListOk(command.list))
  {
    var r1 := MaximumLengthRule("Title", Some(command.title), TitleMaxLength);
    var r2 := NotEmptyRule("Title", Some(command.title));
    var r3 := MaximumLengthRule("Content", Some(command.content), ContentMaxLength);
    var r4 := NotEmptyRule("Content", Some(command.content));
    var r5 := MaximumLengthRule("List", command.list, ListMaxLength);
    FailuresOfAppendEmpty(r1, r2, property);
    FailuresOfAppendEmpty(r1 + r2, r3, property);
    FailuresOfAppendEmpty(r1 + r2 + r3, r4, property);
    FailuresOfAppendEmpty(r1 + r2 + r3 + r4, r5, property);
    RuleFailures("Title", Some(command.title), TitleMaxLength, property);
    RuleFailures("Content", Some(command.content), ContentMaxLength, property);
    RuleFailures("List", command.list, ListMaxLength, property);
  }

  /** The update validator reports, per property, exactly the failing checks. */
  lemma {:induction false} UpdateFailuresByProperty(command: UpdateCardCommand, property: string)
    ensures FailuresOf(ValidateUpdate(command), property) == []
        <==> && (property == "Title" ==> UpdateTitleOk(command.title))
             && (property == "Content" ==> UpdateContentOk(command.content))
             && (property == "List" ==> ListOk(command.list))
  {
    var r1 := MinimumLengthRule("Title", command.title, UpdateMinimumLength);
    var r2 := MaximumLengthRule("Title", command.title, TitleMaxLength);
    var r3 := NotEmptyRule("Title", command.title);
    var r4 := MinimumLengthRule("Content", command.content, UpdateMinimumLength);
    var r5 := MaximumLengthRule("Content", command.content, ContentMaxLength);
    var r6 := NotEmptyRule("Content", command.content);
    var r7 := MaximumLengthRule("List", command.list, ListMaxLength);
    FailuresOfAppendEmpty(r1, r2, property);
    FailuresOfAppendEmpty(r1 + r2, r3, property);
    FailuresOfAppendEmpty(r1 + r2 + r3, r4, property);
    FailuresOfAppendEmpty(r1 + r2 + r3 + r4, r5, property);
    FailuresOfAppendEmpty(r1 + r2 + r3 + r4 + r5, r6, property);
    FailuresOfAppendEmpty(r1 + r2 + r3 + r4 + r5 + r6, r7, property);
    RuleFailures("Title", command.title, UpdateMinimumLength, property);
    RuleFailures("Title", command.title, TitleMaxLength, property);
    RuleFailures("Content", command.content, UpdateMinimumLength, property);
    RuleFailures("Content", command.content, ContentMaxLength, property);
    RuleFailures("List", command.list, ListMaxLength, property);
  }

  /** One property's create failures are those of each rule in turn. */
  lemma CreateFailuresSplit(command: CreateCardCommand, property: string)
    ensures FailuresOf(ValidateCreate(command), property)
        == FailuresOf(MaximumLengthRule("Title", Some(command.title), TitleMaxLength), property)
         + FailuresOf(NotEmptyRule("Title", Some(command.title)), property)
         + FailuresOf(MaximumLengthRule("Content", Some(command.content), ContentMaxLength), property)
         + FailuresOf(NotEmptyRule("Content", Some(command.content)), property)
         + FailuresOf(MaximumLengthRule("List", command.list, ListMaxLength), property)
  {
    var r1 := MaximumLengthRule("Title", Some(command.title), TitleMaxLength);
    var r2 := NotEmptyRule("Title", Some(command.title));
    var r3 := MaximumLengthRule("Content", Some(command.content), ContentMaxLength);
    var r4 := NotEmptyRule("Content", Some(command.content));
    var r5 := MaximumLengthRule("List", command.list, ListMaxLength);
    FailuresOfConcat(r1, r2, property);
    FailuresOfConcat(r1 + r2, r3, property);
    FailuresOfConcat(r1 + r2 + r3, r4, property);
    FailuresOfConcat(r1 + r2 + r3 + r4, r5, property);
  }

  /**
   * The failures a create command gets for each property, in the order the
   * rules declare them: the maximum length, then not empty.
   */
  lemma CreateFailureLists(command: CreateCardCommand)
    ensures FailuresOf(ValidateCreate(command), "Title")
        == (if |command.title| > TitleMaxLength then [MaximumLength(TitleMaxLength, |command.title|)] else [])
         + (if IsBlank(command.title) then [NotEmpty] else [])
    ensures FailuresOf(ValidateCreate(command), "Content")
        == (if |command.content| > ContentMaxLength then [MaximumLength(ContentMaxLength, |command.content|)] else [])
         + (if IsBlank(command.content) then [NotEmpty] else [])
    ensures FailuresOf(ValidateCreate(command), "List")
        == if command.list.Some? && |command.list.value| > ListMaxLength
           then [MaximumLength(ListMaxLength, |command.list.value|)] else []
  {
    assert "Title" != "Content" && "Title" != "List" && "Content" != "List";
    CreateRuleLists(command, "Title");
    CreateRuleLists(command, "Content");
    CreateRuleLists(command, "List");
  }

  /** Each create rule's failures under one property name. */
  lemma CreateRuleLists(command: CreateCardCommand, property: string)
    ensures FailuresOf(ValidateCreate(command), property)
        == (if property == "Title" && |command.title| > TitleMaxLength then [MaximumLength(TitleMaxLength, |command.title|)] else [])
         + (if property == "Title" && IsBlank(command.title) then [NotEmpty] else [])
         + (if property == "Content" && |command.content| > ContentMaxLength
            then [MaximumLength(ContentMaxLength, |command.content|)] else [])
         + (if property == "Content" && IsBlank(command.content) then [NotEmpty] else [])
         + (if property == "List" && command.list.Some? && |command.list.value| > ListMaxLength
            then [MaximumLength(ListMaxLength, |command.list.value|)] else [])
  {
    CreateFailuresSplit(command, property);
    RuleFailureLists("Title", Some(command.title), TitleMaxLength, property);
    RuleFailureLists("Content", Some(command.content), ContentMaxLength, property);
    RuleFailureLists("List", command.list, ListMaxLength, property);
  }

  /** One property's update failures are those of each rule in turn. */
  lemma UpdateFailuresSplit(command: UpdateCardCommand, property: string)
    ensures FailuresOf(ValidateUpdate(command), property)
        == FailuresOf(MinimumLengthRule("Title", command.title, UpdateMinimumLength), property)
         + FailuresOf(MaximumLengthRule("Title", command.title, TitleMaxLength), property)
         + FailuresOf(NotEmptyRule("Title", command.title), property)
         + FailuresOf(MinimumLengthRule("Content", command.content, UpdateMinimumLength), property)
         + FailuresOf(MaximumLengthRule("Content", command.content, ContentMaxLength), property)
         + FailuresOf(NotEmptyRule("Content", command.content), property)
         + FailuresOf(MaximumLengthRule("List", command.list, ListMaxLength), property)
  {
    var r1 := MinimumLengthRule("Title", command.title, UpdateMinimumLength);
    var r2 := MaximumLengthRule("Title", command.title, TitleMaxLength);
    var r3 := NotEmptyRule("Title", command.title);
    var r4 := MinimumLengthRule("Content", command.content, UpdateMinimumLength);
    var r5 := MaximumLengthRule("Content", command.content, ContentMaxLength);
    var r6 := NotEmptyRule("Content", command.content);
    var r7 := MaximumLengthRule("List", command.list, ListMaxLength);
    FailuresOfConcat(r1, r2, property);
    FailuresOfConcat(r1 + r2, r3, property);
    FailuresOfConcat(r1 + r2 + r3, r4, property);
    FailuresOfConcat(r1 + r2 + r3 + r4, r5, property);
    FailuresOfConcat(r1 + r2 + r3 + r4 + r5, r6, property);
    FailuresOfConcat(r1 + r2 + r3 + r4 + r5 + r6, r7, property);
  }

  /**
   * The failures of one nullable text property of an update command, in
   * the order its rules are declared: minimum length, maximum length, not
   * empty. A null value fails only `NotEmpty`.
   */
  function UpdateTextFailures(value: Option<string>, max: nat): seq<Failure> {
    (if value.Some? && |value.value| < UpdateMinimumLength then [MinimumLength(UpdateMinimumLength, |value.value|)] else [])
    + (if value.Some? && |value.value| > max then [MaximumLength(max, |value.value|)] else [])
    + (if value.None? || IsBlank(value.value) then [NotEmpty] else [])
  }

  /** A rule of another property reports nothing under this one. */
  lemma OtherRulesSilent(rule: string, value: Option<string>, bound: nat, property: string)
    requires rule != property
    ensures FailuresOf(MinimumLengthRule(rule, value, bound), property) == []
    ensures FailuresOf(MaximumLengthRule(rule, value, bound), property) == []
    ensures FailuresOf(NotEmptyRule(rule, value), property) == []
  {
    RuleFailureLists(rule, value, bound, property);
  }

  /** The three rules of a nullable text property report its failures in order. */
  lemma UpdateOwnRules(property: string, value: Option<string>, max: nat)
    ensures FailuresOf(MinimumLengthRule(property, value, UpdateMinimumLength)
                       + MaximumLengthRule(property, value, max)
                       + NotEmptyRule(property, value), property)
        == UpdateTextFailures(value, max)
  {
    var r1 := MinimumLengthRule(property, value, UpdateMinimumLength);
    var r2 := MaximumLengthRule(property, value, max);
    var r3 := NotEmptyRule(property, value);
    FailuresOfConcat(r1, r2, property);
    FailuresOfConcat(r1 + r2, r3, property);
    RuleFailureLists(property, value, UpdateMinimumLength, property);
    RuleFailureLists(property, value, max, property);
  }

  /** The update failures under Title: its three rules, in order. */
  lemma UpdateTitleFailures(command: UpdateCardCommand)
    ensures FailuresOf(ValidateUpdate(command), "Title") == UpdateTextFailures(command.title, TitleMaxLength)
  {
    var own := MinimumLengthRule("Title", command.title, UpdateMinimumLength)
             + MaximumLengthRule("Title", command.title, TitleMaxLength)
             + NotEmptyRule("Title", command.title);
    var r4 := MinimumLengthRule("Content", command.content, UpdateMinimumLength);
    var r5 := MaximumLengthRule("Content", command.content, ContentMaxLength);
    var r6 := NotEmptyRule("Content", command.content);
    var r7 := MaximumLengthRule("List", command.list, ListMaxLength);
    assert ValidateUpdate(command) == own + (r4 + r5 + r6 + r7);
    UpdateOwnRules("Title", command.title, TitleMaxLength);
    OtherRulesSilent("Content", command.content, UpdateMinimumLength, "Title");
    OtherRulesSilent("Content", command.content, ContentMaxLength, "Title");
    OtherRulesSilent("List", command.list, ListMaxLength, "Title");
    FailuresOfAppendEmpty(r4, r5, "Title");
    FailuresOfAppendEmpty(r4 + r5, r6, "Title");
    FailuresOfAppendEmpty(r4 + r5 + r6, r7, "Title");
    FailuresOfConcat(own, r4 + r5 + r6 + r7, "Title");
  }

  /** The update failures under Content: its three rules, in order. */
  lemma UpdateContentFailures(command: UpdateCardCommand)
    ensures FailuresOf(ValidateUpdate(command), "Content") == UpdateTextFailures(command.content, ContentMaxLength)
  {
    var r1 := MinimumLengthRule("Title", command.title, UpdateMinimumLength);
    var r2 := MaximumLengthRule("Title", command.title, TitleMaxLength);
    var r3 := NotEmptyRule("Title", command.title);
    var own := MinimumLengthRule("Content", command.content, UpdateMinimumLength)
             + MaximumLengthRule("Content", command.content, ContentMaxLength)
             + NotEmptyRule("Content", command.content);
    var r7 := MaximumLengthRule("List", command.list, ListMaxLength);
    assert ValidateUpdate(command) == (r1 + r2 + r3) + own + r7;
    UpdateOwnRules("Content", command.content, ContentMaxLength);
    OtherRulesSilent("Title", command.title, UpdateMinimumLength, "Content");
    OtherRulesSilent("Title", command.title, TitleMaxLength, "Content");
    OtherRulesSilent("List", command.list, ListMaxLength, "Content");
    FailuresOfAppendEmpty(r1, r2, "Content");
    FailuresOfAppendEmpty(r1 + r2, r3, "Content");
    FailuresOfConcat(r1 + r2 + r3, own, "Content");
    FailuresOfConcat((r1 + r2 + r3) + own, r7, "Content");
  }

  /** The update failures under List: its one rule. */
  lemma UpdateListFailures(command: UpdateCardCommand)
    ensures FailuresOf(ValidateUpdate(command), "List")
        == if command.list.Some? && |command.list.value| > ListMaxLength
           then [MaximumLength(ListMaxLength, |command.list.value|)] else []
  {
    assert "List" != "Title" && "List" != "Content";
    UpdateFailuresSplit(command, "List");
    RuleFailureLists("Title", command.title, UpdateMinimumLength, "List");
    RuleFailureLists("Title", command.title, TitleMaxLength, "List");
    RuleFailureLists("Content", command.content, UpdateMinimumLength, "List");
    RuleFailureLists("Content", command.content, ContentMaxLength, "List");
    RuleFailureLists("List", command.list, ListMaxLength, "List");
  }

  /**
   * The failures an update command gets for each property, in the order
   * the rules declare them; an empty Title, for one, reports the minimum
   * length and then not empty.
   */
  lemma UpdateFailureLists(command: UpdateCardCommand)
    ensures FailuresOf(ValidateUpdate(command), "Title") == UpdateTextFailures(command.title, TitleMaxLength)
    ensures FailuresOf(ValidateUpdate(command), "Content") == UpdateTextFailures(command.content, ContentMaxLength)
    ensures FailuresOf(ValidateUpdate(command), "List")
        == if command.list.Some? && |command.list.value| > ListMaxLength
           then [MaximumLength(ListMaxLength, |command.list.value|)] else []
    ensures command.title == Some("") ==> FailuresOf(ValidateUpdate(command), "Title") == [MinimumLength(3, 0), NotEmpty]
  {
    UpdateTitleFailures(command);
    UpdateContentFailures(command);
    UpdateListFailures(command);
    if command.title == Some("") {
      assert IsBlank("");
    }
  }

  /** A create command passes exactly when all three properties pass. */
  lemma CreateValidIff(command: CreateCardCommand)
    ensures ValidateCreate(command) == []
        <==> CreateTitleOk(command.title) && CreateContentOk(command.content) && ListOk(command.list)
  {
  }

  /**
   * An update command passes exactly when all three properties pass: so
   * through the validated route Title and Content must be present, although
   * `UpdateCard` itself accepts them absent.
   */
  lemma UpdateValidIff(command: UpdateCardCommand)
    ensures ValidateUpdate(command) == []
        <==> UpdateTitleOk(command.title) && UpdateContentOk(command.content) && ListOk(command.list)
  {
  }

  /** A 1- or 2-character title is accepted on create and rejected on update. */
  lemma ShortTitleCreateOnly(title: string)
    requires 1 <= |title| < UpdateMinimumLength && !IsBlank(title)
    ensures CreateTitleOk(title)
    ensures !UpdateTitleOk(Some(title))
  {
  }

  /** Every error names one of the three properties, never the empty name. */
  lemma ErrorsNameKnownProperties(create: CreateCardCommand, update: UpdateCardCommand)
    ensures forall e :: e in ValidateCreate(create) ==> e.property in {"Title", "Content", "List"}
    ensures forall e :: e in ValidateUpdate(update) ==> e.property in {"Title", "Content", "List"}
  {
  }

  /** A validated create command produces a card the table accepts. */
  lemma ValidCreateFitsColumns(command: CreateCardCommand)
    requires ValidateCreate(command) == []
    ensures WithinColumnBounds(CardFields(command.title, command.content, command.list))
  {
  }

  /**
   * A validated update command keeps a row within the column bounds and
   * leaves Title and Content non-blank.
   */
  lemma ValidUpdateFitsColumns(command: UpdateCardCommand, f: CardFields)
    requires ValidateUpdate(command) == []
    requires WithinColumnBounds(f)
    ensures WithinColumnBounds(Applied(command, f))
    ensures !IsBlank(Applied(command, f).title) && !IsBlank(Applied(command, f).content)
  {
  }
}
