/**
 * `ValidationFilter<TRequest>`: the endpoint filter that validates the
 * command of a request before the handler runs, answers a validation problem
 * that groups the failures by property, and turns any exception of the rest
 * of the pipeline into a 500 problem.
 */
module ValidationFilter {
  import opened Wrappers
  import opened Text
  import opened Commands
  import opened Validators
  import opened Http

  const ValidationErrorTitle: string := "Validation Error"
  const ValidationErrorDetail: string := "An error occurred while validating the request."
  const InitialArraySize: nat := 4
  const MaxArraySize: nat := 16

  // ---------------------------------------------------------------------
  // OrderBy(e => e.PropertyName): a stable sort
  // ---------------------------------------------------------------------

  predicate SortedByProperty(s: seq<ValidationError>) {
    forall i, j :: 0 <= i < j < |s| ==> OrdinalLe(s[i].property, s[j].property)
  }

  /** The errors ordered by property name; equal names keep their order. */
  function SortByProperty(errors: seq<ValidationError>): seq<ValidationError>
  {
    if errors == [] then []
    else InsertByProperty(SortByProperty(errors[..|errors| - 1]), errors[|errors| - 1])
  }

  /** Places `e` after every element whose property name does not follow its own. */
  function InsertByProperty(s: seq<ValidationError>, e: ValidationError): seq<ValidationError>
  {
    if s == [] || OrdinalLe(s[|s| - 1].property, e.property) then s + [e]
    else InsertByProperty(s[..|s| - 1], e) + [s[|s| - 1]]
  }

  lemma {:induction false} InsertPermutes(s: seq<ValidationError>, e: ValidationError)
    ensures multiset(InsertByProperty(s, e)) == multiset(s) + multiset{e}
  {
    if s != [] && !OrdinalLe(s[|s| - 1].property, e.property) {
      InsertPermutes(s[..|s| - 1], e);
      assert s == s[..|s| - 1] + [s[|s| - 1]];
    }
  }

  lemma {:induction false} InsertSorted(s: seq<ValidationError>, e: ValidationError)
    requires SortedByProperty(s)
    ensures SortedByProperty(InsertByProperty(s, e))
  {
    if s == [] {
    } else if OrdinalLe(s[|s| - 1].property, e.property) {
      forall k | 0 <= k < |s|
        ensures OrdinalLe(s[k].property, e.property)
      {
        if k < |s| - 1 {
          OrdinalLeTransitive(s[k].property, s[|s| - 1].property, e.property);
        }
      }
      SnocSorted(s, e);
    } else {
      var init, last := s[..|s| - 1], s[|s| - 1];
      InsertSorted(init, e);
      InsertBelow(init, e, last);
      SnocSorted(InsertByProperty(init, e), last);
    }
  }

  /** Every element inserted before `last` has a property that does not follow its own. */
  lemma InsertBelow(init: seq<ValidationError>, e: ValidationError, last: ValidationError)
    requires SortedByProperty(init + [last]) && !OrdinalLe(last.property, e.property)
    ensures forall k :: 0 <= k < |InsertByProperty(init, e)| ==> OrdinalLe(InsertByProperty(init, e)[k].property, last.property)
  {
    InsertPermutes(init, e);
    OrdinalLeTotal(last.property, e.property);
    var ins := InsertByProperty(init, e);
    forall k | 0 <= k < |ins|
      ensures OrdinalLe(ins[k].property, last.property)
    {
      assert ins[k] in multiset(ins);
      if ins[k] != e {
        assert ins[k] in multiset(init);
        var m :| 0 <= m < |init| && init[m] == ins[k];
        assert (init + [last])[m] == ins[k] && (init + [last])[|init|] == last;
      }
    }
  }

  lemma SnocSorted(s: seq<ValidationError>, e: ValidationError)
    requires SortedByProperty(s)
    requires forall k :: 0 <= k < |s| ==> OrdinalLe(s[k].property, e.property)
    ensures SortedByProperty(s + [e])
  {
  }

  /** Inserting `e` adds its failure after the others of its property. */
  lemma {:induction false} InsertFailures(s: seq<ValidationError>, e: ValidationError, property: string)
    ensures FailuresOf(InsertByProperty(s, e), property)
         == FailuresOf(s, property) + (if e.property == property then [e.failure] else [])
  {
    if s != [] && !OrdinalLe(s[|s| - 1].property, e.property) {
      var init, last := s[..|s| - 1], s[|s| - 1];
      assert init + [last] == s;
      InsertFailures(init, e, property);
      OrdinalLeReflexive(e.property);
      FailuresOfSnoc(InsertByProperty(init, e), last, property);
      FailuresOfSnoc(init, last, property);
    } else {
      FailuresOfSnoc(s, e, property);
    }
  }

  lemma FailuresOfSnoc(s: seq<ValidationError>, e: ValidationError, property: string)
    ensures FailuresOf(s + [e], property)
         == FailuresOf(s, property) + (if e.property == property then [e.failure] else [])
  {
    assert (s + [e])[..|s|] == s;
  }

  /**
   * The sort is a permutation into property order that keeps, for every
   * property, its failures in their original order.
   */
  lemma {:induction false} SortByPropertyCorrect(errors: seq<ValidationError>)
    ensures multiset(SortByProperty(errors)) == multiset(errors)
    ensures SortedByProperty(SortByProperty(errors))
    ensures forall p :: FailuresOf(SortByProperty(errors), p) == FailuresOf(errors, p)
  {
    if errors != [] {
      var init, last := errors[..|errors| - 1], errors[|errors| - 1];
      assert init + [last] == errors;
      SortByPropertyCorrect(init);
      InsertPermutes(SortByProperty(init), last);
      InsertSorted(SortByProperty(init), last);
      forall p
        ensures FailuresOf(SortByProperty(errors), p) == FailuresOf(errors, p)
      {
        InsertFailures(SortByProperty(init), last, p);
      }
    }
  }

  // ---------------------------------------------------------------------
  // GroupValidationErrors
  // ---------------------------------------------------------------------

  /** `Math.Min(Math.Max(InitialArraySize, MaxArraySize), total)`. */
  function ArraySize(total: nat): nat {
    var cap := if InitialArraySize < MaxArraySize then MaxArraySize else InitialArraySize;
    if cap < total then cap else total
  }

  function Properties(errors: seq<ValidationError>): set<string> {
    set e | e in errors :: e.property
  }

  /** The first `n` failures, or all of them when there are fewer. */
  function Take(failures: seq<Failure>, n: nat): seq<Failure> {
    if |failures| <= n then failures else failures[..n]
  }

  /**
   * What the grouping answers: each non-empty property name that has
   * errors, mapped to its failures in reported order, at most
   * `ArraySize(|errors|)` of them.
   */
  function Grouped(errors: seq<ValidationError>): map<string, seq<Failure>> {
    GroupedExcept(errors, "", ArraySize(|errors|))
  }

  /** The groups of `errors` for every property but `""` and `current`. */
  function GroupedExcept(errors: seq<ValidationError>, current: string, size: nat): map<string, seq<Failure>> {
    map p | p in Properties(errors) && p != "" && p != current :: Take(FailuresOf(errors, p), size)
  }

  /**
   * `GroupValidationErrors`: sorts the errors by property, then walks them
   * collecting the failures of the current property into an array of
   * `ArraySize` slots, and stores a copy of the filled slots whenever the
   * property changes and at the end. The current property starts as `""`
   * with an empty array, so errors of the empty name are never stored.
   */
  method GroupValidationErrors(errors: seq<ValidationError>) returns (groups: map<string, seq<Failure>>)
    ensures groups == Grouped(errors)
  {
    groups := map[];
    var currentProperty := "";
    var currentArray: array<Failure> := new Failure[0];
    var currentIndex: nat := 0;
    var sorted := SortByProperty(errors);
    var size := ArraySize(|errors|);
    SortByPropertyCorrect(errors);
    assert |sorted| == |errors| by {
      assert |multiset(sorted)| == |multiset(errors)|;
    }
    for i := 0 to |sorted|
      invariant fresh(currentArray)
      invariant currentIndex <= currentArray.Length
      invariant Collecting(sorted, i, size, groups, currentProperty, currentArray[..currentIndex], currentArray.Length)
    {
      var error := sorted[i];
      CollectStep(sorted, i, size, groups, currentProperty, currentArray[..currentIndex], currentArray.Length);
      if error.property != currentProperty {
        if currentIndex > 0 {
          groups := groups[currentProperty := currentArray[..currentIndex]];
        }
        currentProperty := error.property;
        currentArray := new Failure[size];
        currentIndex := 0;
      }
      ghost var collected := currentArray[..currentIndex];
      if currentIndex < currentArray.Length {
        currentArray[currentIndex] := error.failure;
        currentIndex := currentIndex + 1;
        assert currentArray[..currentIndex] == collected + [error.failure];
      }
    }
    CollectEnd(sorted, size, groups, currentProperty, currentArray[..currentIndex], currentArray.Length);
    if currentIndex > 0 {
      groups := groups[currentProperty := currentArray[..currentIndex]];
    }
    SortedGroups(errors);
  }

  /**
   * The state of the grouping loop after the first `i` sorted errors:
   * `collected` holds the kept failures of the current property, in an
   * array of `capacity` slots (none before the first property), and
   * `groups` every finished property.
   */
  ghost predicate Collecting(sorted: seq<ValidationError>, i: nat, size: nat, groups: map<string, seq<Failure>>,
                             current: string, collected: seq<Failure>, capacity: nat)
  {
    && i <= |sorted|
    && capacity == (if current == "" then 0 else size)
    && (i == 0 ==> current == "")
    && (0 < i ==> current == sorted[i - 1].property)
    && collected == Take(FailuresOf(sorted[..i], current), capacity)
    && groups == GroupedExcept(sorted[..i], current, size)
  }

  /** One iteration of the grouping loop keeps `Collecting`. */
  lemma CollectStep(sorted: seq<ValidationError>, i: nat, size: nat, groups: map<string, seq<Failure>>,
                    current: string, collected: seq<Failure>, capacity: nat)
    requires SortedByProperty(sorted) && i < |sorted| && 1 <= size
    requires Collecting(sorted, i, size, groups, current, collected, capacity)
    ensures sorted[i].property != current ==>
      Collecting(sorted, i + 1, size, if |collected| > 0 then groups[current := collected] else groups,
                 sorted[i].property, [sorted[i].failure], size)
    ensures sorted[i].property == current ==>
      Collecting(sorted, i + 1, size, groups, current,
                 if |collected| < capacity then collected + [sorted[i].failure] else collected, capacity)
  {
    assert sorted[..i + 1] == sorted[..i] + [sorted[i]];
    if sorted[i].property != current {
      CollectNewProperty(sorted, i, size, groups, current, collected, capacity);
    } else {
      CollectSameProperty(sorted[..i], sorted[i], size, groups, collected, capacity);
    }
  }

  lemma CollectNewProperty(sorted: seq<ValidationError>, i: nat, size: nat, groups: map<string, seq<Failure>>,
                           current: string, collected: seq<Failure>, capacity: nat)
    requires SortedByProperty(sorted) && i < |sorted| && 1 <= size
    requires Collecting(sorted, i, size, groups, current, collected, capacity)
    requires sorted[i].property != current
    ensures var flushed := if |collected| > 0 then groups[current := collected] else groups;
      && flushed == GroupedExcept(sorted[..i] + [sorted[i]], sorted[i].property, size)
      && [sorted[i].failure] == Take(FailuresOf(sorted[..i] + [sorted[i]], sorted[i].property), size)
      && sorted[i].property != ""
  {
    var e := sorted[i];
    SwitchProperty(sorted, i, size);
    FlushGroup(sorted[..i], current, size);
    if 0 < i {
      FailuresOfEmptyIff(sorted[..i], current);
    }
    FailuresOfSnoc(sorted[..i], e, e.property);
  }

  lemma CollectSameProperty(prefix: seq<ValidationError>, e: ValidationError, size: nat,
                            groups: map<string, seq<Failure>>, collected: seq<Failure>, capacity: nat)
    requires collected == Take(FailuresOf(prefix, e.property), capacity)
    requires groups == GroupedExcept(prefix, e.property, size)
    ensures groups == GroupedExcept(prefix + [e], e.property, size)
    ensures (if |collected| < capacity then collected + [e.failure] else collected)
         == Take(FailuresOf(prefix + [e], e.property), capacity)
  {
    StayOnProperty(prefix, e, size);
    FailuresOfSnoc(prefix, e, e.property);
    TakeSnoc(FailuresOf(prefix, e.property), e.failure, capacity);
  }

  /** After the last error, storing the current group gives all the groups. */
  lemma CollectEnd(sorted: seq<ValidationError>, size: nat, groups: map<string, seq<Failure>>,
                   current: string, collected: seq<Failure>, capacity: nat)
    requires Collecting(sorted, |sorted|, size, groups, current, collected, capacity)
    requires 0 < |sorted| ==> 1 <= size
    ensures (if |collected| > 0 then groups[current := collected] else groups) == GroupedExcept(sorted, "", size)
  {
    assert sorted[..|sorted|] == sorted;
    FlushGroup(sorted, current, size);
    if 0 < |sorted| {
      FailuresOfEmptyIff(sorted, current);
    }
  }

  /** One more failure is kept exactly when there is still a free slot. */
  lemma TakeSnoc(failures: seq<Failure>, f: Failure, n: nat)
    ensures |Take(failures, n)| < n ==> Take(failures + [f], n) == Take(failures, n) + [f]
    ensures |Take(failures, n)| >= n ==> Take(failures + [f], n) == Take(failures, n)
  {
    if |failures| >= n {
      assert (failures + [f])[..n] == failures[..n];
    }
  }

  lemma PropertiesSnoc(s: seq<ValidationError>, e: ValidationError)
    ensures Properties(s + [e]) == Properties(s) + {e.property}
  {
    assert forall x :: x in s + [e] <==> x in s || x == e;
  }

  /** A property has failures exactly when some error names it. */
  lemma {:induction false} FailuresOfEmptyIff(s: seq<ValidationError>, p: string)
    ensures FailuresOf(s, p) == [] <==> p !in Properties(s)
  {
    if s != [] {
      var init, last := s[..|s| - 1], s[|s| - 1];
      assert init + [last] == s;
      FailuresOfEmptyIff(init, p);
      PropertiesSnoc(init, last);
    }
  }

  /** Another error of the current property leaves every other group as it was. */
  lemma StayOnProperty(s: seq<ValidationError>, e: ValidationError, size: nat)
    ensures GroupedExcept(s + [e], e.property, size) == GroupedExcept(s, e.property, size)
  {
    var after, before := GroupedExcept(s + [e], e.property, size), GroupedExcept(s, e.property, size);
    PropertiesSnoc(s, e);
    assert after.Keys == before.Keys;
    forall p | p in after
      ensures after[p] == before[p]
    {
      FailuresOfSnoc(s, e, p);
    }
  }

  /**
   * Storing the group of the current property, when it has one, gives every
   * group of the prefix.
   */
  lemma FlushGroup(s: seq<ValidationError>, current: string, size: nat)
    ensures current != "" && FailuresOf(s, current) != [] ==>
      GroupedExcept(s, current, size)[current := Take(FailuresOf(s, current), size)] == GroupedExcept(s, "", size)
    ensures current == "" || FailuresOf(s, current) == [] ==>
      GroupedExcept(s, current, size) == GroupedExcept(s, "", size)
  {
    FailuresOfEmptyIff(s, current);
  }

  /**
   * In sorted errors, a property that differs from the previous one has not
   * been seen before, and it is not the empty name.
   */
  lemma SwitchProperty(s: seq<ValidationError>, i: nat, size: nat)
    requires SortedByProperty(s) && i < |s|
    requires i == 0 || s[i].property != s[i - 1].property
    requires i == 0 ==> s[i].property != ""
    ensures s[i].property != ""
    ensures FailuresOf(s[..i], s[i].property) == []
    ensures GroupedExcept(s[..i] + [s[i]], s[i].property, size) == GroupedExcept(s[..i], "", size)
  {
    FailuresOfEmptyIff(s[..i], s[i].property);
    var q := s[i].property;
    if q in Properties(s[..i]) {
      var k :| 0 <= k < i && s[k].property == q;
      OrdinalLeAntisymmetric(s[i - 1].property, q);
    }
    NewPropertyGroups(s[..i], s[i], size);
  }

  /** The first error of a new property adds nothing but that property's group. */
  lemma NewPropertyGroups(s: seq<ValidationError>, e: ValidationError, size: nat)
    requires e.property !in Properties(s)
    ensures GroupedExcept(s + [e], e.property, size) == GroupedExcept(s, "", size)
  {
    var after, before := GroupedExcept(s + [e], e.property, size), GroupedExcept(s, "", size);
    PropertiesSnoc(s, e);
    assert after.Keys == before.Keys;
    forall p | p in after
      ensures after[p] == before[p]
    {
      FailuresOfSnoc(s, e, p);
    }
  }

  lemma PermutedProperties(a: seq<ValidationError>, b: seq<ValidationError>)
    requires multiset(a) == multiset(b)
    ensures Properties(a) == Properties(b)
  {
    forall e
      ensures e in a <==> e in b
    {
      assert e in a <==> e in multiset(a);
      assert e in b <==> e in multiset(b);
    }
  }

  /** The groups of the sorted errors are the groups of the errors. */
  lemma SortedGroups(errors: seq<ValidationError>)
    ensures GroupedExcept(SortByProperty(errors), "", ArraySize(|errors|)) == Grouped(errors)
  {
    SortByPropertyCorrect(errors);
    PermutedProperties(SortByProperty(errors), errors);
    SameGroups(SortByProperty(errors), errors, ArraySize(|errors|));
  }

  lemma SameGroups(a: seq<ValidationError>, b: seq<ValidationError>, size: nat)
    requires Properties(a) == Properties(b)
    requires forall p :: FailuresOf(a, p) == FailuresOf(b, p)
    ensures GroupedExcept(a, "", size) == GroupedExcept(b, "", size)
  {
  }

  // ---------------------------------------------------------------------
  // What the grouping promises
  // ---------------------------------------------------------------------

  lemma {:induction false} FailuresOfLength(errors: seq<ValidationError>, p: string)
    ensures |FailuresOf(errors, p)| <= |errors|
  {
    if errors != [] {
      FailuresOfLength(errors[..|errors| - 1], p);
    }
  }

  /**
   * The keys are exactly the non-empty property names that have errors;
   * errors of the empty name are dropped.
   */
  lemma GroupedKeys(errors: seq<ValidationError>)
    ensures forall p :: p in Grouped(errors) <==> p != "" && exists i :: 0 <= i < |errors| && errors[i].property == p
    ensures "" !in Grouped(errors)
  {
    forall p
      ensures p in Properties(errors) <==> exists i :: 0 <= i < |errors| && errors[i].property == p
    {
      if p in Properties(errors) {
        var e :| e in errors && e.property == p;
        var i :| 0 <= i < |errors| && errors[i] == e;
      }
    }
  }

  /**
   * Each group is a non-empty prefix of its property's failures in reported
   * order, with at most 16 of them: the whole list when it has 16 or fewer.
   */
  lemma GroupedValues(errors: seq<ValidationError>)
    ensures forall p :: p in Grouped(errors) ==>
      && Grouped(errors)[p] != []
      && Grouped(errors)[p] <= FailuresOf(errors, p)
      && Grouped(errors)[p] == Take(FailuresOf(errors, p), MaxArraySize)
      && |Grouped(errors)[p]| <= MaxArraySize
  {
    forall p | p in Grouped(errors)
      ensures Grouped(errors)[p] != [] && Grouped(errors)[p] == Take(FailuresOf(errors, p), MaxArraySize)
    {
      FailuresOfEmptyIff(errors, p);
      FailuresOfLength(errors, p);
    }
  }

  /** With at most 16 errors nothing is cut: each group is all its property's failures. */
  lemma GroupedUncut(errors: seq<ValidationError>)
    requires |errors| <= MaxArraySize
    ensures forall p :: p in Grouped(errors) ==> Grouped(errors)[p] == FailuresOf(errors, p)
  {
    forall p | p in Grouped(errors)
      ensures Grouped(errors)[p] == FailuresOf(errors, p)
    {
      FailuresOfLength(errors, p);
    }
  }

  /**
   * There is no group exactly when every error has the empty name; in
   * particular, without errors of the empty name, exactly when there is
   * no error.
   */
  lemma GroupedEmptyIff(errors: seq<ValidationError>)
    ensures Grouped(errors) == map[] <==> forall i :: 0 <= i < |errors| ==> errors[i].property == ""
    ensures (forall i :: 0 <= i < |errors| ==> errors[i].property != "") ==> (Grouped(errors) == map[] <==> errors == [])
  {
    GroupedKeys(errors);
    if exists i :: 0 <= i < |errors| && errors[i].property != "" {
      var i :| 0 <= i < |errors| && errors[i].property != "";
      assert errors[i].property in Grouped(errors);
    }
    if errors != [] && errors[0].property != "" {
      assert errors[0].property in Grouped(errors);
    }
  }

  /**
   * The validation problem of a create command names exactly the failing
   * properties, each with all of its failures.
   */
  lemma CreateProblemGroups(command: CreateCardCommand)
    ensures forall p :: p in Grouped(ValidateCreate(command)) <==>
      || (p == "Title" && !CreateTitleOk(command.title))
      || (p == "Content" && !CreateContentOk(command.content))
      || (p == "List" && !ListOk(command.list))
    ensures forall p :: p in Grouped(ValidateCreate(command)) ==>
      Grouped(ValidateCreate(command))[p] == FailuresOf(ValidateCreate(command), p)
  {
    var errors := ValidateCreate(command);
    GroupedUncut(errors);
    ErrorsNameKnownProperties(command, UpdateCardCommand(None, None, None));
    forall p
      ensures p in Grouped(errors) <==> p != "" && FailuresOf(errors, p) != []
    {
      FailuresOfEmptyIff(errors, p);
    }
    forall p
      ensures FailuresOf(errors, p) != [] <==>
        || (p == "Title" && !CreateTitleOk(command.title))
        || (p == "Content" && !CreateContentOk(command.content))
        || (p == "List" && !ListOk(command.list))
    {
      CreateFailuresByProperty(command, p);
      if p !in {"Title", "Content", "List"} {
        FailuresOfEmptyIff(errors, p);
      }
    }
  }

  /**
   * The validation problem of an update command names exactly the failing
   * properties, each with all of its failures.
   */
  lemma UpdateProblemGroups(command: UpdateCardCommand)
    ensures forall p :: p in Grouped(ValidateUpdate(command)) <==>
      || (p == "Title" && !UpdateTitleOk(command.title))
      || (p == "Content" && !UpdateContentOk(command.content))
      || (p == "List" && !ListOk(command.list))
    ensures forall p :: p in Grouped(ValidateUpdate(command)) ==>
      Grouped(ValidateUpdate(command))[p] == FailuresOf(ValidateUpdate(command), p)
  {
    var errors := ValidateUpdate(command);
    GroupedUncut(errors);
    ErrorsNameKnownProperties(CreateCardCommand("", "", None), command);
    forall p
      ensures p in Grouped(errors) <==> p != "" && FailuresOf(errors, p) != []
    {
      FailuresOfEmptyIff(errors, p);
    }
    forall p
      ensures FailuresOf(errors, p) != [] <==>
        || (p == "Title" && !UpdateTitleOk(command.title))
        || (p == "Content" && !UpdateContentOk(command.content))
        || (p == "List" && !ListOk(command.list))
    {
      UpdateFailuresByProperty(command, p);
      if p !in {"Title", "Content", "List"} {
        FailuresOfEmptyIff(errors, p);
      }
    }
  }

  // ---------------------------------------------------------------------
  // InvokeAsync
  // ---------------------------------------------------------------------

  /** The `TRequest` the filter is instantiated with. */
  datatype RequestKind = CreateRequest | UpdateRequest

  /** A value in `EndpointFilterInvocationContext.Arguments`: a handler parameter. */
  datatype Argument =
    | ServiceArgument
    | RouteArgument(id: int)
    | CreateArgument(create: CreateCardCommand)
    | UpdateArgument(update: UpdateCardCommand)
    | CancellationArgument

  predicate OfKind(a: Argument, kind: RequestKind) {
    match kind
    case CreateRequest => a.CreateArgument?
    case UpdateRequest => a.UpdateArgument?
  }

  function TypeName(kind: RequestKind): string {
    match kind
    case CreateRequest => "CreateCardCommand"
    case UpdateRequest => "UpdateCardCommand"
  }

  /** `ExtractRequest`: the first argument of the request type, if any. */
  function ExtractRequest(args: seq<Argument>, kind: RequestKind): (r: Option<Argument>)
    ensures r.None? <==> forall i :: 0 <= i < |args| ==> !OfKind(args[i], kind)
    ensures r.Some? ==> exists i :: 0 <= i < |args| && args[i] == r.value && OfKind(args[i], kind)
                                    && forall j :: 0 <= j < i ==> !OfKind(args[j], kind)
  {
    if args == [] then None
    else if OfKind(args[0], kind) then Some(args[0])
    else
      var r := ExtractRequest(args[1..], kind);
      assert r.Some? ==> exists i :: 0 <= i < |args| - 1 && args[1..][i] == r.value && OfKind(args[1..][i], kind)
                                     && forall j :: 0 <= j < i ==> !OfKind(args[1..][j], kind);
      r
  }

  /** The validator of the request's type applied to it. */
  function ValidateRequest(request: Argument): seq<ValidationError> {
    match request
    case CreateArgument(c) => ValidateCreate(c)
    case UpdateArgument(u) => ValidateUpdate(u)
    case _ => []
  }

  /** `CreateRequestNotFoundResult`. */
  function RequestNotFound(kind: RequestKind): HttpResult {
    BadRequest("Request of type " + TypeName(kind) + " not found in the context.")
  }

  /** `CreateInternalErrorResult`: the answer for any exception below the filter. */
  const InternalError: HttpResult := Problem(ValidationErrorTitle, ValidationErrorDetail, 500)

  /**
   * The part of `InvokeAsync` before `next`: without a request of its type
   * it answers a bad request; with failures it answers the grouped
   * validation problem; otherwise the pipeline goes on.
   */
  method Gate(args: seq<Argument>, kind: RequestKind) returns (step: FilterStep)
    ensures ExtractRequest(args, kind).None? ==> step == ShortCircuit(RequestNotFound(kind))
    ensures ExtractRequest(args, kind).Some? ==>
      var errors := ValidateRequest(ExtractRequest(args, kind).value);
      && (step == Next <==> errors == [])
      && (errors != [] ==> step == ShortCircuit(ValidationProblem(Grouped(errors))))
  {
    var request := ExtractRequest(args, kind);
    if request.None? {
      return ShortCircuit(RequestNotFound(kind));
    }
    var errors := ValidateRequest(request.value);
    if errors != [] {
      var groups := GroupValidationErrors(errors);
      return ShortCircuit(ValidationProblem(groups));
    }
    step := Next;
  }

  /** The part of `InvokeAsync` after `next`: its result, or a 500 problem if it threw. */
  function Finish(next: Outcome<HttpResult>): (r: HttpResult)
    ensures next.Returned? ==> r == next.value
    ensures next.Threw? ==> r == InternalError && StatusCode(r) == 500
  {
    match next
    case Returned(result) => result
    case Threw => InternalError
  }
}
