/** The body of a create or update request and the bean-validation constraints
    declared on it. */
module TaskRequests {
  import opened Entities

  datatype TaskRequest = TaskRequest(
    title: Option<string>,
    description: Option<string>,
    status: Option<TaskStatus>,
    priority: Option<TaskPriority>,
    dueDate: Option<Timestamp>)

  const TitleMinLength: nat := 3
  const TitleMaxLength: nat := 200
  const DescriptionMaxLength: nat := 5000

  /** `String.trim`, first half: drops the leading characters at or below U+0020. */
  function TrimLeading(s: string): (r: string)
    ensures |r| <= |s| && r == s[|s| - |r|..]
    ensures r != [] ==> r[0] > ' '
    ensures forall i :: 0 <= i < |s| - |r| ==> s[i] <= ' '
  {
    if s != [] && s[0] <= ' ' then TrimLeading(s[1..]) else s
  }

  /** `String.trim`, second half: drops the trailing characters at or below U+0020. */
  function TrimTrailing(s: string): (r: string)
    ensures |r| <= |s| && r == s[..|r|]
    ensures r != [] ==> r[|r| - 1] > ' '
    ensures forall i :: |r| <= i < |s| ==> s[i] <= ' '
  {
    if s != [] && s[|s| - 1] <= ' ' then TrimTrailing(s[..|s| - 1]) else s
  }

  function Trim(s: string): string
  {
    TrimTrailing(TrimLeading(s))
  }

  /** `@NotBlank`: not null, and not empty once trimmed. */
  predicate NotBlank(s: Option<string>)
  {
    s.Some? && Trim(s.value) != []
  }

  /** `@Size(min, max)`: a null value satisfies it. */
  predicate SizeWithin(s: Option<string>, min: nat, max: nat)
  {
    s.None? || min <= |s.value| <= max
  }

  /** One constraint violation per annotation of the record. */
  datatype Violation = BlankTitle | TitleSize | DescriptionSize

  /** Every violated constraint of the request; validation reports them all. */
  function Violations(request: TaskRequest): set<Violation>
  {
    (if NotBlank(request.title) then {} else {BlankTitle})
    + (if SizeWithin(request.title, TitleMinLength, TitleMaxLength) then {} else {TitleSize})
    + (if SizeWithin(request.description, 0, DescriptionMaxLength) then {} else {DescriptionSize})
  }

  /** A request that `@Valid` lets through. */
  predicate IsValid(request: TaskRequest)
  {
    Violations(request) == {}
  }

  /** A string trims to nothing exactly when every character is at or below U+0020. */
  lemma {:induction false} TrimEmptyIffBlank(s: string)
    ensures Trim(s) == [] <==> forall i :: 0 <= i < |s| ==> s[i] <= ' '
  {
    var l := TrimLeading(s);
    if Trim(s) != [] {
      var t := Trim(s);
      assert t[0] > ' ';
      assert t[0] == l[0] == s[|s| - |l|];
    }
  }

  /** Validity spelled out: a title that is present, has a character above
      U+0020 and 3 to 200 characters, and a description that is absent or has
      at most 5000 characters. */
  lemma ValidRequest(request: TaskRequest)
    ensures IsValid(request) <==>
      && request.title.Some?
      && (exists i :: 0 <= i < |request.title.value| && request.title.value[i] > ' ')
      && TitleMinLength <= |request.title.value| <= TitleMaxLength
      && (request.description.None? || |request.description.value| <= DescriptionMaxLength)
  {
    if request.title.Some? {
      TrimEmptyIffBlank(request.title.value);
    }
    if IsValid(request) {
      assert BlankTitle !in Violations(request);
      assert TitleSize !in Violations(request);
      assert DescriptionSize !in Violations(request);
    } else if request.title.Some? && Trim(request.title.value) != [] {
      assert Violations(request) != {};
      var v :| v in Violations(request);
    }
  }

  /** Status, priority and due date carry no constraint. */
  lemma OptionalFieldsUnconstrained(
    request: TaskRequest, status: Option<TaskStatus>,
    priority: Option<TaskPriority>, dueDate: Option<Timestamp>)
    ensures IsValid(request) <==>
            IsValid(request.(status := status, priority := priority, dueDate := dueDate))
  {
  }
}
