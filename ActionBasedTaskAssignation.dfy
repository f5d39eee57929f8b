/** ActionBasedTaskAssignationFilter: an actor filter whose `users` input is a JSON text
    `{"initiator": bool, "users": [ids], "memberShips": [{groupId, roleId, memberShipsRef}]}`.
    `validateInputParameters` checks the shape of that text; `filter` returns the
    duplicate-free union of the process initiator, the listed user ids, and the users
    found by one search over all memberships. */
module ActionBasedTaskAssignation {
  import opened JavaLang
  import opened Json
  import opened InvolvedUsers
  import opened MembershipQuery

  const UsersInput := "users"

  const NonEmptyStringMessage := "Mandatory parameter 'users' must be a non-empty string."
  const InvalidStructureMessage := "Invalid JSON structure for parameter 'users'."
  const InitializationFailedMessage := "Initialization failed due to unexpected error."

  function ValidationError(message: string): Exc
  {
    Thrown(ConnectorValidationException, message, None)
  }

  // ---------------------------------------------------------------------------
  // validateUsersJson / validateField
  // ---------------------------------------------------------------------------

  /** `validateField`: the field must exist and pass `typeCheck`. */
  function ValidateField(parent: Json, fieldName: string, typeCheck: Json -> bool): (r: Outcome<Exc>)
    ensures r == Pass <==> Get(parent, fieldName).Some? && typeCheck(Get(parent, fieldName).value)
  {
    var node := Get(parent, fieldName);
    if node.Some? && typeCheck(node.value) then Pass
    else Fail(ValidationError("Mandatory field '" + fieldName + "' is missing or has an invalid type."))
  }

  /** The checks inside the `try` of `validateUsersJson` (lines 89-97), before the
      `catch` re-wraps whatever they throw. */
  function CheckUsersTree(root: Json): Outcome<Exc>
  {
    if !root.JObject? then Fail(ValidationError("Parameter 'users' must be a JSON object."))
    else
      match ValidateField(root, "initiator", (n: Json) => n.JBool?)
      case Fail(e) => Fail(e)
      case Pass =>
        match ValidateField(root, "users", (n: Json) => n.JArray?)
        case Fail(e) => Fail(e)
        case Pass => ValidateField(root, "memberShips", (n: Json) => n.JArray?)
  }

  /** The accepted shape: an object whose `initiator` is a boolean and whose `users` and
      `memberShips` are arrays. Array elements are not looked at. */
  predicate WellShapedUsers(root: Json)
  {
    && root.JObject?
    && "initiator" in root.fields && root.fields["initiator"].JBool?
    && "users" in root.fields && root.fields["users"].JArray?
    && "memberShips" in root.fields && root.fields["memberShips"].JArray?
  }

  /** `validateUsersJson("users")` on the host value `input`. A non-`String` value
      fails the cast that stands outside the `try`; null or empty text is rejected
      with its own message; every other failure, whether the text is not JSON or the
      tree has the wrong shape, ends in the single "Invalid JSON structure" message. */
  function ValidateUsersJson(input: Value, jk: Jackson): (r: Outcome<Exc>)
    ensures !input.Null? && !input.Str? ==> r == Fail(Foreign(ClassCastException))
    ensures input == Null || input == Str("") ==> r == Fail(ValidationError(NonEmptyStringMessage))
    ensures input.Str? && input.s != [] ==>
      (r == Pass <==> jk.readTree(input.s).Tree? && WellShapedUsers(jk.readTree(input.s).root))
    ensures input.Str? && input.s != [] && r != Pass ==> r == Fail(ValidationError(InvalidStructureMessage))
  {
    match input
    case Null => Fail(ValidationError(NonEmptyStringMessage))
    case Str(text) =>
      if text == [] then Fail(ValidationError(NonEmptyStringMessage))
      else
        (match jk.readTree(text)
         case Tree(root) =>
           (match CheckUsersTree(root)
            case Pass => Pass
            case Fail(_) => Fail(ValidationError(InvalidStructureMessage)))
         case _ => Fail(ValidationError(InvalidStructureMessage)))
    case _ => Fail(Foreign(ClassCastException))
  }

  /** A `users` text that passes validation parses to exactly its three fields. */
  lemma ValidatedUsersParse(text: string, jk: Jackson)
    requires ValidateUsersJson(Str(text), jk) == Pass
    ensures var root := jk.readTree(text).root;
      && ParseSpec(Some(text), jk).Success?
      && ParseSpec(Some(text), jk).value.initiator == root.fields["initiator"].b
      && |ParseSpec(Some(text), jk).value.users| == |root.fields["users"].elems|
      && |ParseSpec(Some(text), jk).value.memberships| == |root.fields["memberShips"].elems|
  {
    var root := jk.readTree(text).root;
    var d := InvolvedUsersOf(root, jk);
    assert Get(root, "users") == Some(root.fields["users"]);
    assert Get(root, "memberShips") == Some(root.fields["memberShips"]);
  }

  // ---------------------------------------------------------------------------
  // checkPositiveIntegerInput / checkPositiveLongInput
  // ---------------------------------------------------------------------------

  /** `String.format("%s", value)` of a boxed number, `"null"` for `null`. */
  function Shown(value: Option<int>): string
  {
    if value.None? then "null" else IntToString(value.value)
  }

  /** `checkPositiveIntegerInput(inputName)`: only an `Integer` above zero passes. */
  function CheckPositiveIntegerInput(inputName: string, input: Value): (r: Outcome<Exc>)
    ensures r == Pass <==> input.Integer? && input.i > 0
    ensures input.Null? || (input.Integer? && input.i <= 0) ==>
      r == Fail(ValidationError("Mandatory parameter '" + inputName + "' must be a positive integer but is '"
                                + Shown(if input.Null? then None else Some(input.i)) + "'."))
    ensures !input.Null? && !input.Integer? ==>
      r == Fail(ValidationError("'" + inputName + "' parameter must be an Integer"))
  {
    match input
    case Null =>
      Fail(ValidationError("Mandatory parameter '" + inputName + "' must be a positive integer but is '" + Shown(None) + "'."))
    case Integer(v) =>
      if v <= 0 then
        Fail(ValidationError("Mandatory parameter '" + inputName + "' must be a positive integer but is '" + Shown(Some(v)) + "'."))
      else Pass
    case _ => Fail(ValidationError("'" + inputName + "' parameter must be an Integer"))
  }

  /** `checkPositiveLongInput(inputName)`: only a `Long` above zero passes; an `Integer`
      fails the cast like any other class. */
  function CheckPositiveLongInput(inputName: string, input: Value): (r: Outcome<Exc>)
    ensures r == Pass <==> input.Long? && input.l > 0
    ensures input.Null? || (input.Long? && input.l <= 0) ==>
      r == Fail(ValidationError("Mandatory parameter '" + inputName + "' must be a positive long but is '"
                                + Shown(if input.Null? then None else Some(input.l)) + "'."))
    ensures !input.Null? && !input.Long? ==>
      r == Fail(ValidationError("'" + inputName + "' parameter must be an Long"))
  {
    match input
    case Null =>
      Fail(ValidationError("Mandatory parameter '" + inputName + "' must be a positive long but is '" + Shown(None) + "'."))
    case Long(v) =>
      if v <= 0 then
        Fail(ValidationError("Mandatory parameter '" + inputName + "' must be a positive long but is '" + Shown(Some(v)) + "'."))
      else Pass
    case _ => Fail(ValidationError("'" + inputName + "' parameter must be an Long"))
  }

  /** The rejected value can be read back from the message of a failed check. */
  lemma RejectedLongIsReported(inputName: string, v: Int64)
    requires v <= 0
    ensures var prefix := "Mandatory parameter '" + inputName + "' must be a positive long but is '";
      var message := CheckPositiveLongInput(inputName, Long(v)).error.message;
      ParseLong(message[|prefix|..|message| - 2]) == Some(v)
  {
    var prefix := "Mandatory parameter '" + inputName + "' must be a positive long but is '";
    var message := prefix + IntToString(v) + "'.";
    assert message[|prefix|..|message| - 2] == IntToString(v);
    ParseLongOfIntToString(v);
  }

  // ---------------------------------------------------------------------------
  // filter
  // ---------------------------------------------------------------------------

  /** The Bonita engine as `filter` sees it. `startedBy` is what
      `getProcessInstance(rootProcessInstanceId).getStartedBy()` gives or throws;
      `searchUsers` maps search options to the ids of the users found, or an exception. */
  datatype Engine = Engine(
    rootProcessInstanceId: Int64,
    startedBy: Result<Int64, Exc>,
    searchUsers: SearchOptions -> Result<seq<Int64>, Exc>)

  /** The engine calls `filter` makes. */
  datatype EngineCall = GetProcessInstance(processInstanceId: Int64) | SearchUsers(options: SearchOptions)

  /** The `users` input as `(String) getInputParameter("users")` inside the `try` of
      line 136 hands it to the parser; a non-`String` fails the cast. */
  function UsersText(input: Value): Result<Option<string>, Exc>
  {
    match input
    case Null => Success(None)
    case Str(text) => Success(Some(text))
    case _ => Failure(Foreign(ClassCastException))
  }

  /** What step 1 of `filter` reads from the input, or the exception it raises. */
  function ParsedInput(input: Value, jk: Jackson): Result<InvolvedUsersData, Exc>
  {
    match UsersText(input)
    case Failure(e) => Failure(e)
    case Success(json) => ParseSpec(json, jk)
  }

  /** The candidates `filter` promises: the initiator when asked for and found, the
      listed ids, and the search hits when memberships are given and the search works. */
  function Candidates(d: InvolvedUsersData, engine: Engine): set<Int64>
  {
    InitiatorCandidates(d, engine) + (set u | u in d.users) + MembershipCandidates(d, engine)
  }

  /** The initiator, when asked for and the lookup works. */
  function InitiatorCandidates(d: InvolvedUsersData, engine: Engine): set<Int64>
  {
    if d.initiator && engine.startedBy.Success? then {engine.startedBy.value} else {}
  }

  /** The options of the one membership search. */
  function MembershipSearch(d: InvolvedUsersData): SearchOptions
  {
    SearchOptions(0, MaxInteger, MembershipFilters(d.memberships))
  }

  /** The search hits, when memberships are given and the search works. */
  function MembershipCandidates(d: InvolvedUsersData, engine: Engine): set<Int64>
  {
    if d.memberships != [] && engine.searchUsers(MembershipSearch(d)).Success?
    then set u | u in engine.searchUsers(MembershipSearch(d)).value
    else {}
  }

  predicate NoDuplicates(xs: seq<Int64>)
  {
    forall i, j :: 0 <= i < j < |xs| ==> xs[i] != xs[j]
  }

  /** `new ArrayList<>(userIds)`: the elements of the set, each once, in some order. */
  method ToList(userIds: set<Int64>) returns (xs: seq<Int64>)
    ensures NoDuplicates(xs)
    ensures (set x | x in xs) == userIds
    ensures |xs| == |userIds|
  {
    xs := [];
    var rest := userIds;
    while rest != {}
      invariant rest <= userIds
      invariant (set x | x in xs) == userIds - rest
      invariant NoDuplicates(xs)
      invariant |xs| + |rest| == |userIds|
      decreases |rest|
    {
      var x :| x in rest;
      assert x !in xs;
      assert (set y | y in xs + [x]) == (set y | y in xs) + {x};
      assert userIds - (rest - {x}) == (userIds - rest) + {x};
      xs := xs + [x];
      rest := rest - {x};
    }
  }

  /** The engine calls `filter` makes for the parsed input `d`, in order. */
  function EngineCalls(d: InvolvedUsersData, engine: Engine): seq<EngineCall>
  {
    (if d.initiator then [GetProcessInstance(engine.rootProcessInstanceId)] else [])
    + (if d.memberships != [] then [SearchUsers(MembershipSearch(d))] else [])
  }

  /** Steps 1-3 of `filter` (lines 143-206): add the initiator, the listed ids and the
      search hits to the set. */
  method CollectCandidates(d: InvolvedUsersData, engine: Engine) returns (userIds: set<Int64>, calls: seq<EngineCall>)
    ensures userIds == Candidates(d, engine)
    ensures calls == EngineCalls(d, engine)
  {
    userIds := {};
    calls := [];

    // 1. the process initiator
    if d.initiator {
      calls := calls + [GetProcessInstance(engine.rootProcessInstanceId)];
      if engine.startedBy.Success? {
        userIds := userIds + {engine.startedBy.value};
      }
    }
    assert userIds == InitiatorCandidates(d, engine);

    // 2. the listed ids
    if d.users != [] {
      userIds := userIds + (set u | u in d.users);
    }
    assert userIds == InitiatorCandidates(d, engine) + (set u | u in d.users);

    // 3. one search over all memberships
    if d.memberships != [] {
      var options := BuildMembershipSearch(d.memberships);
      calls := calls + [SearchUsers(options)];
      var found := engine.searchUsers(options);
      if found.Success? {
        userIds := userIds + (set u | u in found.value);
      }
    }
  }

  /** `filter(actorName)`. A parse failure becomes a `UserFilterException` before the
      engine is called; otherwise the result is duplicate-free and holds exactly
      `Candidates`. The initiator is looked up only when asked for, the search runs only
      for a non-empty membership list, and a failure of either is swallowed without
      losing the other sources. */
  method Filter(actorName: string, input: Value, jk: Jackson, engine: Engine)
    returns (r: Result<seq<Int64>, Exc>, calls: seq<EngineCall>)
    ensures ParsedInput(input, jk).Failure? ==>
      r == Failure(Thrown(UserFilterException, InitializationFailedMessage, Some(ParsedInput(input, jk).error)))
      && calls == []
    ensures ParsedInput(input, jk).Success? ==>
      && r.Success?
      && NoDuplicates(r.value)
      && (set u | u in r.value) == Candidates(ParsedInput(input, jk).value, engine)
      && calls == EngineCalls(ParsedInput(input, jk).value, engine)
  {
    var text := UsersText(input);
    if text.Failure? {
      return Failure(Thrown(UserFilterException, InitializationFailedMessage, Some(text.error))), [];
    }
    var parsed := ParseInvolvedUsersJson(text.value, jk);
    if parsed.Failure? {
      return Failure(Thrown(UserFilterException, InitializationFailedMessage, Some(parsed.error))), [];
    }
    var userIds;
    userIds, calls := CollectCandidates(parsed.value, engine);
    var list := ToList(userIds);
    r := Success(list);
  }

  /** The initiator is looked up exactly when asked for, and the search runs exactly when
      memberships are given, whatever the engine answers. */
  lemma EngineCalledOnlyWhenNeeded(d: InvolvedUsersData, engine: Engine)
    ensures GetProcessInstance(engine.rootProcessInstanceId) in EngineCalls(d, engine) <==> d.initiator
    ensures SearchUsers(MembershipSearch(d)) in EngineCalls(d, engine) <==> d.memberships != []
    ensures |EngineCalls(d, engine)| <= 2
  {
  }

  /** The listed ids are always among the candidates, whatever the engine does. */
  lemma ListedUsersAlwaysKept(d: InvolvedUsersData, engine: Engine, u: Int64)
    requires u in d.users
    ensures u in Candidates(d, engine)
  {
  }

  /** With `initiator` false and no memberships, the engine plays no part. */
  lemma CandidatesWithoutEngine(d: InvolvedUsersData, engine: Engine, other: Engine)
    requires !d.initiator && d.memberships == []
    ensures Candidates(d, engine) == Candidates(d, other) == set u | u in d.users
  {
  }
}
