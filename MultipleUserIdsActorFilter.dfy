/** MultipleUserIdsActorFilter: an actor filter whose `usersList` input is meant to be a
    non-empty `List<Long>` of user ids, which `filter` hands back unchanged. */
module MultipleUserIdsActorFilter {
  import opened JavaLang

  const UsersListInput := "usersList"

  const NullMessage := "Input parameter 'usersList' cannot be null. At least one user ID must be provided."
  const EmptyMessage := "Input parameter 'usersList' cannot be empty. At least one user ID must be provided."
  const FilterFailedMessage := "Failed to process validated user list input."

  function NotAListMessage(simpleName: string): string
  {
    "Input parameter 'usersList' must be a List<Long>. Found type " + simpleName + "."
  }

  function WrongElementMessage(simpleName: string): string
  {
    "Input parameter 'usersList' must be a List<Long>. Found a List with elements of type " + simpleName + "."
  }

  function ValidationError(message: string): Exc
  {
    Thrown(ConnectorValidationException, message, None)
  }

  /** `validateInputParameters()` on the value of `usersList`. The checks run in order:
      null, not a list, empty, first element not a `Long`. Only the first element is
      inspected; a `null` first element is not an instance of `Long`, and asking its
      class then throws a `NullPointerException` instead of the validation error. */
  function ValidateInputParameters(input: Value): (r: Outcome<Exc>)
    ensures r == Pass <==> input.ListOf? && input.elems != [] && input.elems[0].Long?
    ensures input.Null? ==> r == Fail(ValidationError(NullMessage))
    ensures !input.Null? && !input.ListOf? ==> r == Fail(ValidationError(NotAListMessage(SimpleName(input))))
    ensures input.ListOf? && input.elems == [] ==> r == Fail(ValidationError(EmptyMessage))
    ensures input.ListOf? && input.elems != [] && input.elems[0].Null? ==> r == Fail(Foreign(NullPointerException))
    ensures input.ListOf? && input.elems != [] && !input.elems[0].Null? && !input.elems[0].Long? ==>
      r == Fail(ValidationError(WrongElementMessage(SimpleName(input.elems[0]))))
  {
    if input.Null? then Fail(ValidationError(NullMessage))
    else if !input.ListOf? then Fail(ValidationError(NotAListMessage(SimpleName(input))))
    else if input.elems == [] then Fail(ValidationError(EmptyMessage))
    else
      var head := input.elems[0];
      if head.Long? then Pass
      else if head.Null? then Fail(Foreign(NullPointerException))
      else Fail(ValidationError(WrongElementMessage(SimpleName(head))))
  }

  /** `filter(actorName)`: the list object itself, whatever `actorName` is; the cast is
      unchecked, so its elements are not looked at. `null` passes the cast and fails on
      `size()`; any other class fails the cast; both are wrapped. */
  function Filter(actorName: string, input: Value): (r: Result<Value, Exc>)
    ensures r.Success? <==> input.ListOf?
    ensures r.Success? ==> r.value == input
    ensures input.Null? ==> r == Failure(Thrown(UserFilterException, FilterFailedMessage, Some(Foreign(NullPointerException))))
    ensures !input.Null? && !input.ListOf? ==>
      r == Failure(Thrown(UserFilterException, FilterFailedMessage, Some(Foreign(ClassCastException))))
  {
    match input
    case ListOf(_, _) => Success(input)
    case Null => Failure(Thrown(UserFilterException, FilterFailedMessage, Some(Foreign(NullPointerException))))
    case _ => Failure(Thrown(UserFilterException, FilterFailedMessage, Some(Foreign(ClassCastException))))
  }

  /** After a successful validation `filter` returns a non-empty list that starts with a
      `Long`, for every actor. */
  lemma ValidatedInputIsReturned(actorName: string, input: Value)
    requires ValidateInputParameters(input) == Pass
    ensures Filter(actorName, input) == Success(input)
    ensures |Filter(actorName, input).value.elems| >= 1 && Filter(actorName, input).value.elems[0].Long?
  {
  }

  /** Validation looks at the first element only: a later element of any class, even
      `null`, does not make a validated list fail. */
  lemma OnlyFirstElementChecked(listClass: string, id: Int64, rest: seq<Value>)
    ensures ValidateInputParameters(ListOf(listClass, [Long(id)] + rest)) == Pass
    ensures Filter("", ListOf(listClass, [Long(id)] + rest)).value.elems[1..] == rest
  {
  }
}
