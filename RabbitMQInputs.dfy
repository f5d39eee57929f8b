/** The five inputs both RabbitMQ connectors read through their `String` getters
    (`getHost`, `getQueueName`, `getMessage`, `getUsername`, `getPassword`), always in
    that order. Each getter casts the stored value to `String`, so a value of any
    other class throws `ClassCastException` where it is read. */
module RabbitMQInputs {
  import opened JavaLang

  datatype ConnectorInputs = ConnectorInputs(host: Value, queueName: Value, message: Value, username: Value, password: Value)

  /** The parameter names, in getter order. */
  const ParamNames: seq<string> := ["host", "queueName", "message", "username", "password"]

  /** The input values, in getter order. */
  function Values(inputs: ConnectorInputs): (vs: seq<Value>)
    ensures |vs| == |ParamNames|
  {
    [inputs.host, inputs.queueName, inputs.message, inputs.username, inputs.password]
  }

  /** A value on which the `(String)` cast of a getter throws. */
  predicate IllTyped(v: Value)
  {
    !v.Null? && !v.Str?
  }

  /** The position of the first ill-typed value, the one whose getter throws first. */
  function FirstIllTyped(vs: seq<Value>): (r: Option<nat>)
    ensures r.None? <==> forall i :: 0 <= i < |vs| ==> !IllTyped(vs[i])
    ensures r.Some? ==> r.value < |vs| && IllTyped(vs[r.value]) && forall j :: 0 <= j < r.value ==> !IllTyped(vs[j])
  {
    if vs == [] then None
    else if IllTyped(vs[0]) then Some(0)
    else
      match FirstIllTyped(vs[1..])
      case None => None
      case Some(i) => Some(i + 1)
  }

  /** Every input holds a `String`. */
  predicate AllStrings(inputs: ConnectorInputs)
  {
    forall v | v in Values(inputs) :: v.Str?
  }
}
