/** connectorRabbitMQ: a connector that declares a durable queue and publishes the
    `message` input to it through the default exchange, then reports what it sent. */
module RabbitMQPublish {
  import opened JavaLang
  import opened RabbitMQInputs
  import opened Utf8

  // ---------------------------------------------------------------------------
  // validateInputParameters and validateInputs
  // ---------------------------------------------------------------------------

  const MissingParametersMessage := "Required input parameters are missing."
  const CastErrorMessage := "Error casting input parameters"
  const UnexpectedErrorMessage := "Unexpected error"

  /** `validateInputParameters()`: each getter is called in turn and the first whose cast
      fails is reported as "<name> type is invalid". Null values pass. */
  function ValidateInputParameters(inputs: ConnectorInputs): (r: Outcome<Exc>)
    ensures r == Pass <==> forall v | v in Values(inputs) :: !IllTyped(v)
    ensures r.Fail? ==> exists i | 0 <= i < |ParamNames| ::
      && IllTyped(Values(inputs)[i])
      && (forall j | 0 <= j < i :: !IllTyped(Values(inputs)[j]))
      && r.error == Thrown(ConnectorValidationException, ParamNames[i] + " type is invalid", None)
  {
    match FirstIllTyped(Values(inputs))
    case None => Pass
    case Some(i) => Fail(Thrown(ConnectorValidationException, ParamNames[i] + " type is invalid", None))
  }

  /** `validateInputs()` on the values in getter order. The `||` chain stops at the first
      null, which is reported as missing; a getter before it whose cast fails throws
      `ClassCastException` instead; values after the stop are not read. */
  function ValidateInputs(vs: seq<Value>): (r: Outcome<Exc>)
    ensures r == Pass <==> forall i | 0 <= i < |vs| :: vs[i].Str?
    ensures r.Fail? ==> r.error == Foreign(ClassCastException) || r.error == Thrown(ConnectorException, MissingParametersMessage, None)
    ensures r == Fail(Foreign(ClassCastException)) <==>
      exists i | 0 <= i < |vs| :: IllTyped(vs[i]) && forall j | 0 <= j < i :: vs[j].Str?
  {
    if vs == [] then Pass
    else if vs[0].Null? then Fail(Thrown(ConnectorException, MissingParametersMessage, None))
    else if !vs[0].Str? then Fail(Foreign(ClassCastException))
    else
      var r := ValidateInputs(vs[1..]);
      assert forall i | 1 <= i < |vs| :: vs[i] == vs[1..][i - 1];
      if r == Fail(Foreign(ClassCastException)) then
        assert exists i | 0 <= i < |vs| - 1 :: IllTyped(vs[1..][i]) && forall j | 0 <= j < i :: vs[1..][j].Str?;
        var i :| 0 <= i < |vs| - 1 && IllTyped(vs[1..][i]) && forall j | 0 <= j < i :: vs[1..][j].Str?;
        assert IllTyped(vs[i + 1]) && forall j | 0 <= j < i + 1 :: vs[j].Str?;
        r
      else
        r
  }

  /** Inputs that passed `validateInputParameters` never make `validateInputs` fail a
      cast: only a null parameter can still stop the publication. */
  lemma ValidatedInputsOnlyMissing(inputs: ConnectorInputs)
    requires ValidateInputParameters(inputs) == Pass
    ensures ValidateInputs(Values(inputs)) != Fail(Foreign(ClassCastException))
    ensures ValidateInputs(Values(inputs)).Fail? <==> exists v | v in Values(inputs) :: v.Null?
  {
    var vs := Values(inputs);
    forall i | 0 <= i < |vs|
      ensures !IllTyped(vs[i])
    {
      assert vs[i] in vs;
    }
    if ValidateInputs(vs).Fail? {
      var i :| 0 <= i < |vs| && !vs[i].Str?;
      assert vs[i] in vs;
      assert !IllTyped(vs[i]);
    }
  }

  // ---------------------------------------------------------------------------
  // The channel and the publication
  // ---------------------------------------------------------------------------

  /** What the connector asks of the broker. */
  datatype ChannelAction =
    | DeclareQueue(queue: string, durable: bool, exclusive: bool, autoDelete: bool)
    | Publish(exchange: string, routingKey: string, body: seq<Byte>)

  /** Where the broker throws, and what: on opening the connection and channel, on
      `queueDeclare`, on `basicPublish`. `None` is no failure. */
  datatype Faults = Faults(connect: Option<ExceptionClass>, declare: Option<ExceptionClass>, publish: Option<ExceptionClass>)

  /** The publisher's channel, as the log of actions the broker carried out. */
  class PublishChannel {
    var actions: seq<ChannelAction>

    constructor ()
      ensures actions == []
    {
      actions := [];
    }

    /** `queueDeclare(queue, durable, exclusive, autoDelete, null)`; an action that throws
        is not carried out. */
    method QueueDeclare(queue: string, durable: bool, exclusive: bool, autoDelete: bool, fault: Option<ExceptionClass>)
      returns (r: Outcome<Exc>)
      modifies this
      ensures r == (if fault.Some? then Fail(Foreign(fault.value)) else Pass)
      ensures actions == old(actions) + (if fault.Some? then [] else [DeclareQueue(queue, durable, exclusive, autoDelete)])
    {
      if fault.Some? {
        r := Fail(Foreign(fault.value));
      } else {
        actions := actions + [DeclareQueue(queue, durable, exclusive, autoDelete)];
        r := Pass;
      }
    }

    /** `basicPublish(exchange, routingKey, null, body)`. */
    method BasicPublish(exchange: string, routingKey: string, body: seq<Byte>, fault: Option<ExceptionClass>)
      returns (r: Outcome<Exc>)
      modifies this
      ensures r == (if fault.Some? then Fail(Foreign(fault.value)) else Pass)
      ensures actions == old(actions) + (if fault.Some? then [] else [Publish(exchange, routingKey, body)])
    {
      if fault.Some? {
        r := Fail(Foreign(fault.value));
      } else {
        actions := actions + [Publish(exchange, routingKey, body)];
        r := Pass;
      }
    }
  }

  /** `setReceivedMessageOutput()`'s text. */
  function ReceivedMessageText(message: string, queueName: string, host: string): (text: string)
    ensures |text| == |message| + |queueName| + |host| + 34
    ensures text[9..9 + |message|] == message
    ensures text[|text| - |host|..] == host
  {
    "Message '" + message + "' sent to queue " + queueName + " on host " + host
  }

  /** The message and class of the exception the inner handlers throw for a broker
      failure of class `cls` (lines 59-65, 107-120). */
  function InnerFailure(cls: ExceptionClass): (e: Exc)
    ensures e.Thrown? && e.cls == ConnectorException && e.cause == Some(Foreign(cls))
    ensures cls == IOException || cls == TimeoutException <==> e.message == "Error connecting to RabbitMQ"
    ensures cls == ShutdownSignalException <==> e.message == "Error publishing message due to channel shutdown"
  {
    var message :=
      if cls == IOException || cls == TimeoutException then "Error connecting to RabbitMQ"
      else if cls == ShutdownSignalException then "Error publishing message due to channel shutdown"
      else "Error publishing message";
    Thrown(ConnectorException, message, Some(Foreign(cls)))
  }

  /** The outer `catch (Exception e)`: every exception that reaches it, the inner
      handlers' included, becomes "Unexpected error". */
  function Unexpected(cause: Exc): (e: Exc)
    ensures e.Thrown? && e.cls == ConnectorException && e.message == UnexpectedErrorMessage && e.cause == Some(cause)
  {
    Thrown(ConnectorException, UnexpectedErrorMessage, Some(cause))
  }

  /** The exception `executeBusinessLogic` ends in, if any. A failed cast is reported as
      such; every other failure, the missing-parameter exception or the inner handler's
      exception for the first broker step that failed, becomes the cause of "Unexpected
      error". */
  function PublishOutcome(inputs: ConnectorInputs, faults: Faults): (r: Outcome<Exc>)
    ensures r == Pass <==> AllStrings(inputs) && faults.connect.None? && faults.declare.None? && faults.publish.None?
    ensures r.Fail? ==> r.error.Thrown? && r.error.cls == ConnectorException
    ensures ValidateInputs(Values(inputs)) == Fail(Foreign(ClassCastException)) ==>
      r == Fail(Thrown(ConnectorException, CastErrorMessage, Some(Foreign(ClassCastException))))
    ensures ValidateInputs(Values(inputs)) == Fail(Thrown(ConnectorException, MissingParametersMessage, None)) ==>
      r == Fail(Unexpected(Thrown(ConnectorException, MissingParametersMessage, None)))
    ensures AllStrings(inputs) ==>
      if faults.connect.Some? then r == Fail(Unexpected(InnerFailure(faults.connect.value)))
      else if faults.declare.Some? then r == Fail(Unexpected(InnerFailure(faults.declare.value)))
      else if faults.publish.Some? then r == Fail(Unexpected(InnerFailure(faults.publish.value)))
      else r == Pass
    ensures r.Fail? ==> (r.error.message == CastErrorMessage <==> ValidateInputs(Values(inputs)) == Fail(Foreign(ClassCastException)))
  {
    match ValidateInputs(Values(inputs))
    case Fail(Foreign(ClassCastException)) => Fail(Thrown(ConnectorException, CastErrorMessage, Some(Foreign(ClassCastException))))
    case Fail(e) => Fail(Unexpected(e))
    case Pass =>
      assert forall v | v in Values(inputs) :: v.Str?;
      if faults.connect.Some? then Fail(Unexpected(InnerFailure(faults.connect.value)))
      else if faults.declare.Some? then Fail(Unexpected(InnerFailure(faults.declare.value)))
      else if faults.publish.Some? then Fail(Unexpected(InnerFailure(faults.publish.value)))
      else Pass
  }

  /** The connector's output parameters. */
  class PublishConnector {
    /** `receivedMessage`; `None` until it is set. */
    var receivedMessage: Option<string>

    constructor ()
      ensures receivedMessage.None?
    {
      receivedMessage := None;
    }

    /** `executeBusinessLogic()`: validate, declare the queue durable, non-exclusive and
        not auto-deleted, publish the message's UTF-8 bytes to the default exchange with
        the queue name as routing key, and only then set `receivedMessage`. A failed cast
        is reported as such; every other failure is re-wrapped as "Unexpected error". */
    method ExecuteBusinessLogic(inputs: ConnectorInputs, ch: PublishChannel, faults: Faults) returns (r: Outcome<Exc>)
      modifies this, ch
      ensures r == PublishOutcome(inputs, faults)
      ensures r == Pass ==>
        && ch.actions == old(ch.actions) + [
             DeclareQueue(inputs.queueName.s, true, false, false),
             Publish("", inputs.queueName.s, Encode(inputs.message.s))]
        && receivedMessage == Some(ReceivedMessageText(inputs.message.s, inputs.queueName.s, inputs.host.s))
      ensures r.Fail? ==> receivedMessage == old(receivedMessage)
      ensures r.Fail? && (!AllStrings(inputs) || faults.connect.Some? || faults.declare.Some?) ==> ch.actions == old(ch.actions)
      ensures r.Fail? && AllStrings(inputs) && faults.connect.None? && faults.declare.None? ==>
        ch.actions == old(ch.actions) + [DeclareQueue(inputs.queueName.s, true, false, false)]
    {
      var check := ValidateInputs(Values(inputs));
      if check.Fail? {
        if check.error == Foreign(ClassCastException) {
          return Fail(Thrown(ConnectorException, CastErrorMessage, Some(check.error)));
        }
        return Fail(Unexpected(check.error));
      }
      assert forall v | v in Values(inputs) :: v.Str?;
      var host, queueName, message := inputs.host.s, inputs.queueName.s, inputs.message.s;
      if faults.connect.Some? {
        return Fail(Unexpected(InnerFailure(faults.connect.value)));
      }
      var declared := ch.QueueDeclare(queueName, true, false, false, faults.declare);
      if declared.Fail? {
        return Fail(Unexpected(InnerFailure(declared.error.cls)));
      }
      var published := ch.BasicPublish("", queueName, Encode(message), faults.publish);
      if published.Fail? {
        return Fail(Unexpected(InnerFailure(published.error.cls)));
      }
      receivedMessage := Some(ReceivedMessageText(message, queueName, host));
      r := Pass;
    }
  }

  /** The published body reads back, as UTF-8, as the `message` input. */
  lemma PublishedBodyDecodesToMessage(message: string)
    ensures Decode(Encode(message)) == Some(message)
  {
    DecodeEncode(message);
  }
}
