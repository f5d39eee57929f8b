/** connectorRabbitMQConsume: a connector that drains a queue, then subscribes to it and
    keeps the delivery whose body carries the wanted `persistenceId` (the `message`
    input). Message bodies are the text the broker delivers, already decoded. */
module RabbitMQConsume {
  import opened JavaLang
  import opened Json
  import opened RabbitMQInputs

  // ---------------------------------------------------------------------------
  // checkPersistenceId
  // ---------------------------------------------------------------------------

  const PersistenceIdKey := "persistenceId"
  const CheckFailedMessage := "Error checking persistenceId"
  const NotALongMessage := "Error al convertir getMessage() a Long"

  /** `checkPersistenceId(body)` against the `message` input `target`. A JSON body is
      matched by the long value of its `persistenceId` field, and only a body with that
      field needs `target` to be a number; a body that is not JSON is searched for
      `target` as text; any other read failure is an error. */
  function CheckPersistenceId(body: string, target: string, jk: Jackson): (r: Result<bool, Exc>)
    ensures jk.readTree(body).SyntaxError? ==> r == Success(Contains(body, target))
    ensures jk.readTree(body).ReadFailure? ==>
      r == Failure(Thrown(ConnectorException, CheckFailedMessage, Some(Foreign(IOException))))
    ensures jk.readTree(body).Tree? && !Has(jk.readTree(body).root, PersistenceIdKey) ==> r == Success(false)
    ensures jk.readTree(body).Tree? && Has(jk.readTree(body).root, PersistenceIdKey) ==>
      var id := jk.asLong(Get(jk.readTree(body).root, PersistenceIdKey).value);
      if ParseLong(target).None? then r == Failure(Thrown(ConnectorException, NotALongMessage, Some(Foreign(NumberFormatException))))
      else r == Success(id == ParseLong(target).value)
  {
    match jk.readTree(body)
    case SyntaxError => Success(Contains(body, target))
    case ReadFailure => Failure(Thrown(ConnectorException, CheckFailedMessage, Some(ReadException(ReadFailure))))
    case Tree(root) =>
      if Has(root, PersistenceIdKey) then
        var id := jk.asLong(Get(root, PersistenceIdKey).value);
        match ParseLong(target)
        case None => Failure(Thrown(ConnectorException, NotALongMessage, Some(Foreign(NumberFormatException))))
        case Some(wanted) => Success(id == wanted)
      else Success(false)
  }

  /** The delivery callback's reading of the predicate: an error counts as no match. */
  predicate Matches(body: string, target: string, jk: Jackson)
  {
    CheckPersistenceId(body, target, jk) == Success(true)
  }

  /** A JSON body with a `persistenceId` field matches the decimal text of a long exactly
      when the field's long value is that long. */
  lemma MatchesDecimalId(body: string, id: Int64, jk: Jackson)
    requires jk.readTree(body).Tree? && Has(jk.readTree(body).root, PersistenceIdKey)
    ensures Matches(body, IntToString(id), jk) <==> jk.asLong(Get(jk.readTree(body).root, PersistenceIdKey).value) == id
  {
    ParseLongOfIntToString(id);
  }

  /** A body that is not JSON matches every target it contains. */
  lemma TextBodyContainingTargetMatches(before: string, target: string, after: string, jk: Jackson)
    requires jk.readTree(before + target + after).SyntaxError?
    ensures Matches(before + target + after, target, jk)
  {
    ContainsInfix(before, target, after);
  }

  /** A JSON body without `persistenceId` never matches, not even a target that is no
      number at all. */
  lemma JsonWithoutIdNeverMatches(body: string, target: string, jk: Jackson)
    requires jk.readTree(body).Tree? && !Has(jk.readTree(body).root, PersistenceIdKey)
    ensures CheckPersistenceId(body, target, jk) == Success(false)
  {
  }

  // ---------------------------------------------------------------------------
  // The channel
  // ---------------------------------------------------------------------------

  /** A `basicAck(deliveryTag, multiple)` the channel received. */
  datatype Ack = Ack(deliveryTag: nat, multiple: bool)

  /** A message handed to the connector, with the delivery tag the channel gave it. */
  datatype Delivery = Delivery(deliveryTag: nat, body: string)

  /** The acks of `count` deliveries tagged consecutively from `first`, one each, in
      order, none of them `multiple`. */
  function AcksFrom(first: nat, count: nat): (acks: seq<Ack>)
    ensures |acks| == count
    ensures forall i :: 0 <= i < count ==> acks[i] == Ack(first + i, false)
  {
    if count == 0 then [] else AcksFrom(first, count - 1) + [Ack(first + count - 1, false)]
  }

  /** A `queueDeclare(queue, durable, exclusive, autoDelete, null)` the channel carried out. */
  datatype QueueDeclaration = QueueDeclaration(queue: string, durable: bool, exclusive: bool, autoDelete: bool)

  /** A `basicConsume(queue, autoAck, deliverCallback, cancelCallback)` subscription. */
  datatype Subscription = Subscription(queue: string, autoAck: bool)

  /** The consumer's channel on the queue: the messages still waiting, the tag the next
      delivery gets, and logs of the declarations, subscriptions, acks and
      cancellations it received. */
  class ConsumeChannel {
    var pending: seq<string>
    var nextTag: nat
    var declarations: seq<QueueDeclaration>
    var subscriptions: seq<Subscription>
    var acks: seq<Ack>
    var cancelled: seq<string>

    constructor (messages: seq<string>)
      ensures pending == messages && nextTag == 1
      ensures declarations == [] && subscriptions == [] && acks == [] && cancelled == []
    {
      pending := messages;
      nextTag := 1;
      declarations := [];
      subscriptions := [];
      acks := [];
      cancelled := [];
    }

    /** `queueDeclarePassive(queue).getMessageCount()`. */
    function MessageCount(): nat
      reads this
    {
      |pending|
    }

    /** `basicGet(queue, false)`: the head message with a fresh tag, or `null`. */
    method BasicGet() returns (response: Option<Delivery>)
      modifies this
      ensures old(pending) == [] ==> response.None? && pending == []
      ensures old(pending) != [] ==>
        && response == Some(Delivery(old(nextTag), old(pending)[0]))
        && pending == old(pending)[1..]
      ensures nextTag == old(nextTag) + (if response.Some? then 1 else 0)
      ensures acks == old(acks) && cancelled == old(cancelled)
      ensures declarations == old(declarations) && subscriptions == old(subscriptions)
    {
      if pending == [] {
        response := None;
      } else {
        response := Some(Delivery(nextTag, pending[0]));
        pending := pending[1..];
        nextTag := nextTag + 1;
      }
    }

    /** `basicAck(deliveryTag, multiple)`; `fault` is an `IOException` from the broker,
        in which case nothing is acknowledged. */
    method BasicAck(deliveryTag: nat, multiple: bool, fault: bool) returns (r: Outcome<Exc>)
      modifies this
      ensures r == (if fault then Fail(Foreign(IOException)) else Pass)
      ensures acks == old(acks) + (if fault then [] else [Ack(deliveryTag, multiple)])
      ensures pending == old(pending) && nextTag == old(nextTag) && cancelled == old(cancelled)
      ensures declarations == old(declarations) && subscriptions == old(subscriptions)
    {
      if fault {
        r := Fail(Foreign(IOException));
      } else {
        acks := acks + [Ack(deliveryTag, multiple)];
        r := Pass;
      }
    }

    /** `basicCancel(consumerTag)`, with a possible `IOException` as `fault`. */
    method BasicCancel(consumerTag: string, fault: bool) returns (r: Outcome<Exc>)
      modifies this
      ensures r == (if fault then Fail(Foreign(IOException)) else Pass)
      ensures cancelled == old(cancelled) + (if fault then [] else [consumerTag])
      ensures pending == old(pending) && nextTag == old(nextTag) && acks == old(acks)
      ensures declarations == old(declarations) && subscriptions == old(subscriptions)
    {
      if fault {
        r := Fail(Foreign(IOException));
      } else {
        cancelled := cancelled + [consumerTag];
        r := Pass;
      }
    }

    /** `queueDeclare(queue, durable, exclusive, autoDelete, null)`; a declaration that
        throws is not carried out. */
    method QueueDeclare(queue: string, durable: bool, exclusive: bool, autoDelete: bool, fault: Option<ExceptionClass>)
      returns (r: Outcome<Exc>)
      modifies this
      ensures r == (if fault.Some? then Fail(Foreign(fault.value)) else Pass)
      ensures declarations == old(declarations) + (if fault.Some? then [] else [QueueDeclaration(queue, durable, exclusive, autoDelete)])
      ensures pending == old(pending) && nextTag == old(nextTag)
      ensures subscriptions == old(subscriptions) && acks == old(acks) && cancelled == old(cancelled)
    {
      if fault.Some? {
        r := Fail(Foreign(fault.value));
      } else {
        declarations := declarations + [QueueDeclaration(queue, durable, exclusive, autoDelete)];
        r := Pass;
      }
    }

    /** `basicConsume(queue, autoAck, ...)`: registers the subscription and returns at
        once; deliveries reach the callback later. */
    method BasicConsume(queue: string, autoAck: bool, fault: Option<ExceptionClass>) returns (r: Outcome<Exc>)
      modifies this
      ensures r == (if fault.Some? then Fail(Foreign(fault.value)) else Pass)
      ensures subscriptions == old(subscriptions) + (if fault.Some? then [] else [Subscription(queue, autoAck)])
      ensures pending == old(pending) && nextTag == old(nextTag)
      ensures declarations == old(declarations) && acks == old(acks) && cancelled == old(cancelled)
    {
      if fault.Some? {
        r := Fail(Foreign(fault.value));
      } else {
        subscriptions := subscriptions + [Subscription(queue, autoAck)];
        r := Pass;
      }
    }
  }

  // ---------------------------------------------------------------------------
  // consumeMenssages and hayMensajesEnCola
  // ---------------------------------------------------------------------------

  /** `consumeMenssages(channel)`: fetch until the queue answers `null`, acking each
      delivery on its own. Every waiting message is fetched once, in queue order, and
      its tag acked once with `multiple = false`; `index` counts the fetches. */
  method ConsumeMessages(ch: ConsumeChannel) returns (index: nat, received: seq<string>)
    modifies ch
    ensures received == old(ch.pending) && index == |received|
    ensures ch.pending == []
    ensures ch.nextTag == old(ch.nextTag) + index
    ensures ch.acks == old(ch.acks) + AcksFrom(old(ch.nextTag), index)
    ensures ch.cancelled == old(ch.cancelled)
    ensures ch.declarations == old(ch.declarations) && ch.subscriptions == old(ch.subscriptions)
  {
    index := 0;
    received := [];
    while true
      invariant index <= |old(ch.pending)|
      invariant received == old(ch.pending)[..index] && index == |received|
      invariant ch.pending == old(ch.pending)[index..]
      invariant ch.nextTag == old(ch.nextTag) + index
      invariant ch.acks == old(ch.acks) + AcksFrom(old(ch.nextTag), index)
      invariant ch.cancelled == old(ch.cancelled)
      invariant ch.declarations == old(ch.declarations) && ch.subscriptions == old(ch.subscriptions)
      decreases |ch.pending|
    {
      var response := ch.BasicGet();
      if response.None? {
        break;
      }
      var message := response.value.body;
      received := received + [message];
      index := index + 1;
      var _ := ch.BasicAck(response.value.deliveryTag, false, false);
    }
  }

  /** `hayMensajesEnCola(channel)`: the passive declare reports waiting messages. */
  function HasMessagesInQueue(ch: ConsumeChannel): (r: bool)
    reads ch
    ensures r <==> ch.pending != []
  {
    ch.MessageCount() > 0
  }

  /** Lines 63-69 of `executeBusinessLogic`: drain only when the count is positive.
      The guard changes nothing: an empty queue is left as it is, and the outcome is
      the same as if the drain had run. */
  method DrainIfNotEmpty(ch: ConsumeChannel) returns (drained: bool)
    modifies ch
    ensures drained <==> old(ch.pending) != []
    ensures ch.pending == []
    ensures ch.nextTag == old(ch.nextTag) + |old(ch.pending)|
    ensures ch.acks == old(ch.acks) + AcksFrom(old(ch.nextTag), |old(ch.pending)|)
    ensures ch.cancelled == old(ch.cancelled)
    ensures ch.declarations == old(ch.declarations) && ch.subscriptions == old(ch.subscriptions)
  {
    drained := HasMessagesInQueue(ch);
    if drained {
      var _, _ := ConsumeMessages(ch);
    }
  }

  // ---------------------------------------------------------------------------
  // The delivery callback of consumeAndFindMessage
  // ---------------------------------------------------------------------------

  /** The connector's output parameters. */
  class ConsumeConnector {
    /** `receivedMessage`; `None` until it is first set. */
    var receivedMessage: Option<string>

    constructor ()
      ensures receivedMessage.None?
    {
      receivedMessage := None;
    }

    /** The `deliverCallback` body for one delivery on the subscription `consumerTag`.
        Every delivery is acked, matching or not; only a match whose ack went through
        cancels the subscription; every delivery overwrites `receivedMessage`, so the
        last one wins. A failing predicate counts as no match, and a failing ack or
        cancel is swallowed. */
    method OnDelivery(ch: ConsumeChannel, consumerTag: string, delivery: Delivery, target: string, jk: Jackson,
                      ackFault: bool, cancelFault: bool)
      modifies this, ch
      ensures receivedMessage == Some(delivery.body)
      ensures ch.acks == old(ch.acks) + (if ackFault then [] else [Ack(delivery.deliveryTag, false)])
      ensures ch.cancelled == old(ch.cancelled) +
        (if Matches(delivery.body, target, jk) && !ackFault && !cancelFault then [consumerTag] else [])
      ensures ch.pending == old(ch.pending) && ch.nextTag == old(ch.nextTag)
      ensures ch.declarations == old(ch.declarations) && ch.subscriptions == old(ch.subscriptions)
    {
      var existPersistenceId := false;
      var check := CheckPersistenceId(delivery.body, target, jk);
      if check.Success? {
        existPersistenceId := check.value;
      }
      if existPersistenceId {
        var acked := ch.BasicAck(delivery.deliveryTag, false, ackFault);
        if acked.Pass? {
          var _ := ch.BasicCancel(consumerTag, cancelFault);
        }
      } else {
        var _ := ch.BasicAck(delivery.deliveryTag, false, ackFault);
      }
      receivedMessage := Some(delivery.body);
    }

    /** `executeBusinessLogic()` on inputs that passed validation: open the channel,
        drain the queue if it has messages, declare it durable, non-exclusive and not
        auto-deleted, and subscribe with manual acks. The deliveries themselves arrive
        later, through `OnDelivery`. A failure stops the remaining steps and is wrapped
        as `ConsumeOutcome` says. */
    method ExecuteBusinessLogic(ch: ConsumeChannel, queueName: string, faults: ConsumeFaults)
      returns (r: Outcome<Exc>, drained: seq<string>)
      modifies ch
      ensures r == ConsumeOutcome(faults)
      ensures faults.connect.None? && faults.inspect.None? ==>
        && drained == old(ch.pending)
        && ch.pending == []
        && ch.nextTag == old(ch.nextTag) + |old(ch.pending)|
        && ch.acks == old(ch.acks) + AcksFrom(old(ch.nextTag), |old(ch.pending)|)
      ensures faults.connect.Some? || faults.inspect.Some? ==>
        && drained == []
        && ch.pending == old(ch.pending) && ch.nextTag == old(ch.nextTag) && ch.acks == old(ch.acks)
      ensures ch.declarations == old(ch.declarations) +
        (if faults.connect.None? && faults.inspect.None? && faults.declare.None?
         then [QueueDeclaration(queueName, true, false, false)] else [])
      ensures ch.subscriptions == old(ch.subscriptions) + (if r == Pass then [Subscription(queueName, false)] else [])
      ensures ch.cancelled == old(ch.cancelled)
    {
      drained := [];
      if faults.connect.Some? {
        return ConsumptionFailure(faults.connect.value), drained;
      }
      if faults.inspect.Some? {
        return ConsumptionFailure(faults.inspect.value), drained;
      }
      if HasMessagesInQueue(ch) {
        var index;
        index, drained := ConsumeMessages(ch);
      }
      var declared := ch.QueueDeclare(queueName, true, false, false, faults.declare);
      if declared.Fail? {
        return ConsumptionFailure(declared.error.cls), drained;
      }
      var subscribed := ch.BasicConsume(queueName, false, faults.subscribe);
      if subscribed.Fail? {
        return SubscriptionFailure(subscribed.error.cls), drained;
      }
      r := Pass;
    }
  }

  /** Where the broker throws during `executeBusinessLogic`, and what: on opening the
      connection and channel, on `queueDeclarePassive`, on `queueDeclare`, on
      `basicConsume`. `None` is no failure. */
  datatype ConsumeFaults = ConsumeFaults(
    connect: Option<ExceptionClass>, inspect: Option<ExceptionClass>,
    declare: Option<ExceptionClass>, subscribe: Option<ExceptionClass>)

  const ConsumptionErrorMessage := "Error during message consumption."
  const UnexpectedConsumptionMessage := "Unexpected error during message consumption."
  const SubscribeErrorMessage := "Error consuming message"

  /** The two outer handlers: the I/O, timeout and shutdown exceptions are a consumption
      error, anything else is unexpected; both keep the exception as the cause. */
  function ConsumptionFailure(cls: ExceptionClass): (r: Outcome<Exc>)
    ensures r.Fail? && r.error.Thrown? && r.error.cls == ConnectorException && r.error.cause == Some(Foreign(cls))
    ensures r.error.message == ConsumptionErrorMessage <==> cls in {IOException, TimeoutException, ShutdownSignalException}
    ensures r.error.message == UnexpectedConsumptionMessage <==> cls !in {IOException, TimeoutException, ShutdownSignalException}
  {
    if cls in {IOException, TimeoutException, ShutdownSignalException} then
      Fail(Thrown(ConnectorException, ConsumptionErrorMessage, Some(Foreign(cls))))
    else Fail(Thrown(ConnectorException, UnexpectedConsumptionMessage, Some(Foreign(cls))))
  }

  /** A failing `basicConsume`. An `IOException` is first re-thrown by
      `consumeAndFindMessage` as a `ConnectorException`, which then reaches the outer
      catch-all; other exceptions go straight to the outer handlers. */
  function SubscriptionFailure(cls: ExceptionClass): (r: Outcome<Exc>)
    ensures cls == IOException ==> r == Fail(Thrown(ConnectorException, UnexpectedConsumptionMessage,
      Some(Thrown(ConnectorException, SubscribeErrorMessage, Some(Foreign(IOException))))))
    ensures cls != IOException ==> r == ConsumptionFailure(cls)
  {
    if cls == IOException then
      Fail(Thrown(ConnectorException, UnexpectedConsumptionMessage,
        Some(Thrown(ConnectorException, SubscribeErrorMessage, Some(Foreign(IOException))))))
    else ConsumptionFailure(cls)
  }

  /** The exception `executeBusinessLogic` ends in, if any: the first step that fails
      decides it. */
  function ConsumeOutcome(faults: ConsumeFaults): (r: Outcome<Exc>)
    ensures r == Pass <==> faults.connect.None? && faults.inspect.None? && faults.declare.None? && faults.subscribe.None?
    ensures r.Fail? ==> r.error.Thrown? && r.error.cls == ConnectorException
  {
    if faults.connect.Some? then ConsumptionFailure(faults.connect.value)
    else if faults.inspect.Some? then ConsumptionFailure(faults.inspect.value)
    else if faults.declare.Some? then ConsumptionFailure(faults.declare.value)
    else if faults.subscribe.Some? then SubscriptionFailure(faults.subscribe.value)
    else Pass
  }

  /** A broker I/O failure while subscribing is reported as unexpected, not as the
      consumption error every other broker I/O failure gives. */
  lemma SubscribeIOFailureIsUnexpected(faults: ConsumeFaults)
    requires faults.connect.None? && faults.inspect.None? && faults.declare.None?
    ensures faults.subscribe == Some(IOException) ==> ConsumeOutcome(faults).error.message == UnexpectedConsumptionMessage
    ensures faults.declare == None && ConsumeOutcome(faults.(declare := Some(IOException))).error.message == ConsumptionErrorMessage
  {
  }

  // ---------------------------------------------------------------------------
  // validateInputParameters
  // ---------------------------------------------------------------------------

  const InvalidTypePrefix := "Invalid type encountered during validation: "

  /** The names of the null values, in order. */
  function MissingNames(vs: seq<Value>, names: seq<string>): (ns: seq<string>)
    requires |vs| == |names|
    ensures |ns| <= |vs|
    ensures forall n | n in ns :: n in names
    ensures (ns == []) <==> forall i :: 0 <= i < |vs| ==> !vs[i].Null?
  {
    if vs == [] then []
    else MissingNames(vs[..|vs| - 1], names[..|names| - 1]) + (if vs[|vs| - 1].Null? then [names[|names| - 1]] else [])
  }

  /** The indices of the null values, in increasing order. */
  function NullPositions(vs: seq<Value>): (ps: seq<nat>)
    ensures forall k :: 0 <= k < |ps| ==> ps[k] < |vs|
  {
    if vs == [] then []
    else NullPositions(vs[..|vs| - 1]) + (if vs[|vs| - 1].Null? then [|vs| - 1] else [])
  }

  /** `NullPositions` lists every null index, only null indices, each once and in
      increasing order. */
  lemma {:induction false} NullPositionsExact(vs: seq<Value>)
    ensures var ps := NullPositions(vs);
      && (forall k :: 0 <= k < |ps| ==> vs[ps[k]].Null?)
      && (forall j, k :: 0 <= j < k < |ps| ==> ps[j] < ps[k])
      && (forall i :: 0 <= i < |vs| && vs[i].Null? ==> i in ps)
  {
    if vs != [] {
      var init := vs[..|vs| - 1];
      NullPositionsExact(init);
      var pi := NullPositions(init);
      var ps := pi + (if vs[|vs| - 1].Null? then [|vs| - 1] else []);
      assert NullPositions(vs) == ps;
      assert forall k :: 0 <= k < |pi| ==> pi[k] < |init| && vs[pi[k]] == init[pi[k]];
      assert forall k :: 0 <= k < |pi| ==> ps[k] == pi[k];
    }
  }

  /** The names `MissingNames` lists are exactly the names at the null positions, in
      order: one line per null parameter, in parameter order. */
  lemma {:induction false} MissingNamesAtNullPositions(vs: seq<Value>, names: seq<string>)
    requires |vs| == |names|
    ensures var ns, ps := MissingNames(vs, names), NullPositions(vs);
      |ns| == |ps| && forall k :: 0 <= k < |ps| ==> ns[k] == names[ps[k]]
  {
    if vs != [] {
      var vi, ni := vs[..|vs| - 1], names[..|names| - 1];
      MissingNamesAtNullPositions(vi, ni);
      var ps := NullPositions(vi);
      assert forall k :: 0 <= k < |ps| ==> ni[ps[k]] == names[ps[k]];
    }
  }

  /** Every null parameter is named, and every name listed belongs to a null parameter. */
  lemma MissingNamesComplete(vs: seq<Value>, names: seq<string>)
    requires |vs| == |names|
    ensures forall i :: 0 <= i < |vs| && vs[i].Null? ==> names[i] in MissingNames(vs, names)
    ensures forall n | n in MissingNames(vs, names) :: exists i :: 0 <= i < |vs| && vs[i].Null? && names[i] == n
  {
    var ns, ps := MissingNames(vs, names), NullPositions(vs);
    NullPositionsExact(vs);
    MissingNamesAtNullPositions(vs, names);
    forall i | 0 <= i < |vs| && vs[i].Null?
      ensures names[i] in ns
    {
      var k :| 0 <= k < |ps| && ps[k] == i;
      assert ns[k] == names[i];
    }
    forall n | n in ns
      ensures exists i :: 0 <= i < |vs| && vs[i].Null? && names[i] == n
    {
      var k :| 0 <= k < |ns| && ns[k] == n;
      assert vs[ps[k]].Null? && names[ps[k]] == n;
    }
  }

  /** What the `StringBuilder` holds after appending "<name> is missing\n" per name. */
  function Appended(ns: seq<string>): string
  {
    if ns == [] then "" else Appended(ns[..|ns| - 1]) + ns[|ns| - 1] + " is missing\n"
  }

  /** The lines "<name> is missing", one per name, separated by line breaks. */
  function MissingReport(ns: seq<string>): string
    requires ns != []
  {
    if |ns| == 1 then Line(ns[0])
    else MissingReport(ns[..|ns| - 1]) + "\n" + Line(ns[|ns| - 1])
  }

  /** The line for one missing parameter. */
  function Line(name: string): string
  {
    name + " is missing"
  }

  /** The report starts with the first name and ends with the last line's final 'g'. */
  lemma {:induction false} MissingReportEnds(ns: seq<string>)
    requires ns != []
    ensures var report := MissingReport(ns);
      |report| > |ns[0]| && report[..|ns[0]|] == ns[0] && report[|report| - 1] == 'g'
  {
    if |ns| > 1 {
      var init := ns[..|ns| - 1];
      MissingReportEnds(init);
      assert init[0] == ns[0];
    }
  }

  lemma {:induction false} AppendedEndsWithLineBreak(ns: seq<string>)
    requires ns != []
    ensures Appended(ns) == MissingReport(ns) + "\n"
  {
    if |ns| > 1 {
      AppendedEndsWithLineBreak(ns[..|ns| - 1]);
    } else {
      assert ns[..0] == [];
    }
  }

  /** `errors.toString().trim()` drops exactly the final line break, when no name starts
      with a character `trim` removes. */
  lemma TrimmedReport(ns: seq<string>)
    requires ns != [] && ns[0] != [] && !IsTrimmed(ns[0][0])
    ensures Trim(Appended(ns)) == MissingReport(ns)
  {
    var report := MissingReport(ns);
    MissingReportEnds(ns);
    AppendedEndsWithLineBreak(ns);
    var s := report + "\n";
    assert s[0] == ns[0][0];
    assert TrimStart(s) == s;
    assert s[..|s| - 1] == report;
    assert TrimEnd(s) == TrimEnd(report);
  }

  /** One more value: its name is appended when it is null, and so is its line. */
  lemma MissingNamesStep(vs: seq<Value>, names: seq<string>, i: nat)
    requires |vs| == |names| && i < |vs|
    ensures var before := MissingNames(vs[..i], names[..i]);
      && MissingNames(vs[..i + 1], names[..i + 1]) == before + (if vs[i].Null? then [names[i]] else [])
      && Appended(before + [names[i]]) == Appended(before) + names[i] + " is missing\n"
  {
    assert vs[..i + 1][..i] == vs[..i];
    assert names[..i + 1][..i] == names[..i];
    var before := MissingNames(vs[..i], names[..i]);
    assert (before + [names[i]])[..|before|] == before;
  }

  /** With the connector's own names, the accumulated lines trim to the report. */
  lemma MissingReportOfParams(vs: seq<Value>)
    requires |vs| == |ParamNames|
    requires MissingNames(vs, ParamNames) != []
    ensures Trim(Appended(MissingNames(vs, ParamNames))) == MissingReport(MissingNames(vs, ParamNames))
  {
    var missing := MissingNames(vs, ParamNames);
    assert missing[0] in ParamNames;
    TrimmedReport(missing);
  }

  lemma AllStringsWhenNothingMissing(inputs: ConnectorInputs)
    requires FirstIllTyped(Values(inputs)).None?
    ensures MissingNames(Values(inputs), ParamNames) == [] <==> AllStrings(inputs)
  {
    var vs := Values(inputs);
    if MissingNames(vs, ParamNames) == [] {
      forall v | v in vs
        ensures v.Str?
      {
        var i :| 0 <= i < |vs| && vs[i] == v;
        assert !IllTyped(vs[i]);
      }
    } else {
      var i :| 0 <= i < |vs| && vs[i].Null?;
      assert vs[i] in vs;
    }
  }

  /** `validateInputParameters()`. The getters run first, in order, while the array at
      line 230 is built, so the first value that is not a `String` aborts with the cast
      error, whose JVM text `castMessage` gives. Otherwise every null value adds a
      "<name> is missing" line, and any line makes the whole report the error. The
      `instanceof` branch is never reached: by then every value is null or a `String`. */
  method ValidateInputParameters(inputs: ConnectorInputs, castMessage: Value -> string) returns (r: Outcome<Exc>)
    ensures FirstIllTyped(Values(inputs)).Some? ==>
      r == Fail(Thrown(ConnectorValidationException,
                       InvalidTypePrefix + castMessage(Values(inputs)[FirstIllTyped(Values(inputs)).value]), None))
    ensures FirstIllTyped(Values(inputs)).None? && MissingNames(Values(inputs), ParamNames) != [] ==>
      r == Fail(Thrown(ConnectorValidationException, MissingReport(MissingNames(Values(inputs), ParamNames)), None))
    ensures r == Pass <==> AllStrings(inputs)
  {
    var inputParams := Values(inputs);
    var first := FirstIllTyped(inputParams);
    if first.Some? {
      return Fail(Thrown(ConnectorValidationException, InvalidTypePrefix + castMessage(inputParams[first.value]), None));
    }
    var errors := "";
    for i := 0 to |inputParams|
      invariant errors == Appended(MissingNames(inputParams[..i], ParamNames[..i]))
    {
      MissingNamesStep(inputParams, ParamNames, i);
      ghost var before := MissingNames(inputParams[..i], ParamNames[..i]);
      assert !IllTyped(inputParams[i]);
      if inputParams[i].Null? {
        errors := errors + ParamNames[i] + " is missing\n";
        assert errors == Appended(before + [ParamNames[i]]);
      } else if !inputParams[i].Str? {
        assert false;
      } else {
        assert before + [] == before;
      }
    }
    assert inputParams[..|inputParams|] == inputParams;
    assert ParamNames[..|ParamNames|] == ParamNames;
    AllStringsWhenNothingMissing(inputs);
    if |errors| > 0 {
      MissingReportOfParams(inputParams);
      return Fail(Thrown(ConnectorValidationException, Trim(errors), None));
    }
    r := Pass;
  }

  /** The last missing parameter is named in the report. */
  lemma LastMissingReported(ns: seq<string>)
    requires ns != []
    ensures Contains(MissingReport(ns), Line(ns[|ns| - 1]))
  {
    var line := Line(ns[|ns| - 1]);
    if |ns| == 1 {
      OccursAtEnd([], line);
      assert [] + line == line;
    } else {
      OccursAtEnd(MissingReport(ns[..|ns| - 1]) + "\n", line);
    }
  }

  /** Each missing parameter is named in the report. */
  lemma {:induction false} ReportNamesEachMissing(ns: seq<string>, k: nat)
    requires k < |ns|
    ensures Contains(MissingReport(ns), Line(ns[k]))
  {
    if k == |ns| - 1 {
      LastMissingReported(ns);
    } else {
      var init := ns[..|ns| - 1];
      assert init[k] == ns[k];
      ReportNamesEachMissing(init, k);
      ContainsExtends(MissingReport(init), Line(ns[k]), "\n" + Line(ns[|ns| - 1]));
      assert MissingReport(ns) == MissingReport(init) + ("\n" + Line(ns[|ns| - 1]));
    }
  }
}
