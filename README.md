# Bonita process-builder filters and RabbitMQ connectors, modelled in Dafny

This project models four plugins of a Bonita process-automation extension.

- **ActionBasedTaskAssignationFilter** is an actor filter. Its `users` input is a JSON
  text `{"initiator": bool, "users": [ids], "memberShips": [{groupId, roleId,
  memberShipsRef}]}`.
  - `validateInputParameters` checks the shape of that text.
  - `filter` parses it, then collects candidate user ids from three sources: the
    initiator of the root process instance, the listed ids, and one consolidated user
    search over all memberships. It returns the duplicate-free union.
- **MultipleUserIdsActorFilter** is an actor filter that validates a `usersList` input
  (a non-empty `List<Long>`) and returns that list unchanged.
- **connectorRabbitMQ** is a connector that declares a durable queue, publishes the
  `message` input to it as UTF-8 and reports what it sent.
- **connectorRabbitMQConsume** is a connector that:
  - drains a queue, acknowledging every waiting message;
  - declares the queue and subscribes to it;
  - in its delivery callback, acknowledges every delivery, and cancels the subscription
    once a delivery carries the wanted `persistenceId`.

## How the model is built

- **Modules.** Each plugin is one module:
  - `ActionBasedTaskAssignation`, with its parser in `InvolvedUsers` and its search
    builder in `MembershipQuery`;
  - `MultipleUserIdsActorFilter`;
  - `RabbitMQPublish`;
  - `RabbitMQConsume`.

  Shared modules:
  - `JavaLang` holds the host's untyped values, Java exceptions, the `long` and `int`
    ranges, `Long.valueOf` and `Long.toString`, `String.contains` and `String.trim`;
  - `Json` holds Jackson's tree model;
  - `Utf8` holds UTF-8;
  - `RabbitMQInputs` holds the five connector inputs.
- **Host values and exceptions.** The host hands a plugin untyped objects. These are the
  datatype `Value`: `null`, a `String`, an `Integer`, a `Long`, a `List` or another class.
  An exception is `Thrown(class, message, cause)` when the plugin builds it, and
  `Foreign(class)` when a library throws it.
- **Jackson.** Jackson is a record of functions: `readTree` gives a tree, a parse error
  or another `IOException`, and `asLong` and `asText` are its coercions. The Bonita engine
  is a record too: the root process initiator, and a search function.
- **Java integers.** `long` and `int` are subset types of `int` with the Java ranges.
- **State that changes in place is imperative.** The builder loop, the parser's copy
  loop, the `HashSet` to list copy, the queue drain and the validation loop are methods
  with loop invariants. The channels and the connectors' output parameter are classes.
  Each method is proved against a specification function or states its new state
  outright.
- **Faults are parameters.** A broker failure is an explicit parameter where the model
  covers it:
  - opening the connection and channel, declaring the queue and publishing (`Faults`);
  - opening, the passive declare, declaring and subscribing (`ConsumeFaults`);
  - the callback's ack and cancel (`ackFault`, `cancelFault`).

  Failures during the drain and on closing are not modelled (see "## Left out").

## Model

| member | source | states |
|---|---|---|
| JavaLang.ParseLongOfIntToString | src/main/java/com/bonitasoft/presales/connector/connectorRabbitMQConsume.java:186-190 | `Long.valueOf` reads the decimal text of every `long` back as that `long` |
| InvolvedUsers.OptionalField | src/main/java/com/bonitasoft/processbuilder/filter/ActionBasedTaskAssignationFilter.java:248-250 | a membership field is non-null exactly when the element has the key (even with JSON `null` under it), and then holds the coerced node |
| InvolvedUsers.MembershipOf | src/main/java/com/bonitasoft/processbuilder/filter/ActionBasedTaskAssignationFilter.java:247-251 | each of `groupId`, `roleId`, `memberShipsRef` is set exactly when the element has that key, and then holds `asLong` (for the ids) or `asText` of the node under it |
| InvolvedUsers.InvolvedUsersOf | src/main/java/com/bonitasoft/processbuilder/filter/ActionBasedTaskAssignationFilter.java:229-257 | `initiator` is true exactly when the field is the boolean `true`; `users`/`memberships` are empty unless the field is an array, and otherwise map it element by element, in order, with nothing dropped: `users[i]` is `asLong` and `memberships[i]` is `MembershipOf` of element i |
| InvolvedUsers.CollectUserIds | src/main/java/com/bonitasoft/processbuilder/filter/ActionBasedTaskAssignationFilter.java:236-239 | the copied list has one `asLong` per array element, at the same index |
| InvolvedUsers.ParseInvolvedUsersJson | src/main/java/com/bonitasoft/processbuilder/filter/ActionBasedTaskAssignationFilter.java:220-262 | null or empty text gives the "cannot be null or empty" `IllegalArgumentException`; text `readTree` rejects gives "Invalid format" with the reader's exception as cause; a tree gives `InvolvedUsersOf` it |
| InvolvedUsers.NonObjectRootGivesDefaults | src/main/java/com/bonitasoft/processbuilder/filter/ActionBasedTaskAssignationFilter.java:229-255 | an array, scalar or empty root parses without error to `initiator` false and two empty lists |
| MembershipQuery.BuildMembershipSearch | src/main/java/com/bonitasoft/processbuilder/filter/ActionBasedTaskAssignationFilter.java:165-194 | the builder loop with its `isFirst` flag produces `ENABLED = true AND ( t1 OR t2 ... )`, one term per membership, on page `[0, Integer.MAX_VALUE]` |
| MembershipQuery.OrCount | src/main/java/com/bonitasoft/processbuilder/filter/ActionBasedTaskAssignationFilter.java:171-193 | a query over n memberships has exactly n - 1 `or()` calls, whatever ids the memberships carry |
| MembershipQuery.FiltersBalanced | src/main/java/com/bonitasoft/processbuilder/filter/ActionBasedTaskAssignationFilter.java:165-194 | every parenthesis the builder opens is closed, and none is closed before it is opened |
| MembershipQuery.FiltersMentionMembershipIds | src/main/java/com/bonitasoft/processbuilder/filter/ActionBasedTaskAssignationFilter.java:173-190 | a group id (role id) occurs in the query exactly when some membership carries it |
| MembershipQuery.EmptyOperandIffMembershipWithoutIds | src/main/java/com/bonitasoft/processbuilder/filter/ActionBasedTaskAssignationFilter.java:176-190 | the query has an operand missing (as in `( )`, `( or`, `or or`, `or )`) exactly when some membership has neither a group id nor a role id |
| ActionBasedTaskAssignation.ValidateField | src/main/java/com/bonitasoft/processbuilder/filter/ActionBasedTaskAssignationFilter.java:110-118 | passes exactly when the field exists and satisfies the type check |
| ActionBasedTaskAssignation.ValidateUsersJson | src/main/java/com/bonitasoft/processbuilder/filter/ActionBasedTaskAssignationFilter.java:77-104 | a non-`String` input throws the cast error; null or empty text gets "must be a non-empty string"; other text passes exactly when it parses to an object whose `initiator` is boolean and `users`, `memberShips` are arrays, and otherwise gets "Invalid JSON structure" |
| ActionBasedTaskAssignation.ValidatedUsersParse | src/main/java/com/bonitasoft/processbuilder/filter/ActionBasedTaskAssignationFilter.java:220-257 | text that passed validation parses without error, with the validated `initiator` and as many users and memberships as the arrays hold |
| ActionBasedTaskAssignation.CheckPositiveIntegerInput | src/main/java/com/bonitasoft/processbuilder/filter/ActionBasedTaskAssignationFilter.java:48-57 | passes exactly for an `Integer` above zero; null or non-positive gets the "must be a positive integer but is '<v>'" message; any other class gets "must be an Integer" |
| ActionBasedTaskAssignation.CheckPositiveLongInput | src/main/java/com/bonitasoft/processbuilder/filter/ActionBasedTaskAssignationFilter.java:59-68 | passes exactly for a `Long` above zero (an `Integer` fails the cast); the two messages as for integers |
| ActionBasedTaskAssignation.RejectedLongIsReported | src/main/java/com/bonitasoft/processbuilder/filter/ActionBasedTaskAssignationFilter.java:59-64 | the rejected value reads back from the message of a failed long check |
| ActionBasedTaskAssignation.ToList | src/main/java/com/bonitasoft/processbuilder/filter/ActionBasedTaskAssignationFilter.java:208-209 | the list copied from the set holds each element exactly once and nothing else |
| ActionBasedTaskAssignation.CollectCandidates | src/main/java/com/bonitasoft/processbuilder/filter/ActionBasedTaskAssignationFilter.java:142-206 | the set collected is exactly `Candidates` (initiator if asked for and found, the listed ids, the search hits if memberships are given and the search works), and the engine calls are the initiator lookup iff asked for, then the search iff memberships are given |
| ActionBasedTaskAssignation.Filter | src/main/java/com/bonitasoft/processbuilder/filter/ActionBasedTaskAssignationFilter.java:126-210 | a cast or parse failure becomes "Initialization failed due to unexpected error." with the cause, before any engine call; otherwise the result is duplicate-free and holds exactly `Candidates`, engine failures being swallowed |
| ActionBasedTaskAssignation.EngineCalledOnlyWhenNeeded | src/main/java/com/bonitasoft/processbuilder/filter/ActionBasedTaskAssignationFilter.java:145-206 | the process instance is fetched iff `initiator` is set; the user search runs iff memberships are given; never more than two engine calls |
| ActionBasedTaskAssignation.ListedUsersAlwaysKept | src/main/java/com/bonitasoft/processbuilder/filter/ActionBasedTaskAssignationFilter.java:157-160 | every listed user id is a candidate, whatever the engine answers |
| ActionBasedTaskAssignation.CandidatesWithoutEngine | src/main/java/com/bonitasoft/processbuilder/filter/ActionBasedTaskAssignationFilter.java:145-206 | with no initiator and no memberships the candidates are exactly the listed ids, for every engine |
| MultipleUserIdsActorFilter.ValidateInputParameters | src/main/java/com/bonitasoft/processbuilder/filter/MultipleUserIdsActorFilter.java:35-68 | passes exactly for a non-empty list whose first element is a `Long`; null, non-list, empty list and wrong first element each get their message; a null first element throws `NullPointerException` |
| MultipleUserIdsActorFilter.Filter | src/main/java/com/bonitasoft/processbuilder/filter/MultipleUserIdsActorFilter.java:80-99 | any list is returned as it is; null fails with cause `NullPointerException`, another class with cause `ClassCastException`, both as "Failed to process validated user list input." |
| MultipleUserIdsActorFilter.ValidatedInputIsReturned | src/main/java/com/bonitasoft/processbuilder/filter/MultipleUserIdsActorFilter.java:80-92 | after validation `filter` returns the input, a non-empty list starting with a `Long`, for any actor |
| MultipleUserIdsActorFilter.OnlyFirstElementChecked | src/main/java/com/bonitasoft/processbuilder/filter/MultipleUserIdsActorFilter.java:61-67 | a list whose first element is a `Long` passes whatever follows, and is returned with those elements |
| Utf8.EncodeChar | src/main/java/com/bonitasoft/presales/connector/connectorRabbitMQ.java:97 | one to four bytes per character, a single byte exactly for ASCII, continuation bytes after the first |
| Utf8.DecodeEncode | src/main/java/com/bonitasoft/presales/connector/connectorRabbitMQ.java:97 | strict UTF-8 decoding of the encoded text gives the text back |
| RabbitMQInputs.FirstIllTyped | src/main/java/com/bonitasoft/presales/connector/connectorRabbitMQ.java:133-159 | finds the first value, in getter order, that is neither null nor a `String`, or reports there is none |
| RabbitMQPublish.ValidateInputParameters | src/main/java/com/bonitasoft/presales/connector/connectorRabbitMQ.java:133-159 | passes exactly when no value fails its getter's cast; otherwise names the first that does, "<name> type is invalid" |
| RabbitMQPublish.ValidateInputs | src/main/java/com/bonitasoft/presales/connector/connectorRabbitMQ.java:74-80 | passes exactly when all five values are strings; fails with `ClassCastException` exactly when an ill-typed value comes before any null, else with "Required input parameters are missing." |
| RabbitMQPublish.ValidatedInputsOnlyMissing | src/main/java/com/bonitasoft/presales/connector/connectorRabbitMQ.java:74-80 | after `validateInputParameters` passes, `validateInputs` fails only for a null value, and never on a cast |
| RabbitMQPublish.PublishChannel.QueueDeclare | src/main/java/com/bonitasoft/presales/connector/connectorRabbitMQ.java:91-94 | the declaration is logged unless the broker throws, and then the exception is returned |
| RabbitMQPublish.PublishChannel.BasicPublish | src/main/java/com/bonitasoft/presales/connector/connectorRabbitMQ.java:96-99 | the publication is logged unless the broker throws |
| RabbitMQPublish.ReceivedMessageText | src/main/java/com/bonitasoft/presales/connector/connectorRabbitMQ.java:101-105 | the output text is 34 characters longer than its parts, quotes the message after "Message '" and ends with the host |
| RabbitMQPublish.InnerFailure | src/main/java/com/bonitasoft/presales/connector/connectorRabbitMQ.java:107-120 | I/O and timeout failures become "Error connecting to RabbitMQ", a channel shutdown "Error publishing message due to channel shutdown", anything else "Error publishing message", with the failure as cause |
| RabbitMQPublish.PublishOutcome | src/main/java/com/bonitasoft/presales/connector/connectorRabbitMQ.java:48-72 | the publication succeeds exactly when all inputs are strings and no broker step fails; every failure is a `ConnectorException`; a failed cast gives "Error casting input parameters" and is the only failure to; the missing-parameter exception, or the inner handler's exception for the first broker step that failed, becomes the cause of "Unexpected error" |
| RabbitMQPublish.PublishConnector.ExecuteBusinessLogic | src/main/java/com/bonitasoft/presales/connector/connectorRabbitMQ.java:48-72 | on success the channel got the durable, non-exclusive, non-auto-delete declaration and then the UTF-8 body on the default exchange routed by queue name, and `receivedMessage` is set; on failure the output is untouched and the channel has only the steps that went through |
| RabbitMQPublish.PublishedBodyDecodesToMessage | src/main/java/com/bonitasoft/presales/connector/connectorRabbitMQ.java:96-99 | the published body decodes back to the `message` input |
| RabbitMQConsume.CheckPersistenceId | src/main/java/com/bonitasoft/presales/connector/connectorRabbitMQConsume.java:178-215 | text that is not JSON matches when it contains the target; a reader I/O failure is "Error checking persistenceId"; JSON without `persistenceId` never matches; with it, a non-numeric target is "Error al convertir getMessage() a Long" and otherwise the long values are compared |
| RabbitMQConsume.MatchesDecimalId | src/main/java/com/bonitasoft/presales/connector/connectorRabbitMQConsume.java:185-193 | a JSON body with `persistenceId` matches the decimal text of a long exactly when the field's long value is that long |
| RabbitMQConsume.TextBodyContainingTargetMatches | src/main/java/com/bonitasoft/presales/connector/connectorRabbitMQConsume.java:198-205 | a non-JSON body matches every target it contains |
| RabbitMQConsume.JsonWithoutIdNeverMatches | src/main/java/com/bonitasoft/presales/connector/connectorRabbitMQConsume.java:185-196 | a JSON body without `persistenceId` gives `false`, even for a non-numeric target |
| RabbitMQConsume.AcksFrom | src/main/java/com/bonitasoft/presales/connector/connectorRabbitMQConsume.java:117 | the acknowledgements of consecutive tags, one per delivery, none with `multiple` |
| RabbitMQConsume.ConsumeChannel.BasicGet | src/main/java/com/bonitasoft/presales/connector/connectorRabbitMQConsume.java:110 | the head message with the next delivery tag, or null for an empty queue |
| RabbitMQConsume.ConsumeChannel.BasicAck | src/main/java/com/bonitasoft/presales/connector/connectorRabbitMQConsume.java:117 | the acknowledgement is logged unless the broker throws |
| RabbitMQConsume.ConsumeChannel.BasicCancel | src/main/java/com/bonitasoft/presales/connector/connectorRabbitMQConsume.java:142 | the cancellation is logged unless the broker throws |
| RabbitMQConsume.ConsumeChannel.QueueDeclare | src/main/java/com/bonitasoft/presales/connector/connectorRabbitMQConsume.java:102-105 | the declaration is logged unless the broker throws |
| RabbitMQConsume.ConsumeChannel.BasicConsume | src/main/java/com/bonitasoft/presales/connector/connectorRabbitMQConsume.java:161 | the subscription is logged unless the broker throws |
| RabbitMQConsume.ConsumeMessages | src/main/java/com/bonitasoft/presales/connector/connectorRabbitMQConsume.java:107-121 | every waiting message is fetched once, in queue order, and its tag acknowledged once; the queue ends empty |
| RabbitMQConsume.HasMessagesInQueue | src/main/java/com/bonitasoft/presales/connector/connectorRabbitMQConsume.java:173-176 | true exactly when messages are waiting |
| RabbitMQConsume.DrainIfNotEmpty | src/main/java/com/bonitasoft/presales/connector/connectorRabbitMQConsume.java:63-69 | drains exactly when the queue is not empty; either way the queue ends empty with every earlier message acknowledged |
| RabbitMQConsume.ConsumeConnector.OnDelivery | src/main/java/com/bonitasoft/presales/connector/connectorRabbitMQConsume.java:126-158 | every delivery is acknowledged (unless the ack throws) and stored as `receivedMessage`, the last one winning; the subscription is cancelled only for a match whose ack and cancel went through |
| RabbitMQConsume.ConsumeConnector.ExecuteBusinessLogic | src/main/java/com/bonitasoft/presales/connector/connectorRabbitMQConsume.java:55-89 | the outcome is `ConsumeOutcome`; once connected the queue is drained, then declared durable, then subscribed with manual acks, each step only if the earlier ones went through |
| RabbitMQConsume.ConsumptionFailure | src/main/java/com/bonitasoft/presales/connector/connectorRabbitMQConsume.java:72-75 | I/O, timeout and shutdown failures become "Error during message consumption.", anything else "Unexpected error during message consumption.", with the failure as cause |
| RabbitMQConsume.SubscriptionFailure | src/main/java/com/bonitasoft/presales/connector/connectorRabbitMQConsume.java:160-165 | an `IOException` from `basicConsume` is wrapped as "Error consuming message", and that wrapper is reported as unexpected |
| RabbitMQConsume.ConsumeOutcome | src/main/java/com/bonitasoft/presales/connector/connectorRabbitMQConsume.java:55-89 | passes exactly when no broker step fails; every failure is a `ConnectorException` |
| RabbitMQConsume.SubscribeIOFailureIsUnexpected | src/main/java/com/bonitasoft/presales/connector/connectorRabbitMQConsume.java:160-165 | the same `IOException` is a consumption error when declaring but an unexpected error when subscribing |
| RabbitMQConsume.MissingNames | src/main/java/com/bonitasoft/presales/connector/connectorRabbitMQConsume.java:235-244 | the names of the null values, among the parameter names; empty exactly when no value is null |
| RabbitMQConsume.NullPositionsExact | src/main/java/com/bonitasoft/presales/connector/connectorRabbitMQConsume.java:235-238 | the null indices are listed, each once, in increasing order, and nothing else is |
| RabbitMQConsume.MissingNamesAtNullPositions | src/main/java/com/bonitasoft/presales/connector/connectorRabbitMQConsume.java:235-244 | the missing names are exactly the names at the null indices, in parameter order |
| RabbitMQConsume.MissingNamesComplete | src/main/java/com/bonitasoft/presales/connector/connectorRabbitMQConsume.java:235-244 | every null parameter's name is listed, and every listed name belongs to a null parameter |
| RabbitMQConsume.ValidateInputParameters | src/main/java/com/bonitasoft/presales/connector/connectorRabbitMQConsume.java:225-259 | the first value whose getter cast fails aborts with "Invalid type encountered during validation: ..."; otherwise any null values give the trimmed report of "<name> is missing" lines; it passes exactly when all values are strings |
| RabbitMQConsume.MissingReportOfParams | src/main/java/com/bonitasoft/presales/connector/connectorRabbitMQConsume.java:247-249 | trimming the accumulated lines drops exactly the final line break |
| RabbitMQConsume.ReportNamesEachMissing | src/main/java/com/bonitasoft/presales/connector/connectorRabbitMQConsume.java:237-238 | every missing parameter has its "<name> is missing" line in the report |

## Left out

- Opening and closing connections and channels, and the `ConnectionFactory` settings (host, user, password, virtual host): these are network I/O. A failure to connect is a `Faults`/`ConsumeFaults` parameter. The consume connector's `finally` block, which closes the connection and logs close errors, is not modelled.
- The asynchronous delivery of messages after `basicConsume` is left out because it is concurrency. `ConsumeConnector.OnDelivery` models one callback run, for one delivery.
- Logging is left out everywhere. `ConsumeMessages` returns the fetch counter as `index`; the `Integer` wrap-around after 2^31 fetches is not modelled.
- Closing the publisher's connection and channel at the end of its try-with-resources block is not modelled, and neither is a failure while closing.
- Jackson's parser and coercions are parameters (`Jackson.readTree`, `asLong`, `asText`), not reimplementations.
- `RabbitMQConsume.ConsumeConnector.ExecuteBusinessLogic` takes the queue name as a `String`. It relies on `validateInputParameters` having run first, as the Bonita connector lifecycle does, so a getter's cast cannot fail inside it.
- `RabbitMQConsume.ConsumeMessages`: a `basicGet` or `basicAck` that throws during the drain is not modelled. Message bodies are taken as already-decoded text.
- `RabbitMQConsume.ConsumeConnector.OnDelivery` takes the `message` input as already-validated text (`target`). The JDK's lenient decoding of malformed UTF-8 bodies is version-specific and left out.
- `RabbitMQConsume.ValidateInputParameters` receives the JVM's `ClassCastException` message through the `castMessage` parameter. That text depends on the JVM.
- `Utf8.Encode` models encoding of well-formed text only. The replacement the JDK writes for a lone surrogate is left out.
- `JavaLang.ParseLong` accepts ASCII digits only. `Long.valueOf` also accepts other Unicode decimal digits.
- `ActionBasedTaskAssignation.ToList` returns the set's elements in an order the model does not fix. A `HashSet` iteration order is an implementation detail.
- The engine is a parameter: the initiator lookup result and the user search function. The engine's paging and user search semantics are not modelled.
- The connectors' input getters are modelled by the values they return. Bonita's input map and the output-parameter API are host code and not part of this model.
