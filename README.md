# Container terminal backend: a Dafny model

This project models the controller of a container-terminal simulation
backend. The backend works as follows:

- Containers wait in a backlog until their arrival date has passed.
- Due containers are spread over newly spawned trucks, trains, inland ships
  and sea ships.
- The controller announces each new transporter to the simulator with a
  CREATE message.
- It places idle transporters in free depot slots and sends an ARRIVE
  message for each one.
- Every sent message stays in a pool until the simulator acknowledges its
  id. The acknowledgement runs a handler for the message type, and the
  handler may send a DEPART message.

The model also covers the parts this relies on:

- the start-up registry (depots, crane pools, AGVs) and its depot queries;
- the CREATE and MOVE wire texts;
- the two counting helpers of the console entry point.

The files, in dependency order:

- `text.dfy` (module `Text`): decimal rendering of integers, and
  `Integer.parseInt` with its sign and 32-bit range.
- `terminal.dfy` (module `Terminal`): the entities as values. Transport
  types carry their Dutch wire names: `vrachtauto`, `trein`, `binnenschip`
  and `zeeschip`. The other entities are containers, transporters, cranes
  and AGVs.
- `stats.dfy` (module `Stats`): `makeOccurrencesDict` and
  `listContainerType`.
- `registry.dfy` (module `Registry`): the `Model` class holding the
  backlog, transporters, depot rows, crane pools and AGVs, plus
  `availableDepots`.
- `distribution.dfy` (module `Distribution`): `containersForCurrentDate` as
  functions, and `distributeContainers` as a method proved against a
  closed-form `Distribute`. The method covers partitioning by type,
  bucketing by spawn point, the largest bucket, the limits and round-robin
  peeling.
- `messages.dfy` (module `Messages`): the pool messages, and the classes
  `CreateMessage` and `MoveMessage` with their XML texts and a reader that
  parses them back.
- `allocation.dfy` (module `Allocation`): one depot-allocation pass in
  closed form. It says which transporter gets which slot and which ARRIVE
  messages are sent, with which ids.
- `controller.dfy` (module `Control`): the `Controller` class. It holds the
  message pool, the speed, the current date, the message-id counter and
  the outbox (the messages written to the simulator). Its methods are
  `spawnTransporters`, `assignTransportersToDepots`, `findCrane`,
  `findContainer`, `findContainerByNumber`, `handleOkMessage` with its
  handlers, and `departTransporter`.

Entities are referred to as follows:

- A transporter is referred to by its position in the registry's
  transporter list. Messages and depot slots hold that position, where the
  Java code holds a shared reference.
- A crane is referred to by its pool and its position in that pool.

`handleOkMessage` returns `Handled` or `Rejected(error)`. Each exception
path of the Java method that the model covers maps to one error, and a
rejected acknowledgement changes nothing:

- `Malformed`: there is not exactly one id element, or its text is not an
  int.
- `UnknownId`: no pending message has that id.
- `CastFailure`: the id names a MOVE message.
- `AgvFailure`: the id names an ARRIVE message and the AGV check that
  follows it throws.

The AGV check is `moveAgv` (Controller.java lines 518-553). It looks only
at the first AGV of the registry. If that AGV is occupied, or holds a
container, the loop breaks and nothing happens. If it holds no container,
`agv.getContainer().equals(null)` throws a `NullPointerException` before the
switch runs, so the acknowledgement fails and the message stays pending.
Either way the MOVE message of that method is never built. The AGV's state
is not part of this model, so whether the check throws is the parameter
`agvThrows` of `HandleOkMessage`.

The MOVE case follows the code, not the documented intent. The Java
controller has an empty MOVE handler that looks meant to acknowledge the
message and drop it from the pool. That handler never runs:
`handleOkMessage` first calls `moveCranes`, which casts any MOVE message to
an ARRIVE message, and `MoveMessage` is not an ARRIVE message. So the cast
throws and the message stays pending. The model states this outcome
(`Rejected(CastFailure)`, nothing changes).

Where the code accepts input that breaks its own assumptions, the model
keeps that input and states what happens:

- A CREATE text takes its `type` from the first loaded container, not from
  the transporter.
- An empty load has no CREATE text.
- A MOVE route is written unescaped.

## Model

| member | source | states |
|---|---|---|
| Text.IntToString | src/main/java/org/nhl/containing_backend/communication/CreateMessage.java:21 | an int is written as a non-empty string of decimal digits with an optional leading minus |
| Text.ParseInt | src/main/java/org/nhl/containing_backend/Controller.java:598 | only non-empty text is accepted, and every accepted value lies in the 32-bit int range |
| Text.IntToStringRoundTrip | src/main/java/org/nhl/containing_backend/Controller.java:598 | parsing the decimal text of any 32-bit int gives that int back, so a written message id can be read back |
| Text.IntToStringNoTag | src/main/java/org/nhl/containing_backend/communication/messages/MoveMessage.java:27 | a written integer never contains '<', so it cannot break the element it sits in |
| Terminal.TypeOf | src/main/java/org/nhl/containing_backend/Controller.java:232 | a type name maps to the transport type whose wire name it is; no other string names a type |
| Terminal.NamesDistinct | src/main/java/org/nhl/containing_backend/Controller.java:232 | the four wire names of the transport types are pairwise different |
| Terminal.OfTypeContents | src/main/java/org/nhl/containing_backend/Main.java:72-80 | selecting by arrival type keeps each matching container exactly as often as it occurs and no other; the result is never longer than the input |
| Stats.MakeOccurrencesDict | src/main/java/org/nhl/containing_backend/Main.java:58-70 | the keys are exactly the values occurring in the input; each key maps to its number of occurrences, which is positive; the counts in the table add up to the input's length |
| Stats.CountAbsent | src/main/java/org/nhl/containing_backend/Main.java:61-66 | a value occurs zero times exactly when it is absent, so no key of the table has count 0 |
| Stats.DistinctContents | src/main/java/org/nhl/containing_backend/Main.java:61-66 | the table's keys, in first-appearance order, hold no duplicate and are exactly the input's values |
| Stats.TableSumIsTotal | src/main/java/org/nhl/containing_backend/Main.java:58-70 | summing a table over keys whose entries are the occurrence counts gives the total count of those keys |
| Stats.CountsSumToLength | src/main/java/org/nhl/containing_backend/Main.java:58-70 | the counts of all keys add up to the length of the input |
| Stats.ListContainerType | src/main/java/org/nhl/containing_backend/Main.java:72-80 | the result is the input's containers of the requested arrival type, in input order; membership holds in both directions |
| Registry.EmptyRowAllFree | src/main/java/org/nhl/containing_backend/models/Model.java:36-40 | in a row of n empty slots the free list is 0, 1, ..., n-1 |
| Registry.FreeSlots | src/main/java/org/nhl/containing_backend/models/Model.java:65-73 | the free list is no longer than the row, and every entry is the index of an empty slot |
| Registry.FreeSlotBelow | src/main/java/org/nhl/containing_backend/models/Model.java:65-73 | an empty slot below a free-list entry is listed at an earlier position |
| Registry.FreeSlotsSpec | src/main/java/org/nhl/containing_backend/models/Model.java:65-73 | the free list of a depot row is strictly ascending and holds exactly the indices of the empty slots |
| Registry.AvailableDepotsForType | src/main/java/org/nhl/containing_backend/models/Model.java:65-73 | the loop yields the free list: ascending, with exactly the empty slot indices |
| Registry.BuildCranes | src/main/java/org/nhl/containing_backend/models/Model.java:103-134 | a crane pool of the given size whose i-th crane has id i, the pool's type name and no pending message |
| Registry.AgvsToParking | src/main/java/org/nhl/containing_backend/models/Model.java:91-101 | the given number of AGVs, the i-th parked at (i, i) |
| Registry.Model.constructor | src/main/java/org/nhl/containing_backend/models/Model.java:32-48 | an empty backlog and transporter list; depot rows of 20, 1, 2 and 1 empty slots for truck, train, inland ship and sea ship; 18 docking, 12 storage, 4 train and 20 truck cranes with ids by position; 143 parked AGVs; no storage |
| Registry.Model.SetCraneProcessingId | src/main/java/org/nhl/containing_backend/Controller.java:654 | only the named crane's processing id changes; the other pools, the transporters, the depots, the AGVs and the backlog stay as they were |
| Registry.Model.AvailableDepots | src/main/java/org/nhl/containing_backend/models/Model.java:57-63 | every depot type maps to its free list, and nothing else is mapped; the depots are only read |
| Registry.FreshDepotsAllFree | src/main/java/org/nhl/containing_backend/models/Model.java:36-40 | in a fresh registry, every slot of every depot type is offered, lowest first |
| Distribution.Due | src/main/java/org/nhl/containing_backend/Controller.java:180-194 | the due containers all arrived before now and are no more than the backlog |
| Distribution.NotDue | src/main/java/org/nhl/containing_backend/Controller.java:180-194 | the kept containers all arrive at or after now and are no more than the backlog |
| Distribution.DueSplit | src/main/java/org/nhl/containing_backend/Controller.java:180-194 | the due and kept parts together are the backlog as a multiset; due containers arrived before now and kept ones did not; the lengths add up |
| Distribution.NothingDue | src/main/java/org/nhl/containing_backend/Controller.java:202-204 | when nothing is due, the backlog is kept as it was |
| Distribution.PointsSpec | src/main/java/org/nhl/containing_backend/Controller.java:267-283 | the dictionary keys are distinct and are exactly the spawn points of the containers |
| Distribution.BucketSpec | src/main/java/org/nhl/containing_backend/Controller.java:267-283 | a bucket holds only containers of its point, and is empty exactly when the point is not a key |
| Distribution.MaxLen | src/main/java/org/nhl/containing_backend/Controller.java:286-291 | the number of transporters bounds every bucket's size, and some bucket reaches it when there is a key |
| Distribution.Limit | src/main/java/org/nhl/containing_backend/Controller.java:294-308 | a limit is at least 1, exceeds every coordinate on its axis, and is 1 or one more than some coordinate |
| Distribution.LayerShape | src/main/java/org/nhl/containing_backend/Controller.java:314-327 | a transporter's load holds at most one container per spawn point, each the k-th of its bucket |
| Distribution.LayerTakes | src/main/java/org/nhl/containing_backend/Controller.java:314-327 | the k-th container of every bucket long enough goes into the k-th load |
| Distribution.LayerNonEmpty | src/main/java/org/nhl/containing_backend/Controller.java:311-331 | every one of the first largest-bucket-size loads is non-empty, so no transporter is built and then dropped |
| Distribution.LayersAreBuckets | src/main/java/org/nhl/containing_backend/Controller.java:311-331 | the first n loads together hold the first n containers of each bucket (as multisets) |
| Distribution.BucketsPartition | src/main/java/org/nhl/containing_backend/Controller.java:267-283 | the buckets together hold exactly the containers, each as often as it occurs |
| Distribution.FillConserves | src/main/java/org/nhl/containing_backend/Controller.java:286-331 | the transporters built for one type carry exactly its containers, each as often as it occurs |
| Distribution.FillShape | src/main/java/org/nhl/containing_backend/Controller.java:286-331 | as many transporters as the largest bucket; each of the type, non-empty, idle, with the k-th layer as load and the computed limits |
| Distribution.FillRoundRobin | src/main/java/org/nhl/containing_backend/Controller.java:311-327 | transporter k holds the k-th container of each bucket long enough, and nothing else |
| Distribution.Fill | src/main/java/org/nhl/containing_backend/Controller.java:286-331 | one transporter per layer up to the largest bucket size, each new (non-empty, unoccupied, waiting for nothing), of the type, and loaded only from the type's containers |
| Distribution.FillFacts | src/main/java/org/nhl/containing_backend/Controller.java:311-331 | the transporters built layer by layer are as many as the largest bucket, new, of the type, and loaded from the given containers only |
| Distribution.BucketFrom | src/main/java/org/nhl/containing_backend/Controller.java:267-283 | a bucket holds only containers it was given |
| Distribution.LayerFrom | src/main/java/org/nhl/containing_backend/Controller.java:314-327 | a layer holds only containers it was given |
| Distribution.FillOwnType | src/main/java/org/nhl/containing_backend/Controller.java:235-245 | every transporter built for a type is new and carries only given containers whose arrival type is its own |
| Distribution.FreshAppend | src/main/java/org/nhl/containing_backend/Controller.java:226-337 | joining two lists of new transporters that carry containers of their own type keeps both properties |
| Distribution.Distribute | src/main/java/org/nhl/containing_backend/Controller.java:226-337 | every transporter built is new and carries only given containers whose arrival type names its own type |
| Distribution.DistributeLoads | src/main/java/org/nhl/containing_backend/Controller.java:226-337 | the loads of all transporters are the four type groups together |
| Distribution.DistributeConserves | src/main/java/org/nhl/containing_backend/Controller.java:226-337 | every container of a known type is loaded exactly as often as it was given; a container of any other type is dropped |
| Distribution.Partition | src/main/java/org/nhl/containing_backend/Controller.java:235-245 | the four lists are the containers of each type, in input order |
| Distribution.BucketByPoint | src/main/java/org/nhl/containing_backend/Controller.java:267-283 | the loop yields the points in first-appearance order and the bucket map |
| Distribution.LargestBucket | src/main/java/org/nhl/containing_backend/Controller.java:286-291 | the loop yields the largest bucket size |
| Distribution.Limits | src/main/java/org/nhl/containing_backend/Controller.java:294-308 | the loop yields the three limits |
| Distribution.PeelPoint | src/main/java/org/nhl/containing_backend/Controller.java:314-325 | removing a bucket's head takes its i-th container (or nothing, and the key goes); other keys are untouched |
| Distribution.PeelRound | src/main/java/org/nhl/containing_backend/Controller.java:314-327 | one pass over the dictionary gathers the i-th layer and leaves every bucket peeled one further |
| Distribution.PeeledStart | src/main/java/org/nhl/containing_backend/Controller.java:267-283 | the freshly built dictionary is the starting state of the peeling loop |
| Distribution.FillType | src/main/java/org/nhl/containing_backend/Controller.java:286-331 | the loop builds exactly the transporters described by FillShape for one type |
| Distribution.DistributeContainers | src/main/java/org/nhl/containing_backend/Controller.java:226-337 | the method builds exactly Distribute: the transporters of each type in the order truck, train, inland ship, sea ship |
| Messages.ReadElementRoundTrip | src/main/java/org/nhl/containing_backend/communication/CreateMessage.java:21-26 | an element whose content has no '<' reads back as that content, followed by the rest of the text |
| Messages.ReadElementCut | src/main/java/org/nhl/containing_backend/communication/CreateMessage.java:21-26 | an element whose content holds '<' reads back, if at all, as the content cut at its first '<'; with a tag free of '<' it reads back only when the text from that '<' starts with the closing tag |
| Messages.CreateXml | src/main/java/org/nhl/containing_backend/communication/CreateMessage.java:18-35 | there is no CREATE text exactly when the load is empty (the first container is read) |
| Messages.CreateXmlRead | src/main/java/org/nhl/containing_backend/communication/CreateMessage.java:18-35 | a CREATE text reads back as the message id, the transporter id, the first container's arrival type and the container blocks |
| Messages.CreateXmlId | src/main/java/org/nhl/containing_backend/communication/CreateMessage.java:21 | the id of a CREATE text parses back to the message id |
| Messages.BlocksAppend | src/main/java/org/nhl/containing_backend/communication/CreateMessage.java:27-29 | the container blocks of a load are the blocks of its parts, one per container in load order |
| Messages.CreateMessage.constructor | src/main/java/org/nhl/containing_backend/communication/CreateMessage.java:13-16 | the message keeps its id and transporter |
| Messages.CreateMessage.GenerateXml | src/main/java/org/nhl/containing_backend/communication/CreateMessage.java:18-35 | the string building yields exactly the CREATE text, or nothing for an empty load |
| Messages.CreateMessage.GetProcessor | src/main/java/org/nhl/containing_backend/communication/CreateMessage.java:37-40 | the processor is the transporter the message was built with |
| Messages.MoveXml | src/main/java/org/nhl/containing_backend/communication/messages/MoveMessage.java:24-38 | a MOVE text's id element reads back as the written message id, and the text ends with the closing Move tag |
| Messages.MoveXmlRead | src/main/java/org/nhl/containing_backend/communication/messages/MoveMessage.java:24-38 | a MOVE text reads back as its seven fields in order, each exactly as written, when no field holds '<' |
| Messages.MoveRouteUnescaped | src/main/java/org/nhl/containing_backend/communication/messages/MoveMessage.java:32 | a route holding '<' is written without escaping: when the fields before it hold no '<', a MOVE that reads back carries the route cut at its first '<' (never the route itself), and nothing reads back unless the text from that '<' starts with the closing Dijkstra tag |
| Messages.MoveXmlId | src/main/java/org/nhl/containing_backend/communication/messages/MoveMessage.java:27 | the id of a MOVE text parses back to the message id |
| Messages.MoveMessage.constructor | src/main/java/org/nhl/containing_backend/communication/messages/MoveMessage.java:16-22 | the message keeps its AGV, route and crane, and its end location is the crane's id |
| Messages.MoveMessage.GenerateXml | src/main/java/org/nhl/containing_backend/communication/messages/MoveMessage.java:24-38 | the string building yields exactly the MOVE text, and the message is left as it was (the end location stays the crane's id) |
| Messages.MoveMessage.GetEndLocationId | src/main/java/org/nhl/containing_backend/communication/messages/MoveMessage.java:44-46 | the end location is the id of the target crane |
| Allocation.Placed | src/main/java/org/nhl/containing_backend/Controller.java:352-353 | the pass changes the contents of depot rows but never which types have rows or how long a row is |
| Allocation.Assigned | src/main/java/org/nhl/containing_backend/Controller.java:343-358 | a transporter changes only its occupied flag and processing id; it is occupied afterwards exactly when it was before or is placed; a placed one waits for an id from the pass's range, any other keeps its id |
| Allocation.SlotsDistinct | src/main/java/org/nhl/containing_backend/Controller.java:343-362 | no slot is given to two transporters in one pass |
| Allocation.SlotWasFree | src/main/java/org/nhl/containing_backend/Controller.java:352-353 | a placed transporter's slot lies in its type's row and was empty before the pass |
| Allocation.LowestFree | src/main/java/org/nhl/containing_backend/Controller.java:344-352 | every free slot below the one a transporter gets went to an earlier transporter |
| Allocation.HolderSpec | src/main/java/org/nhl/containing_backend/Controller.java:343-362 | the holder of a slot is the transporter placed there, and no other |
| Allocation.PlacedSpec | src/main/java/org/nhl/containing_backend/Controller.java:352-353 | after the pass a slot holds the transporter placed in it; every other slot is as before |
| Allocation.ArriveMessagesIds | src/main/java/org/nhl/containing_backend/Controller.java:356-359 | one ARRIVE message per placed transporter, with consecutive ids |
| Allocation.ArriveMessageOf | src/main/java/org/nhl/containing_backend/Controller.java:356-359 | the ARRIVE message of a placed transporter names it and its slot and has the id it waits for |
| Allocation.ArriveIdsIncrease | src/main/java/org/nhl/containing_backend/Controller.java:356-359 | transporters placed in one pass wait for different messages, in placement order |
| Control.SpawnPairs | src/main/java/org/nhl/containing_backend/Controller.java:209-214 | each new transporter waits for exactly one new CREATE message, and that message names it |
| Control.RemainingStep | src/main/java/org/nhl/containing_backend/Controller.java:348-352 | a transporter is placed exactly when it is idle and its type's free list is non-empty, and it takes the head of that list |
| Control.SpawnedCreateText | src/main/java/org/nhl/containing_backend/Controller.java:209-213 | every transporter the spawn step builds has a CREATE text, as the modelled CREATE message writes it, and its type element names the transporter's own type |
| Control.CreateTypeIsOwn | src/main/java/org/nhl/containing_backend/communication/CreateMessage.java:26 | when the first loaded container arrives by the transporter's type, the CREATE text's type element is that type's name |
| Control.FindContainer | src/main/java/org/nhl/containing_backend/Controller.java:466-481 | none exactly for an empty list; otherwise the first container with the earliest departure date |
| Control.ByNumber | src/main/java/org/nhl/containing_backend/Controller.java:483-491 | a found container is in the list and has the number; nothing is found exactly when no container has it |
| Control.ByNumberSpec | src/main/java/org/nhl/containing_backend/Controller.java:483-491 | the lookup yields a container of that number in the list, the first one, and nothing only when none has it |
| Control.FindContainerByNumber | src/main/java/org/nhl/containing_backend/Controller.java:483-491 | the loop yields the first container with the number, or nothing when none has it |
| Control.RemoveFirstCount | src/main/java/org/nhl/containing_backend/Controller.java:657 | removing a container takes away one occurrence of it and nothing else |
| Control.Popped | src/main/java/org/nhl/containing_backend/Controller.java:656-657 | the new load is a sub-multiset of the old; containers of other numbers keep their counts; it is one shorter exactly when some container has the number |
| Control.PoppedSpec | src/main/java/org/nhl/containing_backend/Controller.java:656-657 | the load loses one container with the job's number if it has one, and is unchanged otherwise |
| Control.CranePoolFor | src/main/java/org/nhl/containing_backend/Controller.java:429-459 | a type name has a crane pool exactly when it names a transport type; it is never the storage pool, and it is the docking pool exactly for the two ship types |
| Control.SearchCranes | src/main/java/org/nhl/containing_backend/Controller.java:431-435 | the position of the first crane with the id, or nothing when no crane has it |
| Control.Controller.constructor | src/main/java/org/nhl/containing_backend/Controller.java:45-52 | a fresh registry, an empty pool, speed 1 |
| Control.Controller.Send | src/main/java/org/nhl/containing_backend/Controller.java:95-97 | the message gets the next id, joins the pool and is written out; the pool stays valid |
| Control.Controller.SetProcessingId | src/main/java/org/nhl/containing_backend/Controller.java:212 | only the transporter's processing id changes |
| Control.Controller.UpdateSpeed | src/main/java/org/nhl/containing_backend/Controller.java:94-98 | a SPEED message is pooled and written out; the speed itself is unchanged until it is acknowledged |
| Control.Controller.ContainersForCurrentDate | src/main/java/org/nhl/containing_backend/Controller.java:180-194 | the containers arrived before the current date leave the backlog in order; the others stay in order |
| Control.Controller.SpawnTransporters | src/main/java/org/nhl/containing_backend/Controller.java:199-215 | nothing but the backlog check happens when nothing is due; otherwise the distributed transporters join the registry, each waiting for its own CREATE message, which is pooled and written out |
| Control.Controller.StampNew | src/main/java/org/nhl/containing_backend/Controller.java:207-214 | the new transporters are appended with processing ids id0, id0+1, ... and the matching CREATE messages are pooled and written out |
| Control.Controller.Place | src/main/java/org/nhl/containing_backend/Controller.java:352-359 | the slot holds the transporter, which is occupied and waits for the ARRIVE message sent for it |
| Control.Controller.AssignTransportersToDepots | src/main/java/org/nhl/containing_backend/Controller.java:343-362 | every transporter ends as the closed-form allocation says; the depots are the placed rows; the ARRIVE messages are pooled and written out in order; nothing else changes |
| Control.Controller.FindCrane | src/main/java/org/nhl/containing_backend/Controller.java:429-459 | the first crane with the id in the pool serving the type (truck, train, or docking for both ship types); nothing for another type name or an absent id |
| Control.PositionOf | src/main/java/org/nhl/containing_backend/Controller.java:603-609 | the first position of a message with the id, or nothing exactly when no message has it |
| Control.Controller.PendingIndex | src/main/java/org/nhl/containing_backend/Controller.java:603-609 | the loop stops at the first pending message with the id, or yields nothing when none has it |
| Control.Controller.RemoveAt | src/main/java/org/nhl/containing_backend/Controller.java:636 | the message leaves the pool and the others keep their order |
| Control.Controller.DepartTransporter | src/main/java/org/nhl/containing_backend/Controller.java:506-515 | an empty transporter gets a DEPART message and waits for it; a loaded one is left alone |
| Control.Controller.AckCrane | src/main/java/org/nhl/containing_backend/Controller.java:653-660 | the crane is free again, the job's container leaves the load, and a transporter left empty departs |
| Control.Controller.Acknowledge | src/main/java/org/nhl/containing_backend/Controller.java:616-667 | per message type: CREATE, ARRIVE and DEPART free their transporter, SPEED sets the speed, and a crane job frees the crane, pops the container and sends a DEPART message for an emptied transporter; then the message leaves the pool; nothing else changes |
| Control.RemoveAtFacts | src/main/java/org/nhl/containing_backend/Controller.java:636 | taking a message out of a pool with distinct ids keeps every other message and leaves none with its id |
| Control.Controller.AcknowledgedPool | src/main/java/org/nhl/containing_backend/Controller.java:636 | after an acknowledgement no pending message carries the acknowledged id, and every other message is still pending |
| Control.Controller.HandleOkMessage | src/main/java/org/nhl/containing_backend/Controller.java:518-639 | malformed and unknown-id acknowledgements, and those whose first pooled message with the id is a MOVE, or an ARRIVE whose AGV check throws, are rejected in exactly their cases and change nothing; otherwise the first message with that id gets its per-type effect and leaves the pool, and every other pending message stays |

## Left out

- The server socket, the threads and the send loop are not modelled. Writing a message to the simulator is an append to `outbox`.
- XML parsing of incoming acknowledgements is left out. `HandleOkMessage` takes the text contents of the `id` elements.
- Control.Controller.HandleOkMessage: does not model the state of the first AGV, which decides whether `moveAgv` throws on an ARRIVE acknowledgement; that outcome is the parameter `agvThrows`. The Agv and Dijkstra classes are not part of this model.
- `moveCranes`, `findAgv`, `findStorage` and `determineDijkstra` are not modelled. The one exception is that `moveCranes` rejects a MOVE acknowledgement. No crane job is ever created in the model, but its acknowledgement handler is modelled.
- Loading the backlog from the XML resource is not modelled. Neither is the `start`/`stop` loop.
- The clock (`initDate`, `updateDate`, the spawn interval) is left out. The current date is a controller field holding an integer, and `Date.before` is `<`.
- The database is not modelled.
- Message ids come from a counter, `nextId`, because the message base class is not part of this model. Ids are unbounded integers, while `ParseInt` keeps Java's 32-bit range.
- Text.ParseInt: accepts only ASCII digits, whereas `Integer.parseInt` also accepts other Unicode decimal digits.
- A transporter's id is its position in the registry's list, because the Transporter class is not part of this model.
- Registry.AgvsToParking: gives the i-th AGV the id i, because the Agv class that assigns ids is not part of this model.
- `Container.toXml` and the float-to-text conversion are parameters of the XML functions (`containerXml` and `showFloat`).
- Floats (the speed and the AGV coordinates) are `real`, without float rounding.
- `Transporter.putContainer` is modelled as appending to the load. The 2-D point passed with it is ignored.
- `popContainerFromDeque` is modelled as removing the first occurrence of the container found by number. When no container has the number, the load is unchanged.
- `HashMap` iteration order is modelled as first-appearance order, both for the spawn-point dictionary and for the keys of `availableDepots`. Under another order, only the order of containers within a load would differ.
- Depot slots are never released, as in the source.
- Spawn coordinates are integers (`Point`). The Container class is not part of this model. The entry point casts them to `int` (Main.java lines 45-47), but the controller writes the bucket key with the getters' own values (Controller.java lines 271-274). If those getters return floats, a key reads like "1.0,2.0,0.0", and `Integer.parseInt` at Controller.java lines 299 and 317 throws a `NumberFormatException`. The model does not cover that failure.
- Control.SpawnedCreateText: the controller builds `communication.messages.CreateMessage` (Controller.java lines 5 and 210), a class that is not part of this model, and acknowledges it through `getTransporter` (line 642). The model assumes it writes the same text as `communication.CreateMessage` (CreateMessage.java lines 18-35), which is the class modelled here, and that its `getTransporter` returns the transporter it was built with, as `getProcessor` does.
- `Model.getStorage` always yields nothing, because the registry never creates a storage.
- Initial values set by classes outside this model are assumed: a crane starts with processing id -1 and its type name is the string its constructor receives (the Crane class is not part of this model); a new transporter starts unoccupied with processing id -1 (the Transporter class is not part of this model).
