# Fault-tolerant monitor: the participant-liveness manager and the ECS monitor

This project models the control plane of a museum environmental-control
simulation in Dafny. Sensors and controllers ("participants") send heartbeats
through a message bus. The `MonitorManager` keeps one set of participant ids
per participant type, elects one main participant per type, and forwards only
the application messages of main participants. It fires a ready event the
first time a type has a member. It evicts a member whose heartbeat is more
than 3000 ms old, reports the failure, unregisters the id from the bus and,
where needed, hands the main role to the next id. The `ECSMonitor` consumes the
forwarded readings, compares them with its temperature and humidity ranges,
and answers every batch with four actuator commands and two status lamps.

Layout:

- `wrappers.dfy` (`Wrappers`): `Option` and `Result`.
- `participant_type.dfy` (`ParticipantTypes`): the four participant types and their text codec.
- `message.dfy` (`Messages`): the message envelope (kind, payload, sender id).
- `manager_state.dfy` (`ManagerState`): the manager's tables, the faults a poll can hit, the invariant, the initial state, and the main-participant test.
- `intake.dfy` (`MessageIntake`): the message-processing loop of one poll (heartbeat bookkeeping, election, filtering).
- `liveness.dfy` (`Liveness`): the liveness sweep of one poll.
- `monitor_manager.dfy` (`MonitorManager`): one whole poll (intake, ready detection, sweep), the bus-failure handler, and the properties of a poll.
- `ecs_monitor.dfy` (`ECSMonitor`): the monitor's reading intake, control decision, command encoding, halt message and range setters.

One iteration of the manager's `while (true)` loop is the pure function
`MonitorManager.Poll`. Its inputs are:

- the manager's `State`;
- the fetched messages;
- the clock reading `now`, one reading for the whole poll;
- the heartbeat message kind `hb`;
- the sweep order `plan`.

It returns either the new state and the events the poll emits, or the `Fault`
at which the Java code would throw a `NullPointerException`:

- a heartbeat for a type that has no set;
- an id in a set with no heartbeat entry;
- an expired id of a type that has no main.

The order in which the sweep visits types and ids comes from hash-set iteration
in the source, so the model takes it as an input. `plan` is a sequence of
snapshots, each listing one type's set once, taken as the sweep reaches that
type.

Behaviours of the code that one might not expect, which the model keeps:

- An application message is forwarded when its sender is the main participant of *any* type, not of its own type (`MonitorManager.java:266-275`).
- When an expired main is the last id of its snapshot, the main role is not passed on. The type keeps a main that is no longer a member, and no later heartbeat replaces it (`MonitorManager.java:187-189`, `235-237`). One would expect the main role to pass to a remaining member. `Liveness.LastMainKept` and `Liveness.TwoExpire` show the code's behaviour.
- The bus-failure handler removes the type keys themselves, not only the members (see Findings).

## Model

| member | source | states |
|---|---|---|
| `ParticipantTypes.ParseSpec` | ParticipantType.java:21-27 | parsing returns type `t` exactly when the string is `t`'s text, and returns nothing exactly when the string is no type's text |
| `ParticipantTypes.ParseText` | ParticipantType.java:17-27 | parsing a type's text gives back that type |
| `ParticipantTypes.TextInjective` | ParticipantType.java:5-8 | no two types share a text |
| `ParticipantTypes.Text` | ParticipantType.java:5-19 | no contract of its own: `ParticipantTypes.ParseText` and `ParticipantTypes.TextInjective` state that a type's text identifies it |
| `ParticipantTypes.Parse` | ParticipantType.java:21-27 | a returned type has the input string as its text, and nothing is returned only when no type has that text |
| `ManagerState.Initial` | MonitorManager.java:34-46 | the manager starts with an empty set for each of the four types, no mains, no heartbeats and every ready flag down; it satisfies the invariant and the sets are disjoint |
| `ManagerState.IsMain` | MonitorManager.java:266-275 | an id is main exactly when some type has it as its main |
| `MessageIntake.Admit` | MonitorManager.java:177-198 | one message faults exactly when it is a heartbeat whose text names a type with no set; otherwise the types and the ready flags stay, and at most this message is forwarded, only when it is no heartbeat and its sender is main |
| `MessageIntake.Intake` | MonitorManager.java:175-199 | a message loop that does not fault keeps the types and the ready flags and forwards at most as many messages as it read |
| `MessageIntake.ExpectedBatch` | MonitorManager.java:194-198 | the reference batch only holds messages of the input that are not heartbeats |
| `MessageIntake.AdmitFacts` | MonitorManager.java:177-198 | one message: a heartbeat stamps its sender with `now`; a valid type claim adds the sender to that type's set and makes it main only if the type has none; existing mains and ready flags never change |
| `MessageIntake.IntakeOk` | MonitorManager.java:175-199 | with all four sets present the message loop cannot fault; it keeps the types and the ready flags, adds mains without removing any, and keeps the invariant |
| `MessageIntake.IntakeMembers` | MonitorManager.java:179-186 | after the loop an id is in a type's set exactly when it was already there or some heartbeat of the batch claimed that type for it |
| `MessageIntake.IntakeBeats` | MonitorManager.java:177-193 | the heartbeat table gains exactly the heartbeat senders of the batch, even those naming no known type; they carry `now` and all other entries keep their times |
| `MessageIntake.IntakeMains` | MonitorManager.java:187-189 | a type has a main after the loop exactly when it had one or some heartbeat claimed it; an existing main is never replaced, and a type without one gets the sender of its first claim |
| `MessageIntake.IntakeElected` | MonitorManager.java:175-199 | an id is main after the loop exactly when it was main before or was the first claimant of a type that had no main |
| `MessageIntake.IntakeForwarded` | MonitorManager.java:175-198 | the forwarded batch is the reference batch: the non-heartbeat messages, in input order, whose sender is main at that point of the batch, counting elections made earlier in the same batch |
| `Liveness.ExpiredOf` | MonitorManager.java:223 | the ids of a snapshot whose heartbeat is strictly more than 3000 ms old, in snapshot order |
| `Liveness.Successor` | MonitorManager.java:235-237 | where a main at a snapshot position ends: the first position from there on whose id survives, or the last position; every id it skips has expired |
| `Liveness.Evict` | MonitorManager.java:231-237 | evicting an id removes it from its type's set and from the heartbeat table, leaves other types' sets and mains, the types with a main and the ready flags alone, and passes the type's main to the next id of the snapshot exactly when the evicted id is main and not the snapshot's last |
| `Liveness.SweepType` | MonitorManager.java:217-239 | sweeping one type keeps the set of types, the set of types with a main, and the ready flags |
| `Liveness.SweepAll` | MonitorManager.java:215-240 | the whole sweep keeps the set of types, the set of types with a main, and the ready flags |
| `Liveness.SweepTypeOk` | MonitorManager.java:221-239 | when every snapshot id is a tracked member and the type has a main, sweeping the type cannot fault |
| `Liveness.SweepTypeSkip` | MonitorManager.java:221-222 | one visit of the sweep, live case: an id whose heartbeat is recent enough is skipped and nothing changes |
| `Liveness.SweepTypeEvict` | MonitorManager.java:223-238 | one visit of the sweep, expired case: the id yields its failure event (last-member flag from the set's size before removal) and its unregistration ahead of the rest of the sweep, which runs on the state with the id removed from its set |
| `Liveness.SweepTypeFrame` | MonitorManager.java:221-233 | sweeping a type removes exactly its expired ids from its set and unregisters them in snapshot order; other types' sets and mains are untouched |
| `Liveness.SweepTypeBeats` | MonitorManager.java:231 | sweeping a type drops exactly its expired ids from the heartbeat table, and every other entry keeps its time |
| `Liveness.SweepTypeFailures` | MonitorManager.java:225 | the k-th failure of a type names its k-th expired id, and its last-member flag says whether the set held at most one id after the k earlier removals |
| `Liveness.SweepTypeMain` | MonitorManager.java:235-237 | a main listed at position p of the snapshot ends at the id `Successor` picks; a main the snapshot does not list stays |
| `Liveness.SweepAllOk` | MonitorManager.java:215-240 | with disjoint sets, fitting snapshots and a main for every non-empty type, the sweep cannot fault |
| `Liveness.SweepAllMembers` | MonitorManager.java:215-240 | each visited type keeps exactly its members that have not expired; an unvisited type keeps its set |
| `Liveness.SweepAllBeats` | MonitorManager.java:215-240 | the heartbeat table loses exactly the expired ids some snapshot lists, and every other entry keeps its time |
| `Liveness.SweepAllFailures` | MonitorManager.java:225 | the failure events are each visited type's expected events, type after type in sweep order |
| `Liveness.SweepTypePaired` | MonitorManager.java:225-228 | one type's sweep unregisters exactly the ids of its failure events, in the same order |
| `Liveness.SweepAllPaired` | MonitorManager.java:225-228 | over the whole sweep, the k-th unregistered id is the id of the k-th failure event |
| `Liveness.PairedConcat` | MonitorManager.java:225-228 | failure events and unregistered ids that pair up stay paired when two sweeps' outputs are concatenated |
| `Liveness.SweepAllMains` | MonitorManager.java:234-237 | each visited type's main ends where `Successor` says for its snapshot; a main that is not listed, or whose type is not visited, stays |
| `Liveness.SweepAllShrinks` | MonitorManager.java:230-232 | the sweep only removes ids from sets, and every id left in a set keeps its heartbeat entry |
| `Liveness.SweepAllInv` | MonitorManager.java:215-240 | the sweep keeps the invariant (all types present, members tracked, non-empty types have a main) and the disjointness of the sets |
| `Liveness.LastMainKept` | MonitorManager.java:235-237 | a main that expires as the last id of its snapshot stays main although it has left its set |
| `Liveness.SharedIdFaults` | MonitorManager.java:223-231 | an expired id registered under two types is dropped from the heartbeat table by the first type's sweep and faults the second's |
| `Liveness.ExpiryBoundary` | MonitorManager.java:223 | a heartbeat exactly 3000 ms old survives; at 3001 ms the id is evicted, reported as the last member, unregistered, and left as main |
| `Liveness.TwoExpire` | MonitorManager.java:225-237 | when two members of one type expire in one sweep, the first is reported with the flag down and the second with the flag up, and the main moves from the first to the second and stays there |
| `MonitorManager.ResetAsWritten` | MonitorManager.java:256-264 | the bus-failure handler as written: the member table loses its type keys, mains and heartbeats are emptied, ready flags are kept and the event is relayed unchanged |
| `MonitorManager.Reset` | MonitorManager.java:256-264 | the corrected handler: every type keeps an empty set, mains and heartbeats are emptied, ready flags are kept, the event is relayed unchanged, and the invariant holds afterwards |
| `MonitorManager.IntakeDisjoint` | MonitorManager.java:182-186 | when no id claims two types or claims a type while in another type's set, the sets stay disjoint through the message loop |
| `MonitorManager.IntakeNonEmpty` | MonitorManager.java:182-186 | a type's set is non-empty after the message loop exactly when it was non-empty before or some message claimed the type |
| `MonitorManager.DetectReady` | MonitorManager.java:204-212 | only ready flags change; the reported types are exactly the flags raised, none of them was up before, and each has a non-empty set; afterwards every type with a non-empty set is ready |
| `MonitorManager.Poll` | MonitorManager.java:171-240 | a poll that does not fault keeps the types and raises exactly the ready flags it reports, none of which was up before |
| `MonitorManager.PollOk` | MonitorManager.java:171-240 | under the invariant and with no id taking two types, a poll cannot fault, and it keeps the invariant and the disjointness of the sets |
| `MonitorManager.PollForwarded` | MonitorManager.java:195-202 | a successful poll hands subscribers exactly the reference batch |
| `MonitorManager.PollReady` | MonitorManager.java:204-212 | a type's ready event fires exactly when its flag is down and its set is non-empty after the message loop; the flags only go up |
| `MonitorManager.PollKeepsLive` | MonitorManager.java:214-240 | under the invariant and with no id taking two types, a poll cannot fault and each type keeps exactly those members the message loop left whose heartbeat has not expired |
| `MonitorManager.IntakeThenKeepLive` | MonitorManager.java:175-240 | when the sweep keeps exactly the live members the message loop left, an id ends in a type's set exactly when it was there or claimed the type in the batch, and it heartbeated in the batch or its old heartbeat has not expired |
| `MonitorManager.PollMembers` | MonitorManager.java:175-240 | after a poll an id is in a type's set exactly when it was there or claimed the type in the batch, and it either heartbeated in the batch or its last heartbeat is at most 3000 ms old |
| `MonitorManager.PollBeats` | MonitorManager.java:193-231 | after a poll the heartbeat table holds the old entries and the batch's heartbeat senders, minus the ids some set held whose heartbeat expired; senders carry `now`, the others keep their times; ids in no set are never dropped |
| `MonitorManager.PollFailures` | MonitorManager.java:214-232 | a poll's failure events are those the sweep expects of the tables the message loop leaves, and its unregistered ids are their ids, in order |
| `MonitorManager.PollMains` | MonitorManager.java:187-237 | a poll keeps every main the message loop set, and a main its set no longer holds stays |
| `MonitorManager.PollMainsMoved` | MonitorManager.java:234-237 | in a poll, a main listed at position p of its snapshot moves to the id `Successor` picks: the first later id that survives, or the last id |
| `MonitorManager.IntakeFaultSticks` | MonitorManager.java:175-199 | once the message loop faults on a prefix of the batch, the whole loop ends with that fault |
| `MonitorManager.ResetAsWrittenFaults` | MonitorManager.java:256-260 | after the handler as written, a batch that opens with a valid heartbeat makes the message loop, and so the poll, fault for lack of a set |
| `MonitorManager.ResetRecovers` | MonitorManager.java:256-264 | after the corrected handler, the next poll cannot fault, and each type's set then holds exactly the ids that claimed it in the batch |
| `ECSMonitor.Initial` | ECSMonitor.java:35-45 | the readings start at 0 and both ranges at 0 to 100 |
| `ECSMonitor.Encode` | ECSMonitor.java:354-506 | heater and chiller commands have kind 5, humidifier and dehumidifier commands kind 4; the payload has two characters, the second `1` for on and `0` for off |
| `ECSMonitor.DecodeEncode` | ECSMonitor.java:354-506 | every actuator command reads back as the device and setting it was built from |
| `ECSMonitor.EncodeInjective` | ECSMonitor.java:354-506 | distinct device settings give distinct commands, although heater and humidifier share payloads |
| `ECSMonitor.Halt` | ECSMonitor.java:317-338 | the halt message has the stop kind 99 and reads back as no actuator setting |
| `ECSMonitor.HaltIsStop` | ECSMonitor.java:317-338 | no actuator command equals the halt message |
| `ECSMonitor.Classify` | ECSMonitor.java:198-219 | a reading is low exactly when it is below the low bound, high exactly when it is not low and above the high bound, and in range otherwise |
| `ECSMonitor.MetricsChange` | ECSMonitor.java:190-245 | a decision sends four commands, each an actuator setting; heater and chiller are never both switched on, nor humidifier and dehumidifier |
| `ECSMonitor.MetricsChangeSpec` | ECSMonitor.java:190-245 | a decision sends one command to each actuator in the order heater, chiller, humidifier, dehumidifier; heater on exactly when the temperature is below range, chiller on exactly when it is above range and not below, so never both; likewise for humidity; a lamp shows colour 3 exactly when one of its actuators goes on, and 1 otherwise |
| `ECSMonitor.MetricsChangeLamps` | ECSMonitor.java:198-244 | the lamp texts say LOW exactly for a reading below its range, HIGH exactly for a reading not below and above it, and OK exactly for a reading within it |
| `ECSMonitor.SetTemperatureRange` | ECSMonitor.java:277-282 | stores the temperature bounds as given and changes nothing else |
| `ECSMonitor.SetHumidityRange` | ECSMonitor.java:297-302 | stores the humidity bounds as given and changes nothing else |
| `ECSMonitor.RangeSettersCompose` | ECSMonitor.java:277-299 | the later range setting replaces the earlier one, and the two setters commute |
| `ECSMonitor.InvertedRangeHeats` | ECSMonitor.java:198-210 | with the low bound above the high bound, a reading between them heats, does not chill, and shows "TEMP LOW" |
| `ECSMonitor.LatestReading` | ECSMonitor.java:127-157 | the value is the stored one or the value of some parseable reading of the kind in the batch |
| `ECSMonitor.LatestReadingNone` | ECSMonitor.java:127-157 | with no parseable reading of a kind among the messages, the stored value of that kind stays |
| `ECSMonitor.LatestReadingLast` | ECSMonitor.java:127-157 | when some message is a parseable reading of a kind and no later one is, the stored value becomes that reading's value |
| `ECSMonitor.LatestReadingSpec` | ECSMonitor.java:127-157 | with no parseable reading of a kind the value stays; otherwise it is the value of the last parseable reading |
| `ECSMonitor.CountKind` | ECSMonitor.java:163-166 | the reference count of stop messages that the loop answers with one unregister each; its own contract only bounds it by the number of messages, and `ECSMonitor.CountKindZero` and `ECSMonitor.HandleIncomingMessages` state what it means |
| `ECSMonitor.CountKindZero` | ECSMonitor.java:163-166 | the stop count is zero exactly when no message has the stop kind, and never exceeds the batch length |
| `ECSMonitor.HandleIncomingMessages` | ECSMonitor.java:124-188 | a batch sets the temperature and humidity to their last parseable readings and leaves the ranges alone, unregisters once per stop message, and ends with the decision on the updated values |

## Left out

- The message bus (`MessageBus.java`) is a stub with empty bodies. It is not modelled: the fetched list is an input of a poll, and the ids passed to `UnRegister` are an output.
- `FaultTolerantParticipant.java` and `ParticipantUtility.java` are not part of this model: their bodies are empty or only wrap a stub.
- Threads, the endless loop and the sleep between polls are left out. A poll is one step; events started in new threads are returned as data.
- The clock is a parameter. One reading `now` serves both the heartbeat stamps and the expiry check of a poll, whereas the source reads the clock once per heartbeat and once before the sweep.
- The heartbeat kind is the constant `MessageType.FAULT_TOLERANT_PARTICIPANT_HEART_BEAT`, whose class is not part of this model. It is the parameter `hb`.
- A `null` message list from the bus is not modelled: the batch is always a sequence.
- Callback lists and their registration are left out. The model assumes a ready callback and a failure callback are registered for all four types, as the monitor does (`ECSMonitor.java:58-65`); a missing callback list would throw in the source.
- The bus-failure handler cannot be wired as written: the bus takes a one-argument consumer (`MessageBus.java:149`) and is handed a two-argument method (`MonitorManager.java:166`). The handler is modelled standalone.
- Side effects the source performs before it throws, such as callbacks already fired, are not modelled: a fault ends the poll with no output.
- An id that heartbeats with an unknown type text gets a heartbeat entry but joins no set, so no sweep ever removes its entry. `MonitorManager.PollBeats` states this; it is not treated as an error.
- Timestamps are unbounded integers; the overflow of Java's `long` is not modelled.
- `MonitorManager.PollOk`, `MonitorManager.PollKeepsLive`, `MonitorManager.PollMembers`, `MonitorManager.PollBeats`, `MonitorManager.PollFailures`, `MonitorManager.PollMains`, `MonitorManager.PollMainsMoved` and `MonitorManager.ResetRecovers` assume that no id takes two types. The source does not enforce this; `Liveness.SharedIdFaults` shows the fault that follows when it fails.
- Float parsing is the parameter `parse` of `ECSMonitor.HandleIncomingMessages`: `Float.valueOf` returns a value or throws. Readings and bounds are reals, so single-precision rounding, NaN and the infinities are outside the model.
- The message window, the lamps' disposal, console output and stack traces are left out. Lamp text and colour are kept as outputs of the decision.
- The monitor's `IsRegistered` flag, its registration calls and its event handlers only write to the message window and are not modelled.

## Findings

| source | as written | input that shows it | evidently intended | confidence | as-written member | corrected member |
|---|---|---|---|---|---|---|
| MonitorManager.java:258 | `participantMap.clear()` removes the four type keys along with their sets | a bus failure, then a heartbeat from any participant with a valid type text: `participantMap.get(type)` returns `null` at line 183 and the poll throws | every type reverts to an empty set, so participants can re-announce with their next heartbeat | not executed | `MonitorManager.ResetAsWrittenFaults` | `MonitorManager.ResetRecovers` |
