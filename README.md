# Heating control: the controller core in Dafny

This project models the controller of a small MQTT heating service. The
service listens on `/readings/temperature` and `/readings/motion`. Each
reading carries a `sensorID` of the form `<prefix>-<room>` and a `value`.
The handler stores the value in a per-room record inside a module-global
dictionary. It then runs `update_valves` over every room in insertion
order, publishing level 100 (open) or 0 (close) on
`/actuators/room-<room>/set`.

Files:

- `wrappers.dfy` (module `Wrappers`): `Option` and `Result`.
- `json_values.dfy` (module `JsonValues`): the decoded JSON values the
  handler stores. The handler never checks their type. This module also
  holds the two Python operations the controller applies to them:
  truthiness (the motion test) and `<` against the float desired
  temperature. `<` gives `None` where Python raises `TypeError`.
- `sensor_id.dfy` (module `SensorId`): `sensor_id.split("-")[1]`. `Split`
  models Python's `str.split("-")`. `Join` is its inverse. `RoomIdOf`
  returns the second token, or `None` where Python raises `IndexError`.
- `valves.dfy` (module `Valves`): the per-room decision (`Decide`),
  `open_valve` / `close_valve`, and `update_valves`. `update_valves` is
  specified by the function `ValvePass` and implemented by the loop
  `UpdateValves`.
- `controller.dfy` (module `Heating`): topic dispatch, payload decoding, the
  insertion-ordered upsert, the whole handler as a function `Step`, and the
  class `Controller`. The class holds the dictionary (`order`, `rooms`) and
  the bus output (`published`). Its method `HandleMessage` is proved equal
  to `Step`.

Behaviour as the code has it, made explicit:

- A decode failure raises before the state is touched. The failures are: no
  JSON object, a missing `sensorID` or `value`, a non-string `sensorID`, or
  one without `-`. All of them end in the same HTTP 400 error (`Rejected`).
- Motion that was never reported counts as true (fail-open). Falsy motion
  closes. Otherwise the valve opens when the temperature is strictly below
  the desired one, so equality closes.
- The latent fault is modelled as written. With motion true or absent and no
  temperature seen, `state["temperature"]` raises `KeyError`
  (`Failure(MissingTemperature)`). A temperature that Python cannot compare
  with a float raises `TypeError` (`Failure(NotComparable)`). Either one
  stops the pass at that room. By then the reading has been stored and the
  earlier rooms have been commanded. Later rooms get nothing, on this
  reading and on every later reading until that room is decidable
  (`Valves.UndecidableRoomBlocksLaterRooms`).
- The desired temperature is a parameter of `Step` and a constant field of
  `Controller`. `Valves.DesiredRoomTemp` is the configured 22.0.

Further facts of the code that the model keeps. The reading topics carry a
leading `/`. The room key is a string, although it is annotated `int`. No
value is type-checked, so a temperature sent as a string is stored. The
decision runs over every room after each reading, not only over the
affected room. A missing temperature is given no policy: it raises.

## Model

| member | source | states |
|---|---|---|
| JsonValues.Truthy | app/main.py:134 | Python truthiness of a stored JSON value: `null`, `false`, zero, the empty string and empty containers are falsy (its consequences are stated by `Valves.MotionFalseCloses` and `Valves.DecideOpensIff`) |
| JsonValues.LessThan | app/main.py:135 | Python's `<` against a float: a bool compares as 0 or 1, a number numerically, anything else raises TypeError (`None`) (stated by `Valves.DecideOpensIff`) |
| SensorId.Split | app/main.py:93 | `str.split("-")`: always at least one token; characterised by `SensorId.SplitTokens`, `SensorId.JoinSplit` and `SensorId.SplitJoin` |
| SensorId.RoomIdOf | app/main.py:93 | `split("-")[1]`, or `None` where Python raises IndexError; characterised by `SensorId.RoomIdOfDefined`, `SensorId.RoomIdOfNamedRoom` and `SensorId.RoomIdOfHasShape` |
| Heating.TopicMetric | app/main.py:89-110 | the two reading topics select the field to update, any other topic none (stated by `Heating.StepIgnoresOtherTopics`) |
| Heating.Decode | app/main.py:90-97 | the `try` block of the handler: JSON object, `sensorID`, room key, `value`, with every failure mapped to the 400 error (stated by `Heating.DecodeNamedSensor`, `Heating.DecodedReadingHasShape` and `Heating.DecodeRejectsMalformed`) |
| Heating.NewRoom | app/main.py:99-100 | a new room's record holds only the reported field (stated by `Heating.UpsertUpdatesOneRoom`) |
| Heating.SetField | app/main.py:101-102 | a known room's record gets the reported field and keeps the other (stated by `Heating.UpsertUpdatesOneRoom`) |
| Heating.Upsert | app/main.py:120-123 | the insertion-ordered dictionary update (stated by `Heating.UpsertUpdatesOneRoom`, `Heating.UpsertIsIdempotent` and `Heating.UpsertFieldsCommute`) |
| Valves.Decide | app/main.py:134-140 | the decision for one room: close on falsy motion, otherwise KeyError without a temperature, TypeError when it does not compare, open strictly below the target (stated by `Valves.DecideOpensIff`) |
| Valves.ActuatorTopic | app/main.py:144 | `/actuators/room-<id>/set` (stated by `Valves.ActuatorTopicRoom` and `Valves.ActuatorTopicInjective`) |
| Valves.OpenValve | app/main.py:143-144 | level 100 on the room's actuator topic |
| Valves.CloseValve | app/main.py:147-148 | level 0 on the room's actuator topic |
| Valves.ValvePass | app/main.py:132-140 | the commands of one pass in insertion order, ending at the first room that raises (characterised by `Valves.ValvePassRoomByRoom`) |
| SensorId.SplitTokens | app/main.py:93 | `split("-")` has a second token exactly when the identifier contains `-`, and no token contains `-` |
| SensorId.JoinSplit | app/main.py:93 | joining the tokens of a split with `-` gives back the sensor identifier |
| SensorId.SplitJoin | app/main.py:93 | splitting a join of dash-free tokens gives back the tokens |
| SensorId.RoomIdOfDefined | app/main.py:93 | a room key exists exactly when the identifier contains `-`, and the key contains no `-` |
| SensorId.RoomIdOfNamedRoom | app/main.py:93 | an identifier `<prefix>-<room>` (optionally followed by `-...`) yields `room` as a string |
| SensorId.RoomIdOfHasShape | app/main.py:114 | conversely, every key returned comes from an identifier of that shape |
| Heating.DecodeNamedSensor | app/main.py:90-97 | a JSON object with a string `sensorID` naming a room and a `value` decodes to that room and value, with no type check on the value |
| Heating.DecodedReadingHasShape | app/main.py:111-118 | a decoded reading comes from a JSON object whose `value` is the reading's value and whose `sensorID` names its room |
| Heating.DecodeRejectsMalformed | app/main.py:91-97 | a missing `sensorID` or `value`, a non-string `sensorID` or one without `-` is rejected |
| Heating.UpsertUpdatesOneRoom | app/main.py:99-102 | a new room is appended to the insertion order holding only the reported field; a known room keeps its position and its other field; other rooms are unchanged; the store invariant is kept |
| Heating.UpsertIsIdempotent | app/main.py:123 | storing the same value twice is storing it once |
| Heating.UpsertFieldsCommute | app/main.py:120-123 | a temperature and a motion reading for one room, in either order, leave the same record holding both: no update is lost |
| Heating.Step | app/main.py:85-129 | a handled message keeps every room listed exactly once in the insertion order |
| Heating.StepIgnoresOtherTopics | app/main.py:89 | a topic other than the two reading topics changes no state and publishes nothing |
| Heating.StepRejectsUndecodable | app/main.py:110-118 | a payload that does not decode raises the 400 error with the state unchanged and nothing published |
| Heating.StepRoomsOnlyGrow | app/main.py:120-123 | a reading never removes a room, keeps the old insertion order as a prefix, adds at most one room and changes no other room's record |
| Heating.StepTemperatureReading | app/main.py:99-102 | a temperature reading sets the room's temperature and leaves its motion as it was (absent for a new room) |
| Heating.StepMotionReading | app/main.py:120-123 | a motion reading sets the room's motion and leaves its temperature as it was (absent for a new room) |
| Heating.StepCommandsEveryRoomOnce | app/main.py:129-140 | after a reading that raises nothing, exactly one command per room is published, in insertion order, on pairwise distinct topics covering every room, with the level the decision names |
| Heating.StepFailureKeepsUpdate | app/main.py:108 | a reading whose valve pass raises has still been stored, and the error is that of the first undecidable room, right after the commanded ones |
| Heating.StepReplayIsIdempotent | app/main.py:99-108 | delivering the same reading again leaves the same state and republishes the same commands |
| Heating.Controller.constructor | app/main.py:47 | the process starts with no rooms and nothing published |
| Heating.Controller.HandleMessage | app/main.py:85-129 | the handler's new dictionary, published messages and outcome are those of `Step`; what it publishes is appended to the bus |
| Valves.UpdateValves | app/main.py:132-140 | the loop publishes what `ValvePass` says, stopping at the first room whose decision raises |
| Valves.ValvePassRoomByRoom | app/main.py:133-140 | every room before the first failing one gets exactly its decided command, in order; the pass is complete exactly when nothing failed; a failure is the next room's error |
| Valves.CompletePassCommandsEachRoom | app/main.py:133-148 | a pass over distinct rooms that raises nothing commands every room exactly once, with its decided level, on pairwise distinct topics |
| Valves.UndecidableRoomBlocksLaterRooms | app/main.py:135 | a room that cannot be decided makes the pass fail, and no room at or after it is commanded |
| Valves.MotionFalseCloses | app/main.py:134 | falsy motion, such as `false`, closes the valve whatever the temperature |
| Valves.FailOpenStrictBoundary | app/main.py:134-138 | with motion true or absent, a numeric temperature opens strictly below the desired temperature and closes at or above it |
| Valves.MissingTemperatureFails | app/main.py:135 | with motion true or absent and no temperature seen, the decision raises KeyError |
| Valves.DecideOpensIff | app/main.py:134-140 | the decision opens exactly when motion permits and the temperature compares below the target, and fails exactly when motion permits and the temperature is missing or not comparable |
| Valves.ActuatorTopicInjective | app/main.py:143-148 | distinct rooms have distinct actuator topics |
| Valves.ActuatorTopicRoom | app/main.py:144 | the room key can be read back from its actuator topic |
| Heating.TemperatureThenMotionScenario | app/main.py:99-140 | a temperature below target and then motion true from `<prefix>-<id>` each open room `id`'s valve, and the room ends up holding both values |
| Heating.StringTemperatureThenMotionScenario | test_app/main.py:74-95 | a temperature sent as a string, then motion true, from `<prefix>-<id>`: the room holds both values and both readings raise TypeError with nothing published |
| Heating.SensorOneScenario | test_app/main.py:74-105 | with `sensor-1`, the string "10" and true, room "1" holds `{temperature: "10", motion: true}`, which the harness compares, and `/actuators/room-1/set` receives nothing because both readings raise TypeError |
| Heating.MotionFirstScenario | app/main.py:121 | motion before any temperature stores the room, publishes nothing and raises KeyError |
| Heating.StringTemperatureScenario | test_app/main.py:82 | a temperature sent as a string is stored unchecked, and the comparison raises TypeError before any command |

## Left out

- JSON and UTF-8 decoding (`json.loads`): the payload is given already parsed. `None` stands for one that does not parse. Duplicate keys and NaN/Infinity literals are not modelled.
- Floating point: JSON numbers are `real`, so rounding and NaN comparisons are not modelled.
- The FastAPI application, CORS middleware and `/health-check`: HTTP surface. The code's health check reports only the MQTT connection status, not the room state.
- MQTT configuration, connection, subscription and disconnection callbacks: transport. `mqtt.publish` is an append to `Controller.published`, and the JSON body `{"value": level}` is carried as the integer level.
- `async`/`await` and concurrent delivery: each message is handled as one atomic step.
- `print` logging: no behavioural content.
- The configuration file loading: only `DESIRED_ROOM_TEMP` (app/config.py:6) is used, as a parameter.
- The `type` field of a payload: the code reads it nowhere.
