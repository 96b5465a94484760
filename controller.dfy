/**
  The MQTT `message` handler: topic dispatch, payload decoding, the per-room
  upsert into the insertion-ordered room dictionary, and the `update_valves`
  pass that follows every successful reading.
 */
module Heating {
  import opened Wrappers
  import opened JsonValues
  import opened SensorId
  import opened Valves

  /** The metric a reading topic carries. */
  datatype Metric = Temperature | Motion

  const TemperatureTopic: string := "/readings/temperature"
  const MotionTopic: string := "/readings/motion"

  /** The topic dispatch of `message`: any other topic is not handled. */
  function TopicMetric(topic: string): Option<Metric> {
    if topic == TemperatureTopic then Some(Temperature)
    else if topic == MotionTopic then Some(Motion)
    else None
  }

  /** A decoded reading: the room key and the untyped `value` field. */
  datatype Reading = Reading(room: RoomId, value: Json)

  /** `HTTPException(status_code=400, detail="MQTT message error")` */
  datatype DecodeError = MessageError

  /**
    The `try` block of `message`: `message["sensorID"]`, its
    `.split("-")[1]` and `message["value"]`. Every failure is the same
    error. `None` stands for a payload `json.loads` rejects.
   */
  function Decode(payload: Option<Json>): Result<Reading, DecodeError> {
    if payload.None? || !payload.value.JObject? then Failure(MessageError)
    else
      var fields := payload.value.fields;
      if "sensorID" !in fields || !fields["sensorID"].JStr? then Failure(MessageError)
      else
        match RoomIdOf(fields["sensorID"].s)
        case None => Failure(MessageError)
        case Some(room) =>
          if "value" !in fields then Failure(MessageError)
          else Success(Reading(room, fields["value"]))
  }

  /** A payload shaped like the sensors' decodes to the room its sensor identifier names. */
  lemma DecodeNamedSensor(fields: map<string, Json>, prefix: string, room: RoomId, suffix: string)
    requires "sensorID" in fields && fields["sensorID"].JStr?
    requires NamesRoom(fields["sensorID"].s, prefix, room, suffix)
    requires "value" in fields
    ensures Decode(Some(JObject(fields))) == Success(Reading(room, fields["value"]))
  {
    RoomIdOfNamedRoom(fields["sensorID"].s, prefix, room, suffix);
  }

  /** Conversely, a decoded reading always comes from such a payload. */
  lemma DecodedReadingHasShape(payload: Option<Json>, reading: Reading)
    requires Decode(payload) == Success(reading)
    ensures payload.Some? && payload.value.JObject?
    ensures "value" in payload.value.fields && payload.value.fields["value"] == reading.value
    ensures "sensorID" in payload.value.fields && payload.value.fields["sensorID"].JStr?
    ensures exists prefix, suffix :: NamesRoom(payload.value.fields["sensorID"].s, prefix, reading.room, suffix)
  {
    RoomIdOfHasShape(payload.value.fields["sensorID"].s, reading.room);
  }

  /** A missing `sensorID` or `value`, a non-string `sensorID`, or one without a dash is rejected. */
  lemma DecodeRejectsMalformed(fields: map<string, Json>)
    requires || "sensorID" !in fields
             || "value" !in fields
             || !fields["sensorID"].JStr?
             || Dash !in fields["sensorID"].s
    ensures Decode(Some(JObject(fields))).Failure?
  {
    if "sensorID" in fields && fields["sensorID"].JStr? {
      RoomIdOfDefined(fields["sensorID"].s);
    }
  }

  /**
    The module-global `state` dict: its keys in insertion order, and each
    room's record. Rooms are never removed.
   */
  datatype Store = Store(order: seq<RoomId>, rooms: map<RoomId, RoomState>) {
    /** Each room appears once in the insertion order, and the order lists exactly the rooms. */
    predicate Valid() {
      && (forall i, j :: 0 <= i < j < |order| ==> order[i] != order[j])
      && (forall k :: k in rooms ==> k in order)
      && (forall k :: k in order ==> k in rooms)
    }
  }

  /** The record created for a room's first reading: only the reported field is present. */
  function NewRoom(metric: Metric, value: Json): RoomState {
    match metric
    case Temperature => RoomState(Some(value), None)
    case Motion => RoomState(None, Some(value))
  }

  /** `state[room_id]["temperature"] = value` or `state[room_id]["motion"] = value`. */
  function SetField(room: RoomState, metric: Metric, value: Json): RoomState {
    match metric
    case Temperature => room.(temperature := Some(value))
    case Motion => room.(motion := Some(value))
  }

  /** The upsert of `message`, `state[room_id] = {...}` or `state[room_id][field] = value`. */
  function Upsert(s: Store, room: RoomId, metric: Metric, value: Json): Store {
    if room !in s.rooms then Store(s.order + [room], s.rooms[room := NewRoom(metric, value)])
    else Store(s.order, s.rooms[room := SetField(s.rooms[room], metric, value)])
  }

  /**
    A room is created lazily at the end of the insertion order holding only
    the reported field; a known room keeps its position and its other field;
    no other room changes; the store stays valid.
   */
  lemma UpsertUpdatesOneRoom(s: Store, room: RoomId, metric: Metric, value: Json)
    ensures var r := Upsert(s, room, metric, value);
      && (s.Valid() ==> r.Valid())
      && r.order == (if room in s.rooms then s.order else s.order + [room])
      && r.rooms.Keys == s.rooms.Keys + {room}
      && (forall k :: k in s.rooms && k != room ==> r.rooms[k] == s.rooms[k])
      && (metric == Temperature ==>
            r.rooms[room] == RoomState(Some(value), if room in s.rooms then s.rooms[room].motion else None))
      && (metric == Motion ==>
            r.rooms[room] == RoomState(if room in s.rooms then s.rooms[room].temperature else None, Some(value)))
  {
    var r := Upsert(s, room, metric, value);
    if s.Valid() && room !in s.rooms {
      forall i, j | 0 <= i < j < |r.order|
        ensures r.order[i] != r.order[j]
      {
        if j == |s.order| {
          assert r.order[i] == s.order[i];
        }
      }
    }
  }

  /** Readings of the two fields of one room, in either order, leave the same record: no update is lost. */
  lemma UpsertFieldsCommute(s: Store, room: RoomId, t: Json, m: Json)
    ensures Upsert(Upsert(s, room, Temperature, t), room, Motion, m)
         == Upsert(Upsert(s, room, Motion, m), room, Temperature, t)
    ensures Upsert(Upsert(s, room, Temperature, t), room, Motion, m).rooms[room] == RoomState(Some(t), Some(m))
  {
    var order := if room in s.rooms then s.order else s.order + [room];
    var both := Store(order, s.rooms[room := RoomState(Some(t), Some(m))]);
    assert Upsert(Upsert(s, room, Temperature, t), room, Motion, m) == both;
    assert Upsert(Upsert(s, room, Motion, m), room, Temperature, t) == both;
  }

  /** How `message` ended: returned normally, raised the 400 error, or raised in `update_valves`. */
  datatype Outcome = Done | Rejected | Failed(error: ValveError)

  /** The new state, the messages published, and how the handler ended. */
  datatype StepResult = StepResult(store: Store, sent: seq<Message>, outcome: Outcome)

  /** One call of `message(client, topic, payload, ...)` against the state `s`. */
  function Step(s: Store, topic: string, payload: Option<Json>, desired: real): (r: StepResult)
    requires s.Valid()
    ensures r.store.Valid()
  {
    match TopicMetric(topic)
    case None => StepResult(s, [], Done)
    case Some(metric) =>
      match Decode(payload)
      case Failure(_) => StepResult(s, [], Rejected)
      case Success(reading) =>
        var s' := Upsert(s, reading.room, metric, reading.value);
        UpsertUpdatesOneRoom(s, reading.room, metric, reading.value);
        var pass := ValvePass(s'.order, s'.rooms, desired);
        StepResult(s', pass.sent, if pass.failure.None? then Done else Failed(pass.failure.value))
  }

  /** A topic other than the two reading topics changes nothing and publishes nothing. */
  lemma StepIgnoresOtherTopics(s: Store, topic: string, payload: Option<Json>, desired: real)
    requires s.Valid()
    requires topic != TemperatureTopic && topic != MotionTopic
    ensures Step(s, topic, payload, desired) == StepResult(s, [], Done)
  {
  }

  /** A payload that fails to decode raises before the state is touched: nothing changes, nothing is published. */
  lemma StepRejectsUndecodable(s: Store, topic: string, payload: Option<Json>, desired: real)
    requires s.Valid()
    requires topic == TemperatureTopic || topic == MotionTopic
    requires Decode(payload).Failure?
    ensures Step(s, topic, payload, desired) == StepResult(s, [], Rejected)
  {
  }

  /**
    Rooms only grow: the state stays valid, the old insertion order is a
    prefix of the new one, at most one room is added, and every room other
    than the reading's keeps its record.
   */
  lemma StepRoomsOnlyGrow(s: Store, topic: string, payload: Option<Json>, desired: real)
    requires s.Valid()
    ensures var r := Step(s, topic, payload, desired).store;
      && r.Valid()
      && |s.order| <= |r.order| <= |s.order| + 1
      && r.order[..|s.order|] == s.order
      && s.rooms.Keys <= r.rooms.Keys
      && (forall k :: k in s.rooms && (Decode(payload).Failure? || k != Decode(payload).value.room)
            ==> r.rooms[k] == s.rooms[k])
  {
    if TopicMetric(topic).Some? && Decode(payload).Success? {
      var reading, metric := Decode(payload).value, TopicMetric(topic).value;
      StepOnReading(s, topic, payload, desired, metric, reading);
      UpsertUpdatesOneRoom(s, reading.room, metric, reading.value);
      assert (s.order + [reading.room])[..|s.order|] == s.order;
    } else {
      assert s.order[..|s.order|] == s.order;
    }
  }

  /** A temperature reading sets the room's temperature and keeps its motion (absent for a new room). */
  lemma StepTemperatureReading(s: Store, payload: Option<Json>, desired: real, reading: Reading)
    requires s.Valid()
    requires Decode(payload) == Success(reading)
    ensures var r := Step(s, TemperatureTopic, payload, desired).store;
      && reading.room in r.rooms
      && r.rooms[reading.room].temperature == Some(reading.value)
      && r.rooms[reading.room].motion == (if reading.room in s.rooms then s.rooms[reading.room].motion else None)
  {
    StepOnReading(s, TemperatureTopic, payload, desired, Temperature, reading);
    UpsertUpdatesOneRoom(s, reading.room, Temperature, reading.value);
  }

  /** A motion reading sets the room's motion and keeps its temperature (absent for a new room). */
  lemma StepMotionReading(s: Store, payload: Option<Json>, desired: real, reading: Reading)
    requires s.Valid()
    requires Decode(payload) == Success(reading)
    ensures var r := Step(s, MotionTopic, payload, desired).store;
      && reading.room in r.rooms
      && r.rooms[reading.room].motion == Some(reading.value)
      && r.rooms[reading.room].temperature == (if reading.room in s.rooms then s.rooms[reading.room].temperature else None)
  {
    StepOnReading(s, MotionTopic, payload, desired, Motion, reading);
    UpsertUpdatesOneRoom(s, reading.room, Motion, reading.value);
  }

  /**
    After a successful reading that raises nothing, exactly one command per
    room has been published, in insertion order, on that room's own
    actuator topic, with the level its decision names.
   */
  lemma StepCommandsEveryRoomOnce(s: Store, topic: string, payload: Option<Json>, desired: real)
    requires s.Valid()
    requires TopicMetric(topic).Some? && Decode(payload).Success?
    requires Step(s, topic, payload, desired).outcome == Done
    ensures var r := Step(s, topic, payload, desired);
      && |r.sent| == |r.store.order|
      && (forall i :: 0 <= i < |r.sent| ==>
            Decide(r.store.rooms[r.store.order[i]], desired).Success? &&
            r.sent[i] == Command(r.store.order[i], Decide(r.store.rooms[r.store.order[i]], desired).value))
      && (forall i, j :: 0 <= i < j < |r.sent| ==> r.sent[i].topic != r.sent[j].topic)
      && (forall room :: room in r.store.rooms ==>
            exists i :: 0 <= i < |r.sent| && r.sent[i].topic == ActuatorTopic(room))
  {
    var reading, metric := Decode(payload).value, TopicMetric(topic).value;
    StepOnReading(s, topic, payload, desired, metric, reading);
    var s' := Upsert(s, reading.room, metric, reading.value);
    CompletePassCommandsEachRoom(s'.order, s'.rooms, desired);
  }

  /**
    A reading that raises in `update_valves` has still updated the state
    and published the commands of the rooms before the failing one.
   */
  lemma StepFailureKeepsUpdate(s: Store, topic: string, payload: Option<Json>, desired: real)
    requires s.Valid()
    requires TopicMetric(topic).Some? && Decode(payload).Success?
    requires Step(s, topic, payload, desired).outcome.Failed?
    ensures var r := Step(s, topic, payload, desired);
      && r.store == Upsert(s, Decode(payload).value.room, TopicMetric(topic).value, Decode(payload).value.value)
      && |r.sent| < |r.store.order|
      && (forall i :: 0 <= i < |r.sent| ==>
            Decide(r.store.rooms[r.store.order[i]], desired).Success? &&
            r.sent[i] == Command(r.store.order[i], Decide(r.store.rooms[r.store.order[i]], desired).value))
      && Decide(r.store.rooms[r.store.order[|r.sent|]], desired) == Failure(r.outcome.error)
  {
    var r := Step(s, topic, payload, desired);
    ValvePassRoomByRoom(r.store.order, r.store.rooms, desired);
  }

  /** Delivering the same reading twice leaves the same state and republishes the same commands. */
  lemma StepReplayIsIdempotent(s: Store, topic: string, payload: Option<Json>, desired: real)
    requires s.Valid()
    ensures var r1 := Step(s, topic, payload, desired);
      Step(r1.store, topic, payload, desired) == r1
  {
    var r1 := Step(s, topic, payload, desired);
    if TopicMetric(topic).Some? && Decode(payload).Success? {
      var reading, metric := Decode(payload).value, TopicMetric(topic).value;
      StepOnReading(s, topic, payload, desired, metric, reading);
      StepOnReading(r1.store, topic, payload, desired, metric, reading);
      UpsertIsIdempotent(s, reading.room, metric, reading.value);
    }
  }

  /** Storing the same value twice is storing it once. */
  lemma UpsertIsIdempotent(s: Store, room: RoomId, metric: Metric, value: Json)
    ensures Upsert(Upsert(s, room, metric, value), room, metric, value) == Upsert(s, room, metric, value)
  {
    var r := Upsert(s, room, metric, value);
    assert SetField(r.rooms[room], metric, value) == r.rooms[room];
  }

  /**
    The controller process: the room dictionary, the configured desired
    temperature and everything published on the bus so far.
   */
  class Controller {
    const desired: real
    var order: seq<RoomId>
    var rooms: map<RoomId, RoomState>
    var published: seq<Message>

    /** The room dictionary as a value. */
    function Snapshot(): Store
      reads this
    {
      Store(order, rooms)
    }

    ghost predicate Valid()
      reads this
    {
      Snapshot().Valid()
    }

    /** A process that has received nothing yet. */
    constructor(desired: real)
      ensures Valid()
      ensures this.desired == desired
      ensures order == [] && rooms == map[] && published == []
    {
      this.desired := desired;
      order, rooms, published := [], map[], [];
    }

    /**
      `message(client, topic, payload, ...)`: dispatch on the topic, decode
      the payload, upsert the room, then run `update_valves`, appending what
      it publishes to the bus.
     */
    method HandleMessage(topic: string, payload: Option<Json>) returns (sent: seq<Message>, outcome: Outcome)
      requires Valid()
      modifies this
      ensures Valid()
      ensures StepResult(Snapshot(), sent, outcome) == Step(old(Snapshot()), topic, payload, desired)
      ensures published == old(published) + sent
    {
      var metric := TopicMetric(topic);
      if metric.None? {
        return [], Done;
      }
      var decoded := Decode(payload);
      if decoded.Failure? {
        return [], Rejected;
      }
      var room, value := decoded.value.room, decoded.value.value;
      if room !in rooms {
        rooms := rooms[room := NewRoom(metric.value, value)];
        order := order + [room];
      } else {
        rooms := rooms[room := SetField(rooms[room], metric.value, value)];
      }
      assert Snapshot() == Upsert(old(Snapshot()), room, metric.value, value);
      StepOnReading(old(Snapshot()), topic, payload, desired, metric.value, decoded.value);
      var failure;
      sent, failure := UpdateValves(order, rooms, desired);
      published := published + sent;
      outcome := if failure.None? then Done else Failed(failure.value);
    }
  }

  /** One call of the handler on a recognised topic and a payload that decodes. */
  lemma StepOnReading(s: Store, topic: string, payload: Option<Json>, desired: real, metric: Metric, reading: Reading)
    requires s.Valid()
    requires TopicMetric(topic) == Some(metric) && Decode(payload) == Success(reading)
    ensures var s' := Upsert(s, reading.room, metric, reading.value);
      var pass := ValvePass(s'.order, s'.rooms, desired);
      Step(s, topic, payload, desired) == StepResult(s', pass.sent, if pass.failure.None? then Done else Failed(pass.failure.value))
  {
  }

  /** The payload a sensor sends: `{"sensorID": ..., "type": ..., "value": ...}`. */
  function SensorPayload(sensorId: string, kind: string, value: Json): Option<Json> {
    Some(JObject(map["sensorID" := JStr(sensorId), "type" := JStr(kind), "value" := value]))
  }

  /** The pass over a store holding a single room. */
  lemma SingleRoomPass(id: RoomId, room: RoomState, desired: real)
    ensures ValvePass([id], map[id := room], desired) ==
      match Decide(room, desired)
      case Failure(e) => Pass([], Some(e))
      case Success(level) => Pass([Command(id, level)], None)
  {
    var order: seq<RoomId> := [id];
    assert order[1..] == [];
  }

  /** The first reading ever received, from a sensor named `<prefix>-<id>`. */
  lemma FirstReading(prefix: string, id: RoomId, topic: string, metric: Metric, kind: string, value: Json, desired: real)
    requires Dash !in prefix && Dash !in id
    requires TopicMetric(topic) == Some(metric)
    ensures var r := Step(Store([], map[]), topic, SensorPayload(prefix + [Dash] + id, kind, value), desired);
      && r.store == Store([id], map[id := NewRoom(metric, value)])
      && r.sent == (if Decide(NewRoom(metric, value), desired).Success?
                    then [Command(id, Decide(NewRoom(metric, value), desired).value)] else [])
      && r.outcome == (if Decide(NewRoom(metric, value), desired).Success?
                       then Done else Failed(Decide(NewRoom(metric, value), desired).error))
  {
    var sensorId := prefix + [Dash] + id;
    assert NamesRoom(sensorId, prefix, id, "") by { assert sensorId + "" == sensorId; }
    var p := SensorPayload(sensorId, kind, value);
    DecodeNamedSensor(p.value.fields, prefix, id, "");
    StepOnReading(Store([], map[]), topic, p, desired, metric, Reading(id, value));
    assert Upsert(Store([], map[]), id, metric, value) == Store([id], map[id := NewRoom(metric, value)]);
    SingleRoomPass(id, NewRoom(metric, value), desired);
  }

  /** A further reading, from a sensor named `<prefix>-<id>`, into a store holding only room `id`. */
  lemma KnownRoomReading(prefix: string, id: RoomId, room: RoomState, topic: string, metric: Metric, kind: string, value: Json, desired: real)
    requires Dash !in prefix && Dash !in id
    requires TopicMetric(topic) == Some(metric)
    ensures var r := Step(Store([id], map[id := room]), topic, SensorPayload(prefix + [Dash] + id, kind, value), desired);
      && r.store == Store([id], map[id := SetField(room, metric, value)])
      && r.sent == (if Decide(SetField(room, metric, value), desired).Success?
                    then [Command(id, Decide(SetField(room, metric, value), desired).value)] else [])
      && r.outcome == (if Decide(SetField(room, metric, value), desired).Success?
                       then Done else Failed(Decide(SetField(room, metric, value), desired).error))
  {
    var sensorId := prefix + [Dash] + id;
    assert NamesRoom(sensorId, prefix, id, "") by { assert sensorId + "" == sensorId; }
    var p := SensorPayload(sensorId, kind, value);
    DecodeNamedSensor(p.value.fields, prefix, id, "");
    var s := Store([id], map[id := room]);
    StepOnReading(s, topic, p, desired, metric, Reading(id, value));
    assert Upsert(s, id, metric, value) == Store([id], map[id := SetField(room, metric, value)]);
    SingleRoomPass(id, SetField(room, metric, value), desired);
  }

  /**
    A temperature `t` below the desired temperature, then motion true, from
    a sensor named `<prefix>-<id>`: both readings open the valve of room
    `id`, which ends up holding both values.
   */
  lemma TemperatureThenMotionScenario(prefix: string, id: RoomId, t: real, desired: real)
    requires Dash !in prefix && Dash !in id
    requires t < desired
    ensures var sensorId := prefix + [Dash] + id;
      var r1 := Step(Store([], map[]), TemperatureTopic, SensorPayload(sensorId, "temperature", JNum(t)), desired);
      var r2 := Step(r1.store, MotionTopic, SensorPayload(sensorId, "motion", JBool(true)), desired);
      && r1.sent == [Message(ActuatorTopic(id), 100)] && r1.outcome == Done
      && r2.sent == [Message(ActuatorTopic(id), 100)] && r2.outcome == Done
      && r2.store == Store([id], map[id := RoomState(Some(JNum(t)), Some(JBool(true)))])
  {
    FirstReading(prefix, id, TemperatureTopic, Temperature, "temperature", JNum(t), desired);
    KnownRoomReading(prefix, id, RoomState(Some(JNum(t)), None), MotionTopic, Motion, "motion", JBool(true), desired);
  }

  /**
    Motion before any temperature from a sensor named `<prefix>-<id>`: the
    room is stored, but `update_valves` raises KeyError and publishes nothing.
   */
  lemma MotionFirstScenario(prefix: string, id: RoomId, desired: real)
    requires Dash !in prefix && Dash !in id
    ensures var r := Step(Store([], map[]), MotionTopic, SensorPayload(prefix + [Dash] + id, "motion", JBool(true)), desired);
      && r.store == Store([id], map[id := RoomState(None, Some(JBool(true)))])
      && r.sent == []
      && r.outcome == Failed(MissingTemperature)
  {
    FirstReading(prefix, id, MotionTopic, Motion, "motion", JBool(true), desired);
  }

  /**
    A temperature sent as a JSON string is stored unchecked, and the
    comparison in `update_valves` then raises TypeError before any command.
   */
  lemma StringTemperatureScenario(prefix: string, id: RoomId, kind: string, text: string, desired: real)
    requires Dash !in prefix && Dash !in id
    ensures var r := Step(Store([], map[]), TemperatureTopic, SensorPayload(prefix + [Dash] + id, kind, JStr(text)), desired);
      && r.store == Store([id], map[id := RoomState(Some(JStr(text)), None)])
      && r.sent == []
      && r.outcome == Failed(NotComparable)
  {
    FirstReading(prefix, id, TemperatureTopic, Temperature, kind, JStr(text), desired);
  }

  /**
    A temperature sent as the JSON string `text`, then motion true, from a
    sensor named `<prefix>-<id>`: the room ends up holding the string and
    `true`, and both readings raise TypeError in `update_valves` before
    any command.
   */
  lemma StringTemperatureThenMotionScenario(prefix: string, id: RoomId, text: string, desired: real)
    requires Dash !in prefix && Dash !in id
    ensures var sensorId := prefix + [Dash] + id;
      var r1 := Step(Store([], map[]), TemperatureTopic, SensorPayload(sensorId, "temperature", JStr(text)), desired);
      var r2 := Step(r1.store, MotionTopic, SensorPayload(sensorId, "motion", JBool(true)), desired);
      && r1.sent == [] && r1.outcome == Failed(NotComparable)
      && r2.sent == [] && r2.outcome == Failed(NotComparable)
      && r2.store == Store([id], map[id := RoomState(Some(JStr(text)), Some(JBool(true)))])
  {
    FirstReading(prefix, id, TemperatureTopic, Temperature, "temperature", JStr(text), desired);
    KnownRoomReading(prefix, id, RoomState(Some(JStr(text)), None), MotionTopic, Motion, "motion", JBool(true), desired);
  }

  /**
    The end-to-end case of the test harness: `sensor-1` reports the
    temperature as the string "10", then motion true. Room "1" holds
    `{temperature: "10", motion: true}`, which is what the harness compares,
    but no command reaches `/actuators/room-1/set`: both readings raise
    TypeError.
   */
  lemma SensorOneScenario()
    ensures var r1 := Step(Store([], map[]), TemperatureTopic, SensorPayload("sensor-1", "temperature", JStr("10")), DesiredRoomTemp);
      var r2 := Step(r1.store, MotionTopic, SensorPayload("sensor-1", "motion", JBool(true)), DesiredRoomTemp);
      && r1.sent == [] && r1.outcome == Failed(NotComparable)
      && r2.sent == [] && r2.outcome == Failed(NotComparable)
      && r2.store == Store(["1"], map["1" := RoomState(Some(JStr("10")), Some(JBool(true)))])
  {
    assert "sensor" + [Dash] + "1" == "sensor-1";
    StringTemperatureThenMotionScenario("sensor", "1", "10", DesiredRoomTemp);
  }
}
