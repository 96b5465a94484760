/**
  The valve decision of `update_valves` and the commands of `open_valve` /
  `close_valve`: for every room in insertion order, fail open on absent
  motion, compare the temperature strictly against the desired temperature,
  and publish level 100 or 0 on the room's actuator topic. A room whose
  decision raises stops the pass: the rooms before it have been commanded,
  the rooms after it are not.
 */
module Valves {
  import opened Wrappers
  import opened JsonValues

  /** A room key: the second token of a sensor identifier, a string. */
  type RoomId = string

  /** One room's record: each field is absent until its first reading. */
  datatype RoomState = RoomState(temperature: Option<Json>, motion: Option<Json>)

  /** The two levels a valve is commanded to. */
  datatype Level = Close | Open

  /** What `update_valves` raises for one room. */
  datatype ValveError =
    | MissingTemperature  // `state["temperature"]` raises KeyError
    | NotComparable       // `state["temperature"] < DESIRED_ROOM_TEMP` raises TypeError

  /** One `mqtt.publish(topic, json.dumps({"value": value}))`. */
  datatype Message = Message(topic: string, value: int)

  /** The outcome of one pass over the rooms: what was published, and what stopped it. */
  datatype Pass = Pass(sent: seq<Message>, failure: Option<ValveError>)

  /** `DESIRED_ROOM_TEMP` as configured. */
  const DesiredRoomTemp: real := 22.0

  const TopicHead: string := "/actuators/room-"
  const TopicTail: string := "/set"

  /** Motion permits heating when it was never reported (fail-open) or is truthy. */
  predicate MotionAllowsHeating(room: RoomState) {
    room.motion.None? || Truthy(room.motion.value)
  }

  /** The per-room decision of `update_valves`. */
  function Decide(room: RoomState, desired: real): Result<Level, ValveError> {
    if MotionAllowsHeating(room) then
      if room.temperature.None? then Failure(MissingTemperature)
      else
        match LessThan(room.temperature.value, desired)
        case None => Failure(NotComparable)
        case Some(below) => Success(if below then Open else Close)
    else
      Success(Close)
  }

  /** `f"/actuators/room-{room_id}/set"` */
  function ActuatorTopic(room: RoomId): string {
    TopicHead + room + TopicTail
  }

  /** The room key can be read back from its actuator topic. */
  lemma ActuatorTopicRoom(room: RoomId)
    ensures |ActuatorTopic(room)| == |TopicHead| + |room| + |TopicTail|
    ensures ActuatorTopic(room)[|TopicHead|..|TopicHead| + |room|] == room
  {
    var t := ActuatorTopic(room);
    assert t == TopicHead + (room + TopicTail);
    assert t[|TopicHead|..] == room + TopicTail;
    assert t[|TopicHead|..][..|room|] == room;
  }

  /** Distinct rooms have distinct actuator topics. */
  lemma ActuatorTopicInjective(a: RoomId, b: RoomId)
    ensures ActuatorTopic(a) == ActuatorTopic(b) <==> a == b
  {
    if ActuatorTopic(a) == ActuatorTopic(b) {
      ActuatorTopicRoom(a);
      ActuatorTopicRoom(b);
    }
  }

  /** `open_valve(room_id)` */
  function OpenValve(room: RoomId): Message {
    Message(ActuatorTopic(room), 100)
  }

  /** `close_valve(room_id)` */
  function CloseValve(room: RoomId): Message {
    Message(ActuatorTopic(room), 0)
  }

  /** The message that carries a decided level to a room's valve. */
  function Command(room: RoomId, level: Level): Message {
    if level == Open then OpenValve(room) else CloseValve(room)
  }

  /**
    What one `update_valves` pass over `order` publishes. Every room before
    the first failing one gets exactly the command its decision names, in
    order; the first failing room stops the pass and its error is reported.
   */
  function ValvePass(order: seq<RoomId>, rooms: map<RoomId, RoomState>, desired: real): Pass
    requires forall k :: k in order ==> k in rooms
    decreases |order|
  {
    if |order| == 0 then Pass([], None)
    else
      match Decide(rooms[order[0]], desired)
      case Failure(e) => Pass([], Some(e))
      case Success(level) =>
        var rest := ValvePass(order[1..], rooms, desired);
        Pass([Command(order[0], level)] + rest.sent, rest.failure)
  }

  /**
    `update_valves(state)`: walks the rooms in insertion order and collects
    the messages it publishes, stopping at the first room whose decision
    raises.
   */
  method UpdateValves(order: seq<RoomId>, rooms: map<RoomId, RoomState>, desired: real)
    returns (sent: seq<Message>, failure: Option<ValveError>)
    requires forall k :: k in order ==> k in rooms
    ensures Pass(sent, failure) == ValvePass(order, rooms, desired)
  {
    sent, failure := [], None;
    var i := 0;
    while i < |order|
      invariant 0 <= i <= |order|
      invariant ValvePass(order, rooms, desired)
        == Pass(sent + ValvePass(order[i..], rooms, desired).sent, ValvePass(order[i..], rooms, desired).failure)
    {
      var room := order[i];
      var state := rooms[room];
      ValvePassUnfold(order, rooms, desired, i);
      var msg: Message;
      if MotionAllowsHeating(state) {
        if state.temperature.None? {
          failure := Some(MissingTemperature);
          assert sent + [] == sent;
          return;
        }
        var below := LessThan(state.temperature.value, desired);
        if below.None? {
          failure := Some(NotComparable);
          assert sent + [] == sent;
          return;
        }
        msg := if below.value then OpenValve(room) else CloseValve(room);
      } else {
        msg := CloseValve(room);
      }
      assert Decide(state, desired).Success? && msg == Command(room, Decide(state, desired).value);
      ghost var rest := ValvePass(order[i + 1..], rooms, desired);
      assert (sent + [msg]) + rest.sent == sent + ([msg] + rest.sent);
      sent := sent + [msg];
      i := i + 1;
    }
    assert order[i..] == [];
  }

  /** One step of ValvePass from position `i` of the insertion order. */
  lemma ValvePassUnfold(order: seq<RoomId>, rooms: map<RoomId, RoomState>, desired: real, i: nat)
    requires forall k :: k in order ==> k in rooms
    requires i < |order|
    ensures ValvePass(order[i..], rooms, desired) ==
      match Decide(rooms[order[i]], desired)
      case Failure(e) => Pass([], Some(e))
      case Success(level) =>
        Pass([Command(order[i], level)] + ValvePass(order[i + 1..], rooms, desired).sent,
             ValvePass(order[i + 1..], rooms, desired).failure)
  {
    assert order[i..][0] == order[i] && order[i..][1..] == order[i + 1..];
  }

  /**
    ValvePass characterised room by room: every room before the first
    failing one gets exactly the command its decision names, in insertion
    order; the pass is complete exactly when nothing failed; and a failure
    is the error of the room right after the last command.
   */
  lemma {:induction false} ValvePassRoomByRoom(order: seq<RoomId>, rooms: map<RoomId, RoomState>, desired: real)
    requires forall k :: k in order ==> k in rooms
    ensures var r := ValvePass(order, rooms, desired);
      && |r.sent| <= |order|
      && (r.failure.None? <==> |r.sent| == |order|)
      && (forall i :: 0 <= i < |r.sent| ==>
            Decide(rooms[order[i]], desired).Success? &&
            r.sent[i] == Command(order[i], Decide(rooms[order[i]], desired).value))
      && (r.failure.Some? ==> Decide(rooms[order[|r.sent|]], desired) == Failure(r.failure.value))
    decreases |order|
  {
    if |order| > 0 && Decide(rooms[order[0]], desired).Success? {
      var tail := order[1..];
      ValvePassRoomByRoom(tail, rooms, desired);
      var rest := ValvePass(tail, rooms, desired);
      var r := ValvePass(order, rooms, desired);
      forall i | 1 <= i < |r.sent|
        ensures Decide(rooms[order[i]], desired).Success?
        ensures r.sent[i] == Command(order[i], Decide(rooms[order[i]], desired).value)
      {
        assert r.sent[i] == rest.sent[i - 1] && order[i] == tail[i - 1];
      }
      if r.failure.Some? {
        assert order[|r.sent|] == tail[|rest.sent|];
      }
    }
  }

  /**
    A pass over distinct rooms that raises nothing commands every room
    exactly once, on pairwise distinct actuator topics.
   */
  lemma CompletePassCommandsEachRoom(order: seq<RoomId>, rooms: map<RoomId, RoomState>, desired: real)
    requires forall k :: k in order ==> k in rooms
    requires forall i, j :: 0 <= i < j < |order| ==> order[i] != order[j]
    requires ValvePass(order, rooms, desired).failure.None?
    ensures var sent := ValvePass(order, rooms, desired).sent;
      && |sent| == |order|
      && (forall i :: 0 <= i < |sent| ==>
            Decide(rooms[order[i]], desired).Success? &&
            sent[i] == Command(order[i], Decide(rooms[order[i]], desired).value))
      && (forall i, j :: 0 <= i < j < |sent| ==> sent[i].topic != sent[j].topic)
      && (forall k :: k in order ==> exists i :: 0 <= i < |sent| && sent[i].topic == ActuatorTopic(k))
  {
    var sent := ValvePass(order, rooms, desired).sent;
    ValvePassRoomByRoom(order, rooms, desired);
    forall i, j | 0 <= i < j < |sent|
      ensures sent[i].topic != sent[j].topic
    {
      ActuatorTopicInjective(order[i], order[j]);
    }
    forall k | k in order
      ensures exists i :: 0 <= i < |sent| && sent[i].topic == ActuatorTopic(k)
    {
      var i :| 0 <= i < |order| && order[i] == k;
      assert sent[i].topic == ActuatorTopic(k);
    }
  }

  /** Explicitly false (or otherwise falsy) motion closes the valve whatever the temperature. */
  lemma MotionFalseCloses(room: RoomState, desired: real)
    requires room.motion.Some? && !Truthy(room.motion.value)
    ensures Decide(room, desired) == Success(Close)
  {
  }

  /** With motion true or absent, a numeric temperature opens strictly below the desired one. */
  lemma FailOpenStrictBoundary(t: real, motion: Option<Json>, desired: real)
    requires motion == None || motion == Some(JBool(true))
    ensures Decide(RoomState(Some(JNum(t)), motion), desired) == Success(if t < desired then Open else Close)
    ensures t == desired ==> Decide(RoomState(Some(JNum(t)), motion), desired) == Success(Close)
  {
  }

  /** The latent fault: motion true or absent with no temperature seen raises KeyError. */
  lemma MissingTemperatureFails(room: RoomState, desired: real)
    requires MotionAllowsHeating(room) && room.temperature.None?
    ensures Decide(room, desired) == Failure(MissingTemperature)
  {
  }

  /** The decision opens exactly when heating is permitted and the temperature is below the target. */
  lemma DecideOpensIff(room: RoomState, desired: real)
    ensures Decide(room, desired) == Success(Open) <==>
      MotionAllowsHeating(room) && room.temperature.Some? && LessThan(room.temperature.value, desired) == Some(true)
    ensures Decide(room, desired).Failure? <==>
      MotionAllowsHeating(room) && (room.temperature.None? || LessThan(room.temperature.value, desired).None?)
  {
  }

  /**
    A room that cannot be decided stops every pass at its position: no room
    after it in insertion order is commanded, and the pass fails.
   */
  lemma UndecidableRoomBlocksLaterRooms(order: seq<RoomId>, rooms: map<RoomId, RoomState>, desired: real, j: nat)
    requires forall k :: k in order ==> k in rooms
    requires j < |order| && Decide(rooms[order[j]], desired).Failure?
    ensures |ValvePass(order, rooms, desired).sent| <= j
    ensures ValvePass(order, rooms, desired).failure.Some?
  {
    ValvePassRoomByRoom(order, rooms, desired);
  }
}
