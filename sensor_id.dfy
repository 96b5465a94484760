/**
  Room-key extraction from a sensor identifier: `sensor_id.split("-")[1]`.
  The key is the second `-`-separated token, kept as a string; a sensor
  identifier without `-` has no second token (`IndexError`).
 */
module SensorId {
  import opened Wrappers

  const Dash: char := '-'

  /** Python's `s.split("-")`: every dash separates, and empty tokens are kept. */
  function Split(s: string): (parts: seq<string>)
    ensures |parts| >= 1
  {
    if s == [] then [""]
    else
      if s[0] == Dash then [""] + Split(s[1..])
      else
        var rest := Split(s[1..]);
        [[s[0]] + rest[0]] + rest[1..]
  }

  /** Python's `"-".join(parts)`: the inverse of Split. */
  function Join(parts: seq<string>): string {
    if |parts| == 0 then ""
    else if |parts| == 1 then parts[0]
    else parts[0] + [Dash] + Join(parts[1..])
  }

  /**
    The room key of a sensor identifier, `sensor_id.split("-")[1]`;
    None where Python raises `IndexError`.
   */
  function RoomIdOf(sensorId: string): Option<string> {
    var parts := Split(sensorId);
    if |parts| >= 2 then Some(parts[1]) else None
  }

  /** A split has a second token exactly when the string holds a dash, and no token holds one. */
  lemma {:induction false} SplitTokens(s: string)
    ensures |Split(s)| >= 2 <==> Dash in s
    ensures forall i :: 0 <= i < |Split(s)| ==> Dash !in Split(s)[i]
    decreases |s|
  {
    if s != [] {
      SplitTokens(s[1..]);
      assert s == [s[0]] + s[1..];
      var rest := Split(s[1..]);
      if s[0] != Dash {
        var parts := Split(s);
        assert parts == [[s[0]] + rest[0]] + rest[1..];
        forall i | 0 <= i < |parts|
          ensures Dash !in parts[i]
        {
          if i > 0 {
            assert parts[i] == rest[i];
          }
        }
      }
    }
  }

  /** A room key exists exactly when the identifier holds a dash, and it holds none itself. */
  lemma RoomIdOfDefined(sensorId: string)
    ensures RoomIdOf(sensorId).Some? <==> Dash in sensorId
    ensures RoomIdOf(sensorId).Some? ==> Dash !in RoomIdOf(sensorId).value
  {
    SplitTokens(sensorId);
  }

  /** A dash-free head is glued to the first token of whatever follows it. */
  lemma {:induction false} SplitDashFreePrefix(p: string, t: string)
    requires Dash !in p
    ensures Split(p + t) == [p + Split(t)[0]] + Split(t)[1..]
    decreases |p|
  {
    if p != [] {
      assert (p + t)[0] == p[0];
      assert (p + t)[1..] == p[1..] + t;
      SplitDashFreePrefix(p[1..], t);
      assert [p[0]] + (p[1..] + Split(t)[0]) == p + Split(t)[0];
    } else {
      var parts := Split(t);
      assert p + t == t && p + parts[0] == parts[0];
      assert parts == [parts[0]] + parts[1..];
    }
  }

  /** A leading dash starts a new, empty, first token. */
  lemma SplitLeadingDash(t: string)
    ensures Split([Dash] + t) == [""] + Split(t)
  {
    assert ([Dash] + t)[1..] == t;
  }

  /** Joining the tokens of a split gives back the original string. */
  lemma {:induction false} JoinSplit(s: string)
    ensures Join(Split(s)) == s
    decreases |s|
  {
    if s != [] {
      JoinSplit(s[1..]);
      var rest := Split(s[1..]);
      if s[0] == Dash {
        var parts := [""] + rest;
        assert parts[1..] == rest;
        assert Join(parts) == "" + [Dash] + Join(rest);
      } else {
        var parts := [[s[0]] + rest[0]] + rest[1..];
        if |rest| == 1 {
          assert Join(parts) == [s[0]] + rest[0];
        } else {
          assert parts[1..] == rest[1..];
          assert Join(rest) == rest[0] + [Dash] + Join(rest[1..]);
          assert Join(parts) == [s[0]] + rest[0] + [Dash] + Join(rest[1..]);
        }
        assert s == [s[0]] + s[1..];
      }
    }
  }

  /** Splitting a join of dash-free tokens gives back the tokens. */
  lemma {:induction false} SplitJoin(parts: seq<string>)
    requires |parts| >= 1
    requires forall i :: 0 <= i < |parts| ==> Dash !in parts[i]
    ensures Split(Join(parts)) == parts
    decreases |parts|
  {
    if |parts| == 1 {
      SplitDashFreePrefix(parts[0], "");
      assert parts[0] + "" == parts[0];
    } else {
      var tail := Join(parts[1..]);
      SplitJoin(parts[1..]);
      assert parts[0] + [Dash] + tail == parts[0] + ([Dash] + tail);
      SplitDashFreePrefix(parts[0], [Dash] + tail);
      SplitLeadingDash(tail);
      assert parts[0] + "" == parts[0];
      assert parts == [parts[0]] + parts[1..];
    }
  }

  /** The shape `<prefix>-<room><suffix>` in which a sensor identifier names `room`. */
  predicate NamesRoom(sensorId: string, prefix: string, room: string, suffix: string) {
    && sensorId == prefix + [Dash] + room + suffix
    && Dash !in prefix
    && Dash !in room
    && (suffix == [] || suffix[0] == Dash)
  }

  /** A sensor identifier of the shape `<prefix>-<room><suffix>` yields `room`. */
  lemma RoomIdOfNamedRoom(sensorId: string, prefix: string, room: string, suffix: string)
    requires NamesRoom(sensorId, prefix, room, suffix)
    ensures RoomIdOf(sensorId) == Some(room)
  {
    SecondTokenAfterDash(room, suffix);
    assert sensorId == prefix + ([Dash] + (room + suffix));
    SplitDashFreePrefix(prefix, [Dash] + (room + suffix));
  }

  /** After a dash, a dash-free `room` ending at a dash or at the end is the second token. */
  lemma SecondTokenAfterDash(room: string, suffix: string)
    requires Dash !in room
    requires suffix == [] || suffix[0] == Dash
    ensures |Split([Dash] + (room + suffix))| >= 2
    ensures Split([Dash] + (room + suffix))[1] == room
  {
    var tail := Split(suffix);
    assert tail[0] == "" by {
      if suffix == [] {
        assert Split(suffix) == [""];
      } else {
        assert suffix == [Dash] + suffix[1..];
        SplitLeadingDash(suffix[1..]);
      }
    }
    SplitDashFreePrefix(room, suffix);
    assert room + "" == room;
    SplitLeadingDash(room + suffix);
  }

  /** Conversely, every room key RoomIdOf returns comes from that shape. */
  lemma RoomIdOfHasShape(sensorId: string, room: string)
    requires RoomIdOf(sensorId) == Some(room)
    ensures exists prefix, suffix :: NamesRoom(sensorId, prefix, room, suffix)
  {
    var parts := Split(sensorId);
    JoinSplit(sensorId);
    SplitTokens(sensorId);
    var rest := parts[1..];
    assert Join(parts) == parts[0] + [Dash] + Join(rest);
    var suffix: string;
    if |rest| == 1 {
      suffix := "";
      assert Join(rest) == room + suffix;
    } else {
      suffix := [Dash] + Join(rest[1..]);
      assert Join(rest) == room + suffix;
    }
    assert sensorId == parts[0] + [Dash] + room + suffix;
    assert NamesRoom(sensorId, parts[0], room, suffix);
  }
}
