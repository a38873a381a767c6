/**
 * Rooms, their heat-recovery-ventilation (HRV) valves and the manager that
 * picks the room driving the boiler (rootfs/app/room_manager.py).
 *
 * Valves, rooms and the manager are objects updated in place, so they are
 * classes.  The dataclass fields that the code never reassigns are `const`;
 * the room's `currentTemp`, the valve's `currentPosition` and each valve's
 * PID controller are the mutable state.
 */
module RoomControl {
  import opened Common
  import opened PidControl

  /** The lower and upper valve position, in percent. */
  const PositionLimits: (real, real) := (0.0, 100.0)

  /** One HRV valve with its own PID controller (dataclass HRVValve). */
  class HRVValve {
    const name: string
    const valveEntity: string
    const kp: real
    const ki: real
    const kd: real
    var currentPosition: real
    const pid: PIDController

    /** A closed valve whose controller aims at a zero error and outputs 0..100. */
    constructor (name: string, valveEntity: string, kp: real, ki: real, kd: real)
      ensures this.name == name && this.valveEntity == valveEntity
      ensures this.kp == kp && this.ki == ki && this.kd == kd
      ensures currentPosition == 0.0
      ensures fresh(pid) && pid.Valid()
      ensures pid.State() == Initial(kp, ki, kd, 0.0, PositionLimits)
    {
      this.name := name;
      this.valveEntity := valveEntity;
      this.kp := kp;
      this.ki := ki;
      this.kd := kd;
      currentPosition := 0.0;
      pid := new PIDController(kp, ki, kd, 0.0, PositionLimits);
    }
  }

  /** A room with its target, its last reading and its valves (dataclass Room). */
  class Room {
    const name: string
    const targetTemp: real
    const currentTempSensor: string
    const hrvEntity: string
    const hrvValves: seq<HRVValve>
    var currentTemp: Option<real>

    /** A room without a reading yet. */
    constructor (name: string, targetTemp: real, currentTempSensor: string, hrvEntity: string,
                 hrvValves: seq<HRVValve>)
      ensures this.name == name && this.targetTemp == targetTemp
      ensures this.currentTempSensor == currentTempSensor && this.hrvEntity == hrvEntity
      ensures this.hrvValves == hrvValves
      ensures currentTemp == None
    {
      this.name := name;
      this.targetTemp := targetTemp;
      this.currentTempSensor := currentTempSensor;
      this.hrvEntity := hrvEntity;
      this.hrvValves := hrvValves;
      currentTemp := None;
    }

    /** The PID controllers of this room's valves. */
    ghost function Pids(): set<PIDController> {
      set v | v in hrvValves :: v.pid
    }

    /** Every valve owns a controller of its own, and each controller is well formed. */
    ghost predicate Valid()
      reads Pids()
    {
      (forall a, b :: 0 <= a < |hrvValves| && 0 <= b < |hrvValves| && a != b ==>
         hrvValves[a].pid != hrvValves[b].pid)
      && (forall a :: 0 <= a < |hrvValves| ==> hrvValves[a].pid.Valid())
    }

    /** How far the reading is from the target, in either direction; 0 without a reading. */
    function TemperatureDifference(): (d: real)
      reads this
      ensures d >= 0.0
      ensures currentTemp.None? ==> d == 0.0
      ensures currentTemp.Some? && currentTemp.value <= targetTemp ==> d == targetTemp - currentTemp.value
      ensures currentTemp.Some? && currentTemp.value > targetTemp ==> d == currentTemp.value - targetTemp
    {
      match currentTemp
      case None => 0.0
      case Some(current) =>
        if targetTemp - current < 0.0 then current - targetTemp else targetTemp - current
    }

    /** A room needs heat when it has a reading strictly below its target. */
    function NeedsHeating(): (b: bool)
      reads this
      ensures b <==> currentTemp.Some? && currentTemp.value < targetTemp
      ensures b ==> TemperatureDifference() > 0.0
    {
      match currentTemp
      case None => false
      case Some(current) => current < targetTemp
    }
  }

  /** The filter condition of the selection: the room needs heat and has a reading. */
  predicate Eligible(room: Room)
    reads room
    ensures Eligible(room) <==> room.currentTemp.Some? && room.currentTemp.value < room.targetTemp
  {
    room.NeedsHeating() && room.currentTemp.Some?
  }

  /** The rooms passing the filter, in list order. */
  function HeatingRooms(rooms: seq<Room>): (heating: seq<Room>)
    reads rooms
    ensures forall k :: 0 <= k < |heating| ==> heating[k] in rooms && Eligible(heating[k])
    ensures forall i :: 0 <= i < |rooms| && Eligible(rooms[i]) ==> rooms[i] in heating
    ensures heating == [] <==> forall i :: 0 <= i < |rooms| ==> !Eligible(rooms[i])
  {
    if rooms == [] then []
    else
      var rest := HeatingRooms(rooms[..|rooms| - 1]);
      var last := rooms[|rooms| - 1];
      assert forall i :: 0 <= i < |rooms| - 1 ==> rooms[..|rooms| - 1][i] == rooms[i];
      if Eligible(last) then rest + [last] else rest
  }

  /** The positions of the eligible rooms, in increasing order. */
  ghost function EligiblePositions(rooms: seq<Room>): (positions: seq<int>)
    reads rooms
    ensures forall k :: 0 <= k < |positions| ==> 0 <= positions[k] < |rooms| && Eligible(rooms[positions[k]])
    ensures forall k, l :: 0 <= k < l < |positions| ==> positions[k] < positions[l]
    ensures forall i :: 0 <= i < |rooms| && Eligible(rooms[i]) ==> i in positions
  {
    if rooms == [] then []
    else
      var front := rooms[..|rooms| - 1];
      assert forall i :: 0 <= i < |front| ==> front[i] == rooms[i];
      if Eligible(rooms[|rooms| - 1]) then EligiblePositions(front) + [|rooms| - 1]
      else EligiblePositions(front)
  }

  /** `picked` lists the rooms of `rooms` at `positions`, one for one. */
  ghost predicate PicksAt(rooms: seq<Room>, picked: seq<Room>, positions: seq<int>) {
    |picked| == |positions|
    && forall k :: 0 <= k < |positions| ==> 0 <= positions[k] < |rooms| && picked[k] == rooms[positions[k]]
  }

  /** Picking from a list stays valid when a room is appended, and may pick the appended room. */
  lemma PicksAtSnoc(front: seq<Room>, last: Room, picked: seq<Room>, positions: seq<int>)
    requires PicksAt(front, picked, positions)
    ensures PicksAt(front + [last], picked, positions)
    ensures PicksAt(front + [last], picked + [last], positions + [|front|])
  {
    var rooms := front + [last];
    assert forall i :: 0 <= i < |front| ==> rooms[i] == front[i];
  }

  /**
   * The filter keeps exactly the eligible rooms, each once, in list order:
   * its k-th room is the room at the k-th eligible position.
   */
  lemma {:induction false} HeatingRoomsInOrder(rooms: seq<Room>)
    ensures FiltersInOrder(rooms, HeatingRooms(rooms), EligiblePositions(rooms))
  {
    if rooms != [] {
      var front, last := rooms[..|rooms| - 1], rooms[|rooms| - 1];
      assert rooms == front + [last];
      HeatingRoomsInOrder(front);
      PicksAtSnoc(front, last, HeatingRooms(front), EligiblePositions(front));
    }
  }

  /**
   * Python's `max` by temperature difference: scanning left to right, a
   * later room replaces the best so far only when its difference is strictly greater.
   */
  function MaxByDifference(candidates: seq<Room>): (best: Room)
    requires candidates != []
    reads candidates
    ensures best in candidates
    ensures forall k :: 0 <= k < |candidates| ==>
              candidates[k].TemperatureDifference() <= best.TemperatureDifference()
    ensures exists k :: 0 <= k < |candidates| && candidates[k] == best
                        && forall j :: 0 <= j < k ==>
                             candidates[j].TemperatureDifference() < best.TemperatureDifference()
  {
    if |candidates| == 1 then candidates[0]
    else
      var front := candidates[..|candidates| - 1];
      var best := MaxByDifference(front);
      var last := candidates[|candidates| - 1];
      assert forall k :: 0 <= k < |front| ==> front[k] == candidates[k];
      if last.TemperatureDifference() > best.TemperatureDifference() then
        assert candidates[|candidates| - 1] == last;
        last
      else
        var k :| 0 <= k < |front| && front[k] == best
                 && forall j :: 0 <= j < k ==> front[j].TemperatureDifference() < best.TemperatureDifference();
        assert candidates[k] == best;
        best
  }

  /** `get_room_with_highest_difference` over a list of rooms. */
  function HighestDifference(rooms: seq<Room>): (selected: Option<Room>)
    reads rooms
    ensures selected.None? <==> forall i :: 0 <= i < |rooms| ==> !Eligible(rooms[i])
    ensures selected.Some? ==> selected.value in rooms && Eligible(selected.value)
    ensures selected.Some? ==> forall i :: 0 <= i < |rooms| && Eligible(rooms[i]) ==>
              rooms[i].TemperatureDifference() <= selected.value.TemperatureDifference()
  {
    if rooms == [] then None
    else
      var heating := HeatingRooms(rooms);
      if heating == [] then None else Some(MaxByDifference(heating))
  }

  /**
   * Room `i` is eligible, no eligible room has a larger difference, and every
   * eligible room before it has a strictly smaller one.
   */
  ghost predicate IsFirstMax(rooms: seq<Room>, i: int)
    reads rooms
  {
    0 <= i < |rooms| && Eligible(rooms[i])
    && (forall j :: 0 <= j < |rooms| && Eligible(rooms[j]) ==>
          rooms[j].TemperatureDifference() <= rooms[i].TemperatureDifference())
    && (forall j :: 0 <= j < i && Eligible(rooms[j]) ==>
          rooms[j].TemperatureDifference() < rooms[i].TemperatureDifference())
  }

  /**
   * The selection answers None exactly when no room is eligible, and
   * otherwise the earliest eligible room of largest difference: the filter
   * keeps the eligible rooms in list order, and `max` returns the first
   * maximum among them.
   */
  lemma HighestDifferenceIsFirstMax(rooms: seq<Room>)
    ensures HighestDifference(rooms).None? <==> forall i :: 0 <= i < |rooms| ==> !Eligible(rooms[i])
    ensures HighestDifference(rooms).Some? ==>
              exists i :: IsFirstMax(rooms, i) && rooms[i] == HighestDifference(rooms).value
  {
    if HighestDifference(rooms).Some? {
      var i := SelectedPosition(rooms);
    }
  }

  /** The position in `rooms` of the selected room, which is the first maximum. */
  lemma SelectedPosition(rooms: seq<Room>) returns (i: int)
    requires HighestDifference(rooms).Some?
    ensures IsFirstMax(rooms, i) && rooms[i] == HighestDifference(rooms).value
  {
    var heating, positions := HeatingRooms(rooms), EligiblePositions(rooms);
    HeatingRoomsInOrder(rooms);
    var k := FirstMaxIndex(heating);
    FirstMaxAtPosition(rooms, heating, positions, k);
    i := positions[k];
  }

  /** The index of the room `max` returns: the first maximum of the candidates. */
  lemma FirstMaxIndex(candidates: seq<Room>) returns (k: int)
    requires candidates != []
    ensures IsFirstMaxOf(candidates, k) && candidates[k] == MaxByDifference(candidates)
  {
    var best := MaxByDifference(candidates);
    k :| 0 <= k < |candidates| && candidates[k] == best
         && forall j :: 0 <= j < k ==> candidates[j].TemperatureDifference() < best.TemperatureDifference();
  }

  /** Candidate `k` has the largest difference, and every earlier candidate a strictly smaller one. */
  ghost predicate IsFirstMaxOf(candidates: seq<Room>, k: int)
    reads candidates
  {
    0 <= k < |candidates|
    && (forall j :: 0 <= j < |candidates| ==>
          candidates[j].TemperatureDifference() <= candidates[k].TemperatureDifference())
    && (forall j :: 0 <= j < k ==>
          candidates[j].TemperatureDifference() < candidates[k].TemperatureDifference())
  }

  /** `heating` is the eligible rooms of `rooms`, taken at the increasing `positions`. */
  ghost predicate FiltersInOrder(rooms: seq<Room>, heating: seq<Room>, positions: seq<int>)
    reads rooms
  {
    PicksAt(rooms, heating, positions)
    && (forall a :: 0 <= a < |heating| ==> Eligible(heating[a]))
    && (forall a, b :: 0 <= a < b < |positions| ==> positions[a] < positions[b])
    && (forall i :: 0 <= i < |rooms| && Eligible(rooms[i]) ==> i in positions)
  }

  /**
   * If `heating` is the eligible rooms taken in order and its `k`-th room is
   * its first maximum, then the room at the `k`-th position is the first
   * maximum of `rooms`.
   */
  lemma FirstMaxAtPosition(rooms: seq<Room>, heating: seq<Room>, positions: seq<int>, k: int)
    requires FiltersInOrder(rooms, heating, positions) && IsFirstMaxOf(heating, k)
    ensures IsFirstMax(rooms, positions[k]) && rooms[positions[k]] == heating[k]
  {
    var i := positions[k];
    forall j | 0 <= j < |rooms| && Eligible(rooms[j])
      ensures rooms[j].TemperatureDifference() <= rooms[i].TemperatureDifference()
      ensures j < i ==> rooms[j].TemperatureDifference() < rooms[i].TemperatureDifference()
    {
      var l :| 0 <= l < |positions| && positions[l] == j;
      assert heating[l] == rooms[j];
      if j < i {
        EarlierPosition(positions, k, l);
      }
    }
  }

  /** In an increasing list of positions, a smaller position comes earlier. */
  lemma EarlierPosition(positions: seq<int>, k: int, l: int)
    requires 0 <= k < |positions| && 0 <= l < |positions|
    requires forall a, b :: 0 <= a < b < |positions| ==> positions[a] < positions[b]
    requires positions[l] < positions[k]
    ensures l < k
  {
  }

  /** The index of the first room called `name`, if any. */
  function FirstNamed(rooms: seq<Room>, name: string): (found: Option<nat>)
    ensures found.Some? ==> found.value < |rooms| && rooms[found.value].name == name
    ensures found.Some? ==> forall j :: 0 <= j < found.value ==> rooms[j].name != name
    ensures found.None? ==> forall j :: 0 <= j < |rooms| ==> rooms[j].name != name
  {
    if rooms == [] then None
    else if rooms[0].name == name then Some(0)
    else
      match FirstNamed(rooms[1..], name)
      case None => None
      case Some(k) => Some(k + 1)
  }

  /**
   * One valve recalculation on a controller state: setpoint 0, integral
   * cleared, `update(-error)`, and the result clamped to 0..100.
   */
  function ValveStep(s: PidState, error: real, now: real): (res: (PidState, real))
    requires s.Valid()
    ensures res.0.Valid() && res.0.lastTime.Some?
    ensures res.0.setpoint == 0.0
    ensures res.0.kp == s.kp && res.0.ki == s.ki && res.0.kd == s.kd && res.0.outputLimits == s.outputLimits
    ensures res.0.integral == if Advances(s, now) then error * (now - s.lastTime.value) else 0.0
    ensures 0.0 <= res.1 <= 100.0
    ensures s.outputLimits == PositionLimits ==>
              res.1 == UpdateStep(s.(setpoint := 0.0, integral := 0.0), -error, now).1
  {
    var step := UpdateStep(s.(setpoint := 0.0, integral := 0.0), -error, now);
    (step.0, Clamp(PositionLimits, step.1))
  }

  /** Configuration of one valve; an absent gain takes its default. */
  datatype ValveConfig = ValveConfig(name: string, valveEntity: string,
                                     kp: Option<real>, ki: Option<real>, kd: Option<real>)

  /** Configuration of one room; absent entries take their defaults. */
  datatype RoomConfig = RoomConfig(name: string, targetTemp: real, currentTempSensor: string,
                                   hrvEntity: Option<string>, hrvValves: Option<seq<ValveConfig>>)

  /** A valve as loaded from `config`: defaults kp 1.0, ki 0.1, kd 0.05, closed, fresh controller. */
  ghost predicate ValveLoaded(valve: HRVValve, config: ValveConfig)
    reads valve, valve.pid
  {
    valve.name == config.name && valve.valveEntity == config.valveEntity
    && valve.kp == config.kp.GetOr(1.0) && valve.ki == config.ki.GetOr(0.1) && valve.kd == config.kd.GetOr(0.05)
    && valve.currentPosition == 0.0
    && valve.pid.State() == Initial(valve.kp, valve.ki, valve.kd, 0.0, PositionLimits)
  }

  /** A room as loaded from `config`: default HRV entity '', no valves by default, no reading. */
  ghost predicate RoomLoaded(room: Room, config: RoomConfig)
    reads room, room.hrvValves, room.Pids()
  {
    var valves := config.hrvValves.GetOr([]);
    room.name == config.name && room.targetTemp == config.targetTemp
    && room.currentTempSensor == config.currentTempSensor
    && room.hrvEntity == config.hrvEntity.GetOr("")
    && room.currentTemp == None
    && |room.hrvValves| == |valves|
    && forall a :: 0 <= a < |valves| ==> ValveLoaded(room.hrvValves[a], valves[a])
  }

  /** The valves of the configured room, in configuration order. */
  method LoadValves(configs: seq<ValveConfig>) returns (valves: seq<HRVValve>)
    ensures |valves| == |configs|
    ensures forall a :: 0 <= a < |valves| ==> fresh(valves[a]) && fresh(valves[a].pid)
    ensures forall a :: 0 <= a < |valves| ==> ValveLoaded(valves[a], configs[a]) && valves[a].pid.Valid()
    ensures forall a, b :: 0 <= a < |valves| && 0 <= b < |valves| && a != b ==> valves[a].pid != valves[b].pid
  {
    valves := [];
    for a := 0 to |configs|
      invariant |valves| == a
      invariant forall k :: 0 <= k < a ==> fresh(valves[k]) && fresh(valves[k].pid)
      invariant forall k :: 0 <= k < a ==> ValveLoaded(valves[k], configs[k]) && valves[k].pid.Valid()
      invariant forall k, l :: 0 <= k < a && 0 <= l < a && k != l ==> valves[k].pid != valves[l].pid
    {
      var config := configs[a];
      var valve := new HRVValve(config.name, config.valveEntity,
                                config.kp.GetOr(1.0), config.ki.GetOr(0.1), config.kd.GetOr(0.05));
      valves := valves + [valve];
    }
  }

  /** A new room built from `config`, with new valves and new controllers. */
  method NewRoom(config: RoomConfig) returns (room: Room)
    ensures fresh(room) && RoomLoaded(room, config) && room.Valid()
    ensures forall a :: 0 <= a < |room.hrvValves| ==> fresh(room.hrvValves[a]) && fresh(room.hrvValves[a].pid)
    ensures forall p :: p in room.Pids() ==> fresh(p)
  {
    var valves := LoadValves(config.hrvValves.GetOr([]));
    room := new Room(config.name, config.targetTemp, config.currentTempSensor,
                     config.hrvEntity.GetOr(""), valves);
  }

  /** The valve controllers of all the rooms. */
  ghost function PidsOf(rooms: seq<Room>): set<PIDController> {
    set i, p | 0 <= i < |rooms| && p in rooms[i].Pids() :: p
  }

  /** Rooms are distinct, each is valid, and no two rooms share a valve controller. */
  ghost predicate ValidRooms(rooms: seq<Room>)
    reads PidsOf(rooms)
  {
    (forall i, j :: 0 <= i < |rooms| && 0 <= j < |rooms| && i != j ==> rooms[i] != rooms[j])
    && (forall i :: 0 <= i < |rooms| ==> rooms[i].Valid())
    && (forall i, j, a, b ::
          0 <= i < |rooms| && 0 <= j < |rooms| && i != j
          && 0 <= a < |rooms[i].hrvValves| && 0 <= b < |rooms[j].hrvValves| ==>
          rooms[i].hrvValves[a].pid != rooms[j].hrvValves[b].pid)
  }

  /** Appending a valid room that shares no controller keeps the rooms valid. */
  lemma ValidRoomsSnoc(rooms: seq<Room>, room: Room)
    requires ValidRooms(rooms) && room.Valid() && room !in rooms
    requires forall p :: p in room.Pids() ==> p !in PidsOf(rooms)
    ensures ValidRooms(rooms + [room])
  {
    var all := rooms + [room];
    forall i, j, a, b |
      0 <= i < |all| && 0 <= j < |all| && i != j
      && 0 <= a < |all[i].hrvValves| && 0 <= b < |all[j].hrvValves|
      ensures all[i].hrvValves[a].pid != all[j].hrvValves[b].pid
    {
      if i == |rooms| {
        assert all[i].hrvValves[a].pid in room.Pids();
        assert all[j].hrvValves[b].pid in rooms[j].Pids();
      } else if j == |rooms| {
        assert all[j].hrvValves[b].pid in room.Pids();
        assert all[i].hrvValves[a].pid in rooms[i].Pids();
      }
    }
  }

  /** In valid rooms, the valves of one room and their controllers belong to no other room. */
  lemma OtherRoomsDisjoint(rooms: seq<Room>, room: Room)
    requires ValidRooms(rooms) && room in rooms
    ensures forall i, a :: 0 <= i < |rooms| && rooms[i] != room && 0 <= a < |rooms[i].hrvValves| ==>
              rooms[i].hrvValves[a] !in room.hrvValves && rooms[i].hrvValves[a].pid !in room.Pids()
  {
    var j :| 0 <= j < |rooms| && rooms[j] == room;
    forall i, a | 0 <= i < |rooms| && rooms[i] != room && 0 <= a < |rooms[i].hrvValves|
      ensures rooms[i].hrvValves[a] !in room.hrvValves && rooms[i].hrvValves[a].pid !in room.Pids()
    {
      forall b | 0 <= b < |room.hrvValves|
        ensures rooms[i].hrvValves[a].pid != room.hrvValves[b].pid
      {
        assert rooms[j].hrvValves[b] == room.hrvValves[b];
      }
    }
  }

  /** The loop body of the valve recalculation, for one valve and the room's error. */
  method RecalculateValve(valve: HRVValve, error: real, now: real)
    requires valve.pid.Valid()
    modifies valve, valve.pid
    ensures valve.pid.Valid()
    ensures var step := ValveStep(old(valve.pid.State()), error, now);
            valve.pid.State() == step.0 && valve.currentPosition == step.1
  {
    valve.pid.SetSetpoint(0.0);
    var position := valve.pid.Update(-error, now);
    position := Clamp(PositionLimits, position);
    valve.currentPosition := position;
  }

  /** The list of rooms and the operations on it (class RoomManager). */
  class RoomManager {
    var rooms: seq<Room>

    ghost predicate Valid()
      reads this, PidsOf(rooms)
    {
      ValidRooms(rooms)
    }

    /** A manager holding the configured rooms. */
    constructor (configs: seq<RoomConfig>)
      ensures Valid()
      ensures |rooms| == |configs|
      ensures forall i :: 0 <= i < |rooms| ==> fresh(rooms[i]) && RoomLoaded(rooms[i], configs[i])
      ensures forall i, a :: 0 <= i < |rooms| && 0 <= a < |rooms[i].hrvValves| ==>
                fresh(rooms[i].hrvValves[a]) && fresh(rooms[i].hrvValves[a].pid)
    {
      rooms := [];
      new;
      LoadRooms(configs);
    }

    /** Replaces the rooms by freshly built ones, in configuration order. */
    method LoadRooms(configs: seq<RoomConfig>)
      modifies this
      ensures Valid()
      ensures |rooms| == |configs|
      ensures forall i :: 0 <= i < |rooms| ==> fresh(rooms[i]) && RoomLoaded(rooms[i], configs[i])
      ensures forall i, a :: 0 <= i < |rooms| && 0 <= a < |rooms[i].hrvValves| ==>
                fresh(rooms[i].hrvValves[a]) && fresh(rooms[i].hrvValves[a].pid)
    {
      var loaded := [];
      for i := 0 to |configs|
        invariant |loaded| == i
        invariant forall k :: 0 <= k < i ==> fresh(loaded[k]) && RoomLoaded(loaded[k], configs[k])
        invariant forall k, a :: 0 <= k < i && 0 <= a < |loaded[k].hrvValves| ==>
                    fresh(loaded[k].hrvValves[a]) && fresh(loaded[k].hrvValves[a].pid)
        invariant ValidRooms(loaded)
      {
        var room := NewRoom(configs[i]);
        ValidRoomsSnoc(loaded, room);
        loaded := loaded + [room];
      }
      rooms := loaded;
    }

    /** The eligible room with the largest difference, the earliest one on a tie. */
    function GetRoomWithHighestDifference(): (selected: Option<Room>)
      reads this, rooms
      ensures selected.None? <==> forall i :: 0 <= i < |rooms| ==> !Eligible(rooms[i])
      ensures selected.Some? ==> exists i :: IsFirstMax(rooms, i) && rooms[i] == selected.value
    {
      HighestDifferenceIsFirstMax(rooms);
      HighestDifference(rooms)
    }

    /** Stores `temperature` as the reading of the first room called `roomName`. */
    method UpdateRoomTemperature(roomName: string, temperature: real)
      modifies set i | 0 <= i < |rooms| :: rooms[i]
      ensures FirstNamed(rooms, roomName).None? ==>
                forall j :: 0 <= j < |rooms| ==> rooms[j].currentTemp == old(rooms[j].currentTemp)
      ensures FirstNamed(rooms, roomName).Some? ==>
                var i := FirstNamed(rooms, roomName).value;
                rooms[i].currentTemp == Some(temperature)
                && forall j :: 0 <= j < |rooms| && rooms[j] != rooms[i] ==>
                     rooms[j].currentTemp == old(rooms[j].currentTemp)
    {
      for i := 0 to |rooms|
        invariant forall j :: 0 <= j < i ==> rooms[j].name != roomName
        invariant forall j :: 0 <= j < |rooms| ==> rooms[j].currentTemp == old(rooms[j].currentTemp)
      {
        if rooms[i].name == roomName {
          rooms[i].currentTemp := Some(temperature);
          return;
        }
      }
    }

    /**
     * Recomputes every valve of `room` from the room's error
     * `targetTemp - currentTemp`, at time `now`.
     */
    method CalculateHrvPositions(room: Room, now: real)
      requires room.Valid()
      modifies room.hrvValves, room.Pids()
      ensures room.currentTemp.None? ==>
                forall a :: 0 <= a < |room.hrvValves| ==>
                  room.hrvValves[a].currentPosition == old(room.hrvValves[a].currentPosition)
                  && room.hrvValves[a].pid.State() == old(room.hrvValves[a].pid.State())
      ensures room.currentTemp.Some? ==>
                forall a :: 0 <= a < |room.hrvValves| ==>
                  var step := ValveStep(old(room.hrvValves[a].pid.State()),
                                        room.targetTemp - room.currentTemp.value, now);
                  room.hrvValves[a].pid.State() == step.0 && room.hrvValves[a].currentPosition == step.1
      ensures room.Valid()
      ensures old(Valid()) && room in rooms ==>
                forall i, a :: 0 <= i < |rooms| && rooms[i] != room && 0 <= a < |rooms[i].hrvValves| ==>
                  rooms[i].hrvValves[a].currentPosition == old(rooms[i].hrvValves[a].currentPosition)
                  && rooms[i].hrvValves[a].pid.State() == old(rooms[i].hrvValves[a].pid.State())
    {
      ghost var separate := Valid() && room in rooms;
      if separate {
        OtherRoomsDisjoint(rooms, room);
      }
      if room.currentTemp.None? {
        return;
      }
      var error := room.targetTemp - room.currentTemp.value;
      var valves := room.hrvValves;
      for a := 0 to |valves|
        invariant room.Valid()
        invariant forall k :: 0 <= k < a ==>
                    var step := ValveStep(old(valves[k].pid.State()), error, now);
                    valves[k].pid.State() == step.0 && valves[k].currentPosition == step.1
        invariant forall k :: a <= k < |valves| ==>
                    valves[k].pid.State() == old(valves[k].pid.State())
      {
        RecalculateValve(valves[a], error, now);
      }
      forall i, b | separate && 0 <= i < |rooms| && rooms[i] != room && 0 <= b < |rooms[i].hrvValves|
        ensures rooms[i].hrvValves[b].currentPosition == old(rooms[i].hrvValves[b].currentPosition)
        ensures rooms[i].hrvValves[b].pid.State() == old(rooms[i].hrvValves[b].pid.State())
      {
        var valve := rooms[i].hrvValves[b];
        assert valve !in room.hrvValves && valve.pid !in room.Pids();
      }
    }

    /** Target and reading of the selected room, for the boiler. */
    function GetControlTemperatures(): (temps: Option<(real, real)>)
      reads this, rooms
      ensures temps.None? <==> forall i :: 0 <= i < |rooms| ==> !Eligible(rooms[i])
      ensures temps.Some? ==> temps.value.1 < temps.value.0
      ensures temps.Some? ==>
                exists i :: IsFirstMax(rooms, i)
                            && temps.value == (rooms[i].targetTemp, rooms[i].currentTemp.value)
    {
      var selected := GetRoomWithHighestDifference();
      if selected.Some? && selected.value.currentTemp.Some?
      then Some((selected.value.targetTemp, selected.value.currentTemp.value))
      else None
    }
  }
}
