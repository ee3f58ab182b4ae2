/**
Runs of the hand-over protocol that end in each of the three exceptions: one station, and one AGV
with kinematics k that registers, gets an order and drives to the start of its route.
*/
module AuthorityRuns {
  import opened Authority
  import opened AuthoritySafety
  import opened Results
  import RouteTimes
  import opened StationSafety
  import opened Stations

  const ORIGIN := Point(0.0, 0.0)
  const EXIT := Point(0.0, 1.0)
  const DOCK := Point(1.0, 1.0)
  const WAY := Way(DOCK, 10.0, [5.0])
  const LONE_INFO := StationInfo(
    1, ORIGIN, EXIT, Point(1.0, 0.0), map[ToDelivery(1) := WAY, ToPickup(1) := WAY], [(1, DOCK)], {1})
  const ORDER := Spawn(false, 1, 1)

  function Lone(st: Station, c: Agv): System
  {
    System(map[1 := LONE_INFO], map[1 := st], map[0 := c])
  }

  // The station: it spawns orders, has an AGV in its queue, and has sent it off.

  const SPAWNING := NEW_STATION.(scheduled := true, timers := multiset{SpawnTimer})

  function Waits(k: Kinematics): Station
  {
    var e := Announced(LONE_INFO, ORIGIN, k).(next := ORIGIN);
    SPAWNING.(owned := map[0 := e], queue := [0], toInitialize := 1)
  }

  function SentOff(k: Kinematics): Station
  {
    var e := Announced(LONE_INFO, ORIGIN, k).(state := DriveToPickupOut, order := Order(1, true), next := EXIT);
    NEW_STATION.(scheduled := true, owned := map[0 := e])
  }

  // The AGV: it registers, and it takes a drive order to its motors and back.

  function Fleet(k: Kinematics): Agv
  {
    NEW_AGV.(logical := NEW_AGV.logical.(kinematics := k))
  }

  function Registers(k: Kinematics, up: seq<AgvMsg>): Agv
  {
    var c := Fleet(k);
    c.(registered := true, logical := c.logical.(authority := Some(1)), up := map[1 := up])
  }

  function Told(k: Kinematics, down: seq<StationMsg>, toPhysical: seq<Point>): Agv
  {
    var c := Registers(k, []);
    c.(logical := c.logical.(toPhysical := toPhysical), down := map[1 := down])
  }

  function Moves(k: Kinematics, moving: bool, reports: seq<FieldMsg>): Agv
  {
    Told(k, [], []).(physical := Physical(moving, EXIT, moving, if moving then 1 else 0, reports))
  }

  function Arrives(k: Kinematics, reports: seq<FieldMsg>, up: seq<AgvMsg>): Agv
  {
    var c := Moves(k, false, reports);
    c.(logical := c.logical.(last := EXIT), up := map[1 := up])
  }

  function News(k: Kinematics): AgvMsg
  {
    NewAuthority(true, ORIGIN, ORIGIN, k)
  }

  function TripState(k: Kinematics, i: nat): System
  {
    match i
    case 0 => Lone(NEW_STATION, Fleet(k))
    case 1 => Lone(SPAWNING, Fleet(k))
    case 2 => Lone(SPAWNING, Registers(k, [News(k)]))
    case 3 => Lone(Waits(k), Registers(k, []))
    case 4 => Lone(SentOff(k), Told(k, [Drive(EXIT)], []))
    case 5 => Lone(SentOff(k), Told(k, [], [EXIT]))
    case 6 => Lone(SentOff(k), Moves(k, true, []))
    case 7 => Lone(SentOff(k), Moves(k, false, [PositionUpdate(EXIT), ReachedGoalField]))
    case 8 => Lone(SentOff(k), Arrives(k, [ReachedGoalField], []))
    case _ => Lone(SentOff(k), Arrives(k, [], [ReachedGoal(EXIT)]))
  }

  /** The first n states after the start. */
  function Trip(k: Kinematics, n: nat): seq<System>
  {
    seq(n + 1, i requires 0 <= i => TripState(k, i))
  }

  const TRIP := [
    StartSpawning(1), Register(0, 1), Up(0, 1, ORDER), Due(1, SpawnTimer, ORDER),
    Down(0, 1), ToPhysical(0), MoveDone(0), ToLogical(0), ToLogical(0) ]

  lemma {:induction false} LoneConsistent()
    ensures Consistent(map[1 := LONE_INFO])
  {
    var infos := map[1 := LONE_INFO];
    assert infos.Keys == {1};
    assert FindDelivery([(1, DOCK)], DOCK).Some?;
    assert forall p :: IsRouteEnd(LONE_INFO, p) ==> p == DOCK;
  }

  lemma {:induction false} SpawningStarts(c: Agv)
    ensures IsStep(Lone(NEW_STATION, c), StartSpawning(1), Lone(SPAWNING, c))
  {
    assert multiset{} + multiset{SpawnTimer} == multiset{SpawnTimer};
    assert ScheduleSpawn(NEW_STATION) == SPAWNING;
    assert map[1 := NEW_STATION][1 := SPAWNING] == map[1 := SPAWNING];
  }

  /** A step of the AGV. */
  lemma {:induction false} AgvStep(st: Station, c: Agv, c': Agv, ev: Event)
    requires Enabled(Lone(st, c), ev) && Next(Lone(st, c), ev) == AfterAgv(Lone(st, c), 0, Ok(c'))
    ensures IsStep(Lone(st, c), ev, Lone(st, c'))
  {
    assert map[0 := c][0 := c'] == map[0 := c'];
  }

  lemma {:induction false} LoneAfter(st: Station, st': Station, c: Agv, c': Agv, t: Token)
    requires st'.outbox == Posted(1, 0, t)
    ensures AfterStation(SetAgvOf(Lone(st, c), 0, c'), 1, Ok(st')) ==
      Ok(Lone(st'.(outbox := []), Delivered(c', 1, t)))
  {
    AfterPost(Lone(st, c), 1, st', 0, c', t);
    assert map[1 := st][1 := st'.(outbox := [])] == map[1 := st'.(outbox := [])];
    assert map[0 := c][0 := Delivered(c', 1, t)] == map[0 := Delivered(c', 1, t)];
  }

  /** A step of the station that concerns the AGV. */
  lemma {:induction false} StationStep(st: Station, st': Station, c: Agv, c': Agv, t: Token, ev: Event)
    requires Enabled(Lone(st, c), ev) && st'.outbox == Posted(1, 0, t)
    requires Next(Lone(st, c), ev) == AfterStation(SetAgvOf(Lone(st, c), 0, c'), 1, Ok(st'))
    ensures IsStep(Lone(st, c), ev, Lone(st'.(outbox := []), Delivered(c', 1, t)))
  {
    LoneAfter(st, st', c, c', t);
  }

  lemma {:induction false} LoneRegisters(k: Kinematics)
    ensures IsStep(Lone(SPAWNING, Fleet(k)), Register(0, 1), Lone(SPAWNING, Registers(k, [News(k)])))
  {
    var c, l := Fleet(k), RegisterByAuthority(Fleet(k).logical, 1);
    assert l.outbox == [(1, News(k))];
    PostUpOne(c.(registered := true, logical := l.(outbox := [])), 1, News(k));
    assert [] + [News(k)] == [News(k)];
    AgvStep(SPAWNING, c, Registers(k, [News(k)]), Register(0, 1));
  }

  lemma {:induction false} LoneQueues(k: Kinematics)
    ensures ProcessMessage(LONE_INFO, SPAWNING, 0, News(k), ORDER) == Ok(Waits(k))
  {
    assert [] + [0] == [0];
  }

  lemma {:induction false} LoneWaits(k: Kinematics)
    ensures IsStep(Lone(SPAWNING, Registers(k, [News(k)])), Up(0, 1, ORDER), Lone(Waits(k), Registers(k, [])))
  {
    var c := Registers(k, [News(k)]);
    assert [News(k)][1..] == [];
    assert Taken(c, 1) == Registers(k, []) by { assert c.up[1 := []] == map[1 := []]; }
    LoneQueues(k);
    StationStep(SPAWNING, Waits(k), c, Registers(k, []), Waiting(1), Up(0, 1, ORDER));
    assert Waits(k).(outbox := []) == Waits(k);
  }

  lemma {:induction false} LoneSpawns(k: Kinematics)
    ensures SpawnTO(LONE_INFO, Fired(Waits(k), SpawnTimer), ORDER) ==
      Ok(SentOff(k).(outbox := [(0, Drive(EXIT))]))
  {
    var st := Fired(Waits(k), SpawnTimer);
    var e, st1 := Leaving(st.owned[0], ORDER), CountStart(st.(queue := st.queue[1..]));
    assert st.timers == multiset{} && [0][1..] == [];
    SpawnUnfolded(LONE_INFO, st, ORDER);
    SentOn(LONE_INFO, st1, 0, e, e.(state := DriveToPickupOut), EXIT);
    assert st1.outbox + [(0, Drive(EXIT))] == [(0, Drive(EXIT))];
    assert st1.owned[0 := e.(state := DriveToPickupOut, next := EXIT)] == SentOff(k).owned;
  }

  lemma {:induction false} LoneIsTold(k: Kinematics)
    ensures Sending(Registers(k, []), 1, Drive(EXIT)) == Told(k, [Drive(EXIT)], [])
  {
    assert [] + [Drive(EXIT)] == [Drive(EXIT)];
  }

  lemma {:induction false} LoneIsSent(k: Kinematics)
    ensures IsStep(
      Lone(Waits(k), Registers(k, [])), Due(1, SpawnTimer, ORDER), Lone(SentOff(k), Told(k, [Drive(EXIT)], [])))
  {
    var c, st := Registers(k, []), SentOff(k).(outbox := [(0, Drive(EXIT))]);
    LoneSpawns(k);
    LoneIsTold(k);
    assert map[0 := c][0 := c] == map[0 := c];
    StationStep(Waits(k), st, c, c, Driving(1, Sent, EXIT), Due(1, SpawnTimer, ORDER));
    assert st.(outbox := []) == SentOff(k);
  }

  lemma {:induction false} LoneForwards(st: Station, k: Kinematics)
    ensures IsStep(Lone(st, Told(k, [Drive(EXIT)], [])), Down(0, 1), Lone(st, Told(k, [], [EXIT])))
  {
    var c, c' := Told(k, [Drive(EXIT)], []), Told(k, [], [EXIT]);
    assert [Drive(EXIT)][1..] == [] && [] + [EXIT] == [EXIT];
    assert c.down[1 := []] == map[1 := []];
    AgvStep(st, c, c', Down(0, 1));
  }

  lemma {:induction false} LoneMoves(st: Station, k: Kinematics)
    ensures IsStep(Lone(st, Told(k, [], [EXIT])), ToPhysical(0), Lone(st, Moves(k, true, [])))
  {
    assert [EXIT][1..] == [];
    AgvStep(st, Told(k, [], [EXIT]), Moves(k, true, []), ToPhysical(0));
  }

  lemma {:induction false} LoneStops(st: Station, k: Kinematics)
    ensures IsStep(
      Lone(st, Moves(k, true, [])), MoveDone(0), Lone(st, Moves(k, false, [PositionUpdate(EXIT), ReachedGoalField])))
  {
    var reports := [PositionUpdate(EXIT), ReachedGoalField];
    assert [] + reports == reports;
    AgvStep(st, Moves(k, true, []), Moves(k, false, reports), MoveDone(0));
  }

  lemma {:induction false} LoneKnows(st: Station, k: Kinematics)
    ensures IsStep(
      Lone(st, Moves(k, false, [PositionUpdate(EXIT), ReachedGoalField])), ToLogical(0),
      Lone(st, Arrives(k, [ReachedGoalField], [])))
  {
    var reports := [PositionUpdate(EXIT), ReachedGoalField];
    assert reports[1..] == [ReachedGoalField];
    AgvStep(st, Moves(k, false, reports), Arrives(k, [ReachedGoalField], []), ToLogical(0));
  }

  lemma {:induction false} LoneReports(st: Station, k: Kinematics)
    ensures IsStep(
      Lone(st, Arrives(k, [ReachedGoalField], [])), ToLogical(0), Lone(st, Arrives(k, [], [ReachedGoal(EXIT)])))
  {
    var c := Arrives(k, [ReachedGoalField], []);
    assert [ReachedGoalField][1..] == [] && [] + [ReachedGoal(EXIT)] == [ReachedGoal(EXIT)];
    assert [] + [(1, ReachedGoal(EXIT))] == [(1, ReachedGoal(EXIT))];
    PostUpOne(Arrives(k, [], []), 1, ReachedGoal(EXIT));
    assert c.up[1 := [ReachedGoal(EXIT)]] == map[1 := [ReachedGoal(EXIT)]];
    AgvStep(st, c, Arrives(k, [], [ReachedGoal(EXIT)]), ToLogical(0));
  }

  lemma {:induction false} DriveStep(k: Kinematics, i: nat)
    requires 4 <= i < 9
    ensures IsStep(TripState(k, i), TRIP[i], TripState(k, i + 1))
  {
    match i {
      case 4 => LoneForwards(SentOff(k), k);
      case 5 => LoneMoves(SentOff(k), k);
      case 6 => LoneStops(SentOff(k), k);
      case 7 => LoneKnows(SentOff(k), k);
      case 8 => LoneReports(SentOff(k), k);
    }
  }

  lemma {:induction false} TripStep(k: Kinematics, i: nat)
    requires i < 9
    ensures IsStep(TripState(k, i), TRIP[i], TripState(k, i + 1))
  {
    match i {
      case 0 => SpawningStarts(Fleet(k));
      case 1 => LoneRegisters(k);
      case 2 => LoneWaits(k);
      case 3 => LoneIsSent(k);
      case _ => DriveStep(k, i);
    }
  }

  lemma {:induction false} TripStarts(k: Kinematics)
    ensures Initial(TripState(k, 0))
  {
    LoneConsistent();
    assert InitialAgv(Fleet(k));
  }

  lemma {:induction false} TripIsRun(k: Kinematics, n: nat)
    requires n <= 9
    ensures IsRun(Trip(k, n), TRIP[..n])
  {
    TripStarts(k);
    forall i | 0 <= i < n
      ensures IsStep(Trip(k, n)[i], TRIP[..n][i], Trip(k, n)[i + 1])
    {
      TripStep(k, i);
      assert Trip(k, n)[i] == TripState(k, i) && Trip(k, n)[i + 1] == TripState(k, i + 1);
    }
  }

  /** If the scenario stops before an AGV that waits has got its first order, the spawn timer throws. */
  lemma {:induction false} LateIsReachable(k: Kinematics)
    ensures IsRun(Trip(k, 3), TRIP[..3])
    ensures var sys, ev := Trip(k, 3)[3], Due(1, SpawnTimer, Spawn(true, 1, 1));
      Enabled(sys, ev) && sys.stations.Keys == sys.infos.Keys && Next(sys, ev).Err?
  {
    TripIsRun(k, 3);
    assert Fired(Waits(k), SpawnTimer).toInitialize == 1;
  }

  const REPORT := Up(0, 1, ORDER)

  lemma {:induction false} ReportEnabled(k: Kinematics)
    ensures Enabled(TripState(k, 9), REPORT) && !Late(TripState(k, 9), REPORT)
    ensures RouteRejected(TripState(k, 9), REPORT) <==> !Passable(k, WAY)
  {
  }

  /** What the report of the AGV leads to. */
  lemma {:induction false} ReportIs(k: Kinematics)
    ensures IsRun(Trip(k, 9), TRIP) && Enabled(Trip(k, 9)[9], REPORT)
    ensures Trip(k, 9)[9].stations.Keys == Trip(k, 9)[9].infos.Keys
    ensures Next(Trip(k, 9)[9], REPORT).Err? <==> !Passable(k, WAY)
  {
    TripIsRun(k, 9);
    assert TRIP[..9] == TRIP;
    ReportEnabled(k);
    RunSafe(Trip(k, 9), TRIP, REPORT);
  }

  /** With a brake four times as strong as the motor the phases cover 8 of the 10 metres. */
  lemma {:induction false} Brakes()
    ensures !Passable(Kinematics(10.0, 1.0, 4.0), WAY) && Passable(Kinematics(1.0, 1.0, 1.0), WAY)
  {
    RouteTimes.StrongBrake(WAY.marks);
    RouteTimes.EqualBrake(DriveOn(Kinematics(1.0, 1.0, 1.0), WAY), WAY.marks);
  }

  /**
  The first report throws for such an AGV, and for every AGV with the default kinematics; it does not
  for an AGV whose motor and brake are equal.
  */
  lemma {:induction false} RejectionIsReachable(k: Kinematics)
    ensures IsRun(Trip(k, 9), TRIP) && Enabled(Trip(k, 9)[9], REPORT)
    ensures Trip(k, 9)[9].stations.Keys == Trip(k, 9)[9].infos.Keys
    ensures k == NoKinematics || k == Kinematics(10.0, 1.0, 4.0) ==> Next(Trip(k, 9)[9], REPORT).Err?
    ensures k == Kinematics(1.0, 1.0, 1.0) ==> Next(Trip(k, 9)[9], REPORT).Ok?
  {
    Brakes();
    ReportIs(k);
  }

  /** The consensus has been started. */
  function Negotiating(k: Kinematics): Station
  {
    var e := SentOff(k).owned[0];
    SentOff(k).(consensus := Some(0), requests := 1,
                owned := map[0 := e.(last := EXIT, state := NegotiatingDriveToDelivery)])
  }

  lemma {:induction false} LoneNegotiates(k: Kinematics)
    requires Passable(k, WAY)
    ensures ProcessMessage(LONE_INFO, SentOff(k), 0, ReachedGoal(EXIT), ORDER) == Ok(Negotiating(k))
  {
    var e := SentOff(k).owned[0].(last := EXIT);
    ReportUnfolded(LONE_INFO, SentOff(k), 0, ORDER);
    assert SetAgv(SentOff(k), 0, e.(state := NegotiatingDriveToDelivery)).owned == Negotiating(k).owned;
  }

  lemma {:induction false} LoneIsNegotiated(k: Kinematics)
    requires Passable(k, WAY)
    ensures IsStep(TripState(k, 9), REPORT, Lone(Negotiating(k), Arrives(k, [], [])))
  {
    var c := Arrives(k, [], [ReachedGoal(EXIT)]);
    assert [ReachedGoal(EXIT)][1..] == [];
    assert Taken(c, 1) == Arrives(k, [], []) by { assert c.up[1 := []] == map[1 := []]; }
    LoneNegotiates(k);
    StationStep(SentOff(k), Negotiating(k), c, Arrives(k, [], []), Pausing(1, InConsensus), REPORT);
    assert Negotiating(k).(outbox := []) == Negotiating(k);
  }

  /** An agreed start that is not in the future throws. */
  lemma {:induction false} OverdueIsReachable(k: Kinematics)
    requires Passable(k, WAY)
    ensures var states := Trip(k, 9) + [Lone(Negotiating(k), Arrives(k, [], []))];
      && IsRun(states, TRIP + [REPORT]) && Enabled(states[10], Agreed(1, 0.0))
      && states[10].stations.Keys == states[10].infos.Keys && Next(states[10], Agreed(1, 0.0)).Err?
  {
    var states, events := Trip(k, 9) + [Lone(Negotiating(k), Arrives(k, [], []))], TRIP + [REPORT];
    TripIsRun(k, 9);
    LoneIsNegotiated(k);
    forall i | 0 <= i < |events|
      ensures IsStep(states[i], events[i], states[i + 1])
    {
      if i < 9 { TripStep(k, i); }
    }
  }
}
