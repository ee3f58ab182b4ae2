/**
The hand-over protocol as a whole: stations, AGVs and the links between them.  A link between a
station and a logical AGV, and between a logical and a physical AGV, delivers in order; timers and
links are served in any order.
*/
module Authority {
  import opened Results
  import opened StationSafety
  import opened Stations

  /** One AGV with its links: `down` and `up` are indexed by the station at the other end. */
  datatype Agv = Agv(
    logical: Logical, physical: Physical, registered: bool,
    down: map<StationId, seq<StationMsg>>, up: map<StationId, seq<AgvMsg>>)

  const NEW_AGV := Agv(
    Logical(NoKinematics, None, Point(0.0, 0.0), [], []), Physical(false, Point(0.0, 0.0), false, 0, []),
    false, map[], map[])

  /** The stations with their fixed data, and the AGVs; an AGV without an entry is a new one. */
  datatype System = System(
    infos: map<StationId, StationInfo>, stations: map<StationId, Station>, agvs: map<AgvId, Agv>)

  function AgvOf(sys: System, a: AgvId): Agv
  {
    if a in sys.agvs then sys.agvs[a] else NEW_AGV
  }

  function Link<T>(links: map<StationId, seq<T>>, s: StationId): seq<T>
  {
    if s in links then links[s] else []
  }

  /**
  The fixed data fits together: every station knows all stations, its own data fit, and where a
  route to a delivery station ends, every station finds a delivery station.
  */
  ghost predicate Consistent(infos: map<StationId, StationInfo>)
  {
    forall s :: s in infos ==>
      && infos[s].id == s && infos[s].registry == infos.Keys && InfoFits(infos[s])
      && (forall p :: IsRouteEnd(infos[s], p) ==> DeliveryPoint(infos, p))
  }

  /** Every station finds a delivery station at p. */
  ghost predicate DeliveryPoint(infos: map<StationId, StationInfo>, p: Point)
  {
    forall s :: s in infos ==> FindDelivery(infos[s].deliveries, p).Some?
  }

  datatype Event =
    | Register(agv: AgvId, station: StationId)
    | Up(agv: AgvId, station: StationId, spawn: Spawn)
    | Down(agv: AgvId, station: StationId)
    | ToPhysical(agv: AgvId)
    | ToLogical(agv: AgvId)
    | MoveDone(agv: AgvId)
    | PositionDue(agv: AgvId, at: Point)
    | Due(station: StationId, timer: Timer, spawn: Spawn)
    | Agreed(station: StationId, delay: real)
    | NotAgreed(station: StationId)
    | StartSpawning(station: StationId)

  predicate Spawns(sys: System, s: StationId, spawn: Spawn)
  {
    s in sys.infos && SpawnFits(sys.infos[s], spawn)
  }

  /**
  An AGV of the fleet is registered once; a message is delivered if it is next on its link; a timer fires if it
  is pending; a move ends if it was started; a consensus request is answered once.
  */
  predicate Enabled(sys: System, ev: Event)
  {
    match ev
    case Register(a, s) => s in sys.stations && a in sys.agvs && !sys.agvs[a].registered
    case Up(a, s, spawn) => s in sys.stations && Spawns(sys, s, spawn) && Link(AgvOf(sys, a).up, s) != []
    case Down(a, s) => s in sys.stations && Link(AgvOf(sys, a).down, s) != []
    case ToPhysical(a) => AgvOf(sys, a).logical.toPhysical != []
    case ToLogical(a) => AgvOf(sys, a).physical.toLogical != []
    case MoveDone(a) => AgvOf(sys, a).physical.moves > 0
    case PositionDue(a, at) => AgvOf(sys, a).physical.updateDue
    case Due(s, timer, spawn) => s in sys.stations && Spawns(sys, s, spawn) && timer in sys.stations[s].timers
    case Agreed(s, _) => s in sys.stations && sys.stations[s].requests > 0
    case NotAgreed(s) => s in sys.stations && sys.stations[s].requests > 0
    case StartSpawning(s) => s in sys.stations && !sys.stations[s].scheduled
  }

  function SetAgvOf(sys: System, a: AgvId, c: Agv): System
  {
    sys.(agvs := sys.agvs[a := c])
  }

  /** Puts the messages a station has sent on its links. */
  function Post(sys: System, s: StationId, outbox: seq<(AgvId, StationMsg)>): System
    decreases |outbox|
  {
    if outbox == [] then sys
    else
      var (a, msg) := outbox[0];
      var c := AgvOf(sys, a);
      Post(SetAgvOf(sys, a, c.(down := c.down[s := Link(c.down, s) + [msg]])), s, outbox[1..])
  }

  /** The outcome of a station's handler, for the whole system. */
  function AfterStation(sys: System, s: StationId, r: Result<Station>): Result<System>
  {
    match r
    case Err(e) => Err(e)
    case Ok(st) => Ok(Post(sys.(stations := sys.stations[s := st.(outbox := [])]), s, st.outbox))
  }

  /** Puts the messages a logical AGV has sent on its links. */
  function PostUp(c: Agv, outbox: seq<(StationId, AgvMsg)>): Agv
    decreases |outbox|
  {
    if outbox == [] then c
    else
      var (s, msg) := outbox[0];
      PostUp(c.(up := c.up[s := Link(c.up, s) + [msg]]), outbox[1..])
  }

  /** The AGV after its logical part has come to l and sent what it had to. */
  function AfterLogical(c: Agv, l: Logical): Agv
  {
    PostUp(c.(logical := l.(outbox := [])), l.outbox)
  }

  function AgvRegister(c: Agv, s: StationId): Agv
  {
    AfterLogical(c.(registered := true), RegisterByAuthority(c.logical, s))
  }

  function AgvDown(c: Agv, s: StationId): Result<Agv>
    requires Link(c.down, s) != []
  {
    match ReceiveStationMsg(c.logical, s, Link(c.down, s)[0])
    case Err(e) => Err(e)
    case Ok(l) => Ok(AfterLogical(c.(down := c.down[s := Link(c.down, s)[1..]]), l))
  }

  function AgvToPhysical(c: Agv): Result<Agv>
    requires c.logical.toPhysical != []
  {
    match ReceiveDrive(c.physical, c.logical.toPhysical[0])
    case Err(e) => Err(e)
    case Ok(p) => Ok(c.(physical := p, logical := c.logical.(toPhysical := c.logical.toPhysical[1..])))
  }

  function AgvToLogical(c: Agv): Agv
    requires c.physical.toLogical != []
  {
    var q := c.physical.toLogical;
    AfterLogical(c.(physical := c.physical.(toLogical := q[1..])), ReceiveFieldMsg(c.logical, q[0]))
  }

  function AgvMoveDone(c: Agv): Result<Agv>
    requires c.physical.moves > 0
  {
    match MobilityCallback(c.physical.(moves := c.physical.moves - 1))
    case Err(e) => Err(e)
    case Ok(p) => Ok(c.(physical := p))
  }

  function AgvPosition(c: Agv, at: Point): Agv
  {
    c.(physical := SendPosUpdate(c.physical, at))
  }

  /** The outcome of an AGV's handler, for the whole system. */
  function AfterAgv(sys: System, a: AgvId, r: Result<Agv>): Result<System>
  {
    match r
    case Err(e) => Err(e)
    case Ok(c) => Ok(SetAgvOf(sys, a, c))
  }

  function NextUp(sys: System, a: AgvId, s: StationId, spawn: Spawn): Result<System>
    requires s in sys.stations && s in sys.infos && Link(AgvOf(sys, a).up, s) != []
  {
    var c := AgvOf(sys, a);
    var q := Link(c.up, s);
    var taken := SetAgvOf(sys, a, c.(up := c.up[s := q[1..]]));
    AfterStation(taken, s, ProcessMessage(sys.infos[s], sys.stations[s], a, q[0], spawn))
  }

  function NextDue(sys: System, s: StationId, timer: Timer, spawn: Spawn): Result<System>
    requires s in sys.stations && s in sys.infos
  {
    AfterStation(sys, s, Fire(sys.infos[s], Fired(sys.stations[s], timer), timer, spawn))
  }

  function NextAgreed(sys: System, s: StationId, delay: real): Result<System>
    requires s in sys.stations && sys.stations[s].requests > 0
  {
    var st := sys.stations[s];
    AfterStation(sys, s, ConsensusFound(st.(requests := st.requests - 1), delay))
  }

  function NextNotAgreed(sys: System, s: StationId): Result<System>
    requires s in sys.stations && sys.stations[s].requests > 0
  {
    var st := sys.stations[s];
    AfterStation(sys, s, ConsensusFailed(st.(requests := st.requests - 1)))
  }

  function NextSpawning(sys: System, s: StationId): Result<System>
    requires s in sys.stations
  {
    AfterStation(sys, s, Ok(ScheduleSpawn(sys.stations[s])))
  }

  /** One step of the system: the state after the event, or the exception that is thrown. */
  function Next(sys: System, ev: Event): Result<System>
    requires Enabled(sys, ev) && sys.stations.Keys == sys.infos.Keys
  {
    match ev
    case Register(a, s) => AfterAgv(sys, a, Ok(AgvRegister(AgvOf(sys, a), s)))
    case Up(a, s, spawn) => NextUp(sys, a, s, spawn)
    case Down(a, s) => AfterAgv(sys, a, AgvDown(AgvOf(sys, a), s))
    case ToPhysical(a) => AfterAgv(sys, a, AgvToPhysical(AgvOf(sys, a)))
    case ToLogical(a) => AfterAgv(sys, a, Ok(AgvToLogical(AgvOf(sys, a))))
    case MoveDone(a) => AfterAgv(sys, a, AgvMoveDone(AgvOf(sys, a)))
    case PositionDue(a, at) => AfterAgv(sys, a, Ok(AgvPosition(AgvOf(sys, a), at)))
    case Due(s, timer, spawn) => NextDue(sys, s, timer, spawn)
    case Agreed(s, delay) => NextAgreed(sys, s, delay)
    case NotAgreed(s) => NextNotAgreed(sys, s)
    case StartSpawning(s) => NextSpawning(sys, s)
  }

  function AuthorityOf(t: Token): Option<StationId>
  {
    match t
    case Fresh => None
    case Joining(s, _) => Some(s)
    case HandingOver(s, _, _) => Some(s)
    case Introducing(s, _, _, _) => Some(s)
    case _ => Owner(t)
  }

  /** The leg of the drive order in flight, if there is one beyond the station's link. */
  function LegOf(t: Token): Option<Leg>
  {
    match t
    case Driving(_, leg, _) => Some(leg)
    case Introducing(_, leg, _, _) => Some(leg)
    case _ => None
  }

  function GoalOf(t: Token): Point
  {
    match t
    case Driving(_, _, p) => p
    case Introducing(_, _, _, p) => p
    case HandingOver(_, _, p) => p
    case _ => Point(0.0, 0.0)
  }

  /** What is on its way from an AGV with kinematics k to station s. */
  function UpLink(t: Token, k: Kinematics, s: StationId): seq<AgvMsg>
  {
    match t
    case Joining(o, at) => if o == s then [NewAuthority(true, at, Point(0.0, 0.0), k)] else []
    case Driving(o, Reported, p) => if o == s then [ReachedGoal(p)] else []
    case Introducing(o, leg, at, p) =>
      if o == s then [NewAuthority(false, at, p, k)] + (if leg == Reported then [ReachedGoal(p)] else []) else []
    case _ => []
  }

  ghost predicate OnlyPositions(msgs: seq<FieldMsg>)
  {
    forall k :: 0 <= k < |msgs| ==> msgs[k].PositionUpdate?
  }

  /** The position a logical AGV believes in after all positions on their way have come in. */
  function PositionAfter(last: Point, msgs: seq<FieldMsg>): Point
    decreases |msgs|
  {
    if msgs == [] then last
    else PositionAfter(if msgs[0].PositionUpdate? then msgs[0].at else last, msgs[1..])
  }

  /** The reports of the physical AGV: positions, and at the end of a move that the goal is reached. */
  ghost predicate ReportsFit(last: Point, msgs: seq<FieldMsg>, arrived: bool, goal: Point)
  {
    if arrived then
      && msgs != [] && msgs[|msgs| - 1] == ReachedGoalField && OnlyPositions(msgs[..|msgs| - 1])
      && PositionAfter(last, msgs) == goal
    else OnlyPositions(msgs)
  }

  ghost predicate DownFits(down: map<StationId, seq<StationMsg>>, t: Token)
  {
    forall s :: Link(down, s) == DownLink(t, s)
  }

  ghost predicate UpFits(up: map<StationId, seq<AgvMsg>>, t: Token, k: Kinematics)
  {
    forall s :: Link(up, s) == UpLink(t, k, s)
  }

  /** The AGV and its links are as the token says. */
  ghost predicate AgvFits(c: Agv, t: Token)
  {
    && c.registered == !t.Fresh?
    && c.logical.authority == AuthorityOf(t) && c.logical.outbox == []
    && DownFits(c.down, t) && UpFits(c.up, t, c.logical.kinematics)
    && c.logical.toPhysical == (if LegOf(t) == Some(Forwarded) then [GoalOf(t)] else [])
    && c.physical.moving == c.physical.updateDue == (LegOf(t) == Some(Moving))
    && c.physical.moves == (if LegOf(t) == Some(Moving) then 1 else 0)
    && (LegOf(t) == Some(Moving) ==> c.physical.goal == GoalOf(t))
    && ReportsFit(c.logical.last, c.physical.toLogical, LegOf(t) == Some(Arrived), GoalOf(t))
  }

  /** The stations the token speaks of exist, and a hand-over is on the way to a delivery station. */
  ghost predicate TokenFits(infos: map<StationId, StationInfo>, t: Token)
  {
    && (AuthorityOf(t).Some? ==> AuthorityOf(t).value in infos)
    && (t.HandingOver? || t.Introducing? ==> t.next in infos && DeliveryPoint(infos, t.goal))
    && (t.Introducing? ==> t.leg != Sent)
  }

  ghost predicate SharesFit(
    infos: map<StationId, StationInfo>, stations: map<StationId, Station>, a: AgvId, k: Kinematics, t: Token)
  {
    forall s :: s in stations && s in infos ==> Share(infos[s], stations[s], a, k, t)
  }

  /** The token describes where authority over AGV a lies. */
  ghost predicate Holds(sys: System, a: AgvId, t: Token)
  {
    && AgvFits(AgvOf(sys, a), t)
    && TokenFits(sys.infos, t)
    && SharesFit(sys.infos, sys.stations, a, AgvOf(sys, a).logical.kinematics, t)
  }

  ghost predicate StationsOk(stations: map<StationId, Station>)
  {
    forall s :: s in stations ==> stations[s].outbox == [] && StationOk(stations[s])
  }

  ghost predicate HasToken(sys: System, a: AgvId)
  {
    exists t :: Holds(sys, a, t)
  }

  /** Every AGV has a token, and the stations' own counters are in order. */
  ghost predicate Inv(sys: System)
  {
    && sys.stations.Keys == sys.infos.Keys && Consistent(sys.infos)
    && StationsOk(sys.stations)
    && (forall a: AgvId :: HasToken(sys, a))
  }

  /** The fixed data, the AGVs and their kinematics are the same. */
  ghost predicate SameFleet(sys: System, sys': System)
  {
    && sys'.infos == sys.infos && sys'.agvs.Keys == sys.agvs.Keys
    && forall a :: a in sys.agvs ==> sys'.agvs[a].logical.kinematics == sys.agvs[a].logical.kinematics
  }

  /** A step has kept the invariant and what is fixed. */
  ghost predicate Follows(sys: System, sys': System)
  {
    Inv(sys') && SameFleet(sys, sys')
  }

  lemma {:induction false} SomeToken(sys: System, a: AgvId) returns (t: Token)
    requires Inv(sys)
    ensures Holds(sys, a, t)
  {
    assert HasToken(sys, a);
    t :| Holds(sys, a, t);
  }

  /** What the invariant says about one station. */
  lemma {:induction false} StationFacts(sys: System, s: StationId)
    requires Inv(sys) && s in sys.stations
    ensures s in sys.infos && sys.infos[s].id == s && sys.infos[s].registry == sys.infos.Keys
    ensures InfoFits(sys.infos[s]) && StationOk(sys.stations[s]) && sys.stations[s].outbox == []
  {
  }

  lemma {:induction false} ShareOf(sys: System, s: StationId, a: AgvId, t: Token)
    requires Inv(sys) && s in sys.stations && Holds(sys, a, t)
    ensures s in sys.infos && Share(sys.infos[s], sys.stations[s], a, AgvOf(sys, a).logical.kinematics, t)
  {
  }

  /** Every station has what a station keeps. */
  lemma {:induction false} StationShares(sys: System, s: StationId)
    requires Inv(sys) && s in sys.stations
    ensures s in sys.infos && InfoFits(sys.infos[s]) && StationInv(sys.infos[s], sys.stations[s])
  {
    StationFacts(sys, s);
    forall a: AgvId
      ensures Kept(sys.infos[s], sys.stations[s], a)
    {
      var t := SomeToken(sys, a);
      ShareOf(sys, s, a, t);
    }
  }

  // Moving one AGV's token leaves all other AGVs where they are.

  /** A station that has nothing to do with the AGV before and after. */
  lemma {:induction false} ElsewhereFits(info: StationInfo, st: Station, a: AgvId, k: Kinematics, t: Token, t': Token)
    requires Share(info, st, a, k, t) && Owner(t) != Some(info.id) && Owner(t') != Some(info.id)
    ensures Share(info, st, a, k, t')
  {
  }

  function Replaced(sys: System, s: StationId, st: Station, a: AgvId, c: Agv): System
  {
    System(sys.infos, sys.stations[s := st], sys.agvs[a := c])
  }

  lemma {:induction false} OthersFit(sys: System, s: StationId, st: Station, b: AgvId, k: Kinematics, t: Token)
    requires s in sys.stations && SameFor(sys.stations[s], st, b) && SharesFit(sys.infos, sys.stations, b, k, t)
    ensures SharesFit(sys.infos, sys.stations[s := st], b, k, t)
  {
    if s in sys.infos { SameShare(sys.infos[s], sys.stations[s], st, b, k, t); }
  }

  lemma {:induction false} OtherHolds(sys: System, s: StationId, st: Station, a: AgvId, c: Agv, b: AgvId)
    requires s in sys.stations && b != a && OthersSame(sys.stations[s], st, a) && HasToken(sys, b)
    ensures HasToken(Replaced(sys, s, st, a, c), b)
  {
    var t :| Holds(sys, b, t);
    assert SameFor(sys.stations[s], st, b);
    OthersFit(sys, s, st, b, AgvOf(sys, b).logical.kinematics, t);
    assert AgvOf(Replaced(sys, s, st, a, c), b) == AgvOf(sys, b);
    assert Holds(Replaced(sys, s, st, a, c), b, t);
  }

  /** Of all stations only s has to do with the token. */
  predicate OnlyAt(t: Token, s: StationId)
  {
    Owner(t) == None || Owner(t) == Some(s)
  }

  lemma {:induction false} MovedFits(
      sys: System, s: StationId, st: Station, a: AgvId, k: Kinematics, t: Token, t': Token)
    requires s in sys.stations && Consistent(sys.infos) && SharesFit(sys.infos, sys.stations, a, k, t)
    requires OnlyAt(t, s) && OnlyAt(t', s) && s in sys.infos && Share(sys.infos[s], st, a, k, t')
    ensures SharesFit(sys.infos, sys.stations[s := st], a, k, t')
  {
    forall u | u in sys.stations && u in sys.infos && u != s
      ensures Share(sys.infos[u], sys.stations[u], a, k, t')
    {
      ElsewhereFits(sys.infos[u], sys.stations[u], a, k, t, t');
    }
  }

  lemma {:induction false} MovedHolds(sys: System, s: StationId, st: Station, a: AgvId, c: Agv, t: Token, t': Token)
    requires s in sys.stations && s in sys.infos && Consistent(sys.infos)
    requires Holds(sys, a, t) && OnlyAt(t, s) && OnlyAt(t', s)
    requires c.logical.kinematics == AgvOf(sys, a).logical.kinematics
    requires AgvFits(c, t') && TokenFits(sys.infos, t') && Share(sys.infos[s], st, a, c.logical.kinematics, t')
    ensures HasToken(Replaced(sys, s, st, a, c), a)
  {
    MovedFits(sys, s, st, a, c.logical.kinematics, t, t');
    assert AgvOf(Replaced(sys, s, st, a, c), a) == c;
    assert Holds(Replaced(sys, s, st, a, c), a, t');
  }

  lemma {:induction false} OkAfter(stations: map<StationId, Station>, s: StationId, st: Station)
    requires StationsOk(stations) && st.outbox == [] && StationOk(st) && s in stations
    ensures StationsOk(stations[s := st]) && stations[s := st].Keys == stations.Keys
  {
  }

  /** One AGV moves at one station: the invariant is kept. */
  lemma {:induction false} MoveToken(sys: System, s: StationId, st: Station, a: AgvId, c: Agv, t: Token, t': Token)
    requires Inv(sys) && s in sys.stations && st.outbox == [] && StationOk(st) && OthersSame(sys.stations[s], st, a)
    requires a in sys.agvs && Holds(sys, a, t) && OnlyAt(t, s) && OnlyAt(t', s)
    requires c.logical.kinematics == sys.agvs[a].logical.kinematics
    requires AgvFits(c, t') && TokenFits(sys.infos, t') && Share(sys.infos[s], st, a, c.logical.kinematics, t')
    ensures Follows(sys, Replaced(sys, s, st, a, c))
  {
    forall b: AgvId
      ensures HasToken(Replaced(sys, s, st, a, c), b)
    {
      if b == a {
        MovedHolds(sys, s, st, a, c, t, t');
      } else {
        OtherHolds(sys, s, st, a, c, b);
      }
    }
    OkAfter(sys.stations, s, st);
  }

  /** The two tokens look the same to every station. */
  predicate SameToStations(t: Token, t': Token)
  {
    || t' == t
    || (Owner(t) == Owner(t') == None)
    || (t.Driving? && t'.Driving? && t.station == t'.station && t.goal == t'.goal)
  }

  lemma {:induction false} LegShare(info: StationInfo, st: Station, a: AgvId, k: Kinematics, t: Token, t': Token)
    requires Share(info, st, a, k, t) && SameToStations(t, t')
    ensures Share(info, st, a, k, t')
  {
  }

  lemma {:induction false} LegFits(sys: System, a: AgvId, k: Kinematics, t: Token, t': Token)
    requires SharesFit(sys.infos, sys.stations, a, k, t) && SameToStations(t, t')
    ensures SharesFit(sys.infos, sys.stations, a, k, t')
  {
    forall u | u in sys.stations && u in sys.infos
      ensures Share(sys.infos[u], sys.stations[u], a, k, t')
    {
      LegShare(sys.infos[u], sys.stations[u], a, k, t, t');
    }
  }

  lemma {:induction false} LegHolds(sys: System, a: AgvId, c: Agv, t: Token, t': Token)
    requires Holds(sys, a, t) && AgvFits(c, t') && TokenFits(sys.infos, t') && SameToStations(t, t')
    requires c.logical.kinematics == AgvOf(sys, a).logical.kinematics
    ensures HasToken(SetAgvOf(sys, a, c), a)
  {
    LegFits(sys, a, c.logical.kinematics, t, t');
    assert AgvOf(SetAgvOf(sys, a, c), a) == c;
    assert Holds(SetAgvOf(sys, a, c), a, t');
  }

  lemma {:induction false} LegOthers(sys: System, a: AgvId, c: Agv, b: AgvId)
    requires b != a && HasToken(sys, b)
    ensures HasToken(SetAgvOf(sys, a, c), b)
  {
    var t :| Holds(sys, b, t);
    assert AgvOf(SetAgvOf(sys, a, c), b) == AgvOf(sys, b);
    assert Holds(SetAgvOf(sys, a, c), b, t);
  }

  /** A step of the AGV alone: its token changes only in what the stations do not see. */
  lemma {:induction false} MoveLeg(sys: System, a: AgvId, c: Agv, t: Token, t': Token)
    requires Inv(sys) && Holds(sys, a, t) && AgvFits(c, t') && TokenFits(sys.infos, t') && SameToStations(t, t')
    requires a in sys.agvs && c.logical.kinematics == sys.agvs[a].logical.kinematics
    ensures Follows(sys, SetAgvOf(sys, a, c))
  {
    forall b: AgvId
      ensures HasToken(SetAgvOf(sys, a, c), b)
    {
      if b == a { LegHolds(sys, a, c, t, t'); } else { LegOthers(sys, a, c, b); }
    }
  }

  // Steps of an AGV.

  lemma {:induction false} PostUpOne(c: Agv, s: StationId, msg: AgvMsg)
    ensures PostUp(c, [(s, msg)]) == c.(up := c.up[s := Link(c.up, s) + [msg]])
  {
    assert [(s, msg)][1..] == [];
  }

  lemma {:induction false} UpAppended(
      up: map<StationId, seq<AgvMsg>>, s: StationId, msg: AgvMsg, t: Token, t': Token, k: Kinematics)
    requires UpFits(up, t, k) && UpLink(t', k, s) == UpLink(t, k, s) + [msg]
    requires forall u :: u != s ==> UpLink(t', k, u) == UpLink(t, k, u)
    ensures UpFits(up[s := Link(up, s) + [msg]], t', k)
  {
    var up' := up[s := Link(up, s) + [msg]];
    forall u
      ensures Link(up', u) == UpLink(t', k, u)
    {
      assert Link(up, u) == UpLink(t, k, u);
    }
  }

  lemma {:induction false} DownTaken(down: map<StationId, seq<StationMsg>>, s: StationId, t: Token, t': Token)
    requires DownFits(down, t) && |DownLink(t, s)| == 1 && DownLink(t', s) == []
    requires forall u :: u != s ==> DownLink(t', u) == DownLink(t, u)
    ensures DownFits(down[s := Link(down, s)[1..]], t')
  {
    var down' := down[s := Link(down, s)[1..]];
    forall u
      ensures Link(down', u) == DownLink(t', u)
    {
      assert Link(down, u) == DownLink(t, u);
    }
  }

  lemma {:induction false} RegisterFits(c: Agv, t: Token, s: StationId)
    requires AgvFits(c, t) && !c.registered
    ensures t == Fresh && AgvFits(AgvRegister(c, s), Joining(s, c.logical.last))
    ensures AgvRegister(c, s).logical.kinematics == c.logical.kinematics
  {
    var l, t' := RegisterByAuthority(c.logical, s), Joining(s, c.logical.last);
    var msg := NewAuthority(true, c.logical.last, Point(0.0, 0.0), c.logical.kinematics);
    assert l.outbox == [(s, msg)];
    PostUpOne(c.(registered := true, logical := l.(outbox := [])), s, msg);
    UpAppended(c.up, s, msg, t, t', c.logical.kinematics);
    assert DownFits(c.down, t');
  }

  /** A message from a station comes from the AGV's authority. */
  lemma {:induction false} DownHead(c: Agv, t: Token, s: StationId)
    requires AgvFits(c, t) && Link(c.down, s) != []
    ensures AuthorityOf(t) == Some(s)
    ensures || (t == Driving(s, Sent, GoalOf(t)) && Link(c.down, s) == [Drive(t.goal)])
            || (t.HandingOver? && t.station == s && Link(c.down, s) == [Handover(t.goal, t.next)])
  {
    assert Link(c.down, s) == DownLink(t, s);
  }

  /** The AGV's step ends well: it fits the new token and has kept its kinematics. */
  ghost predicate StepFits(c: Agv, r: Result<Agv>, t: Token)
  {
    r.Ok? && AgvFits(r.value, t) && r.value.logical.kinematics == c.logical.kinematics
  }

  lemma {:induction false} DriveOrderFits(c: Agv, s: StationId, p: Point)
    requires AgvFits(c, Driving(s, Sent, p)) && Link(c.down, s) == [Drive(p)]
    ensures StepFits(c, AgvDown(c, s), Driving(s, Forwarded, p))
  {
    var t, t' := Driving(s, Sent, p), Driving(s, Forwarded, p);
    DownTaken(c.down, s, t, t');
    var k := c.logical.kinematics;
    assert UpFits(c.up, t, k) && UpFits(c.up, t', k);
  }

  lemma {:induction false} HandoverFits(c: Agv, s: StationId, next: StationId, p: Point)
    requires AgvFits(c, HandingOver(s, next, p)) && Link(c.down, s) == [Handover(p, next)]
    ensures StepFits(c, AgvDown(c, s), Introducing(next, Forwarded, c.logical.last, p))
  {
    var t, t' := HandingOver(s, next, p), Introducing(next, Forwarded, c.logical.last, p);
    var k, l := c.logical.kinematics, ReceiveStationMsg(c.logical, s, Handover(p, next)).value;
    var msg := NewAuthority(false, c.logical.last, p, k);
    assert l.outbox == [(next, msg)];
    PostUpOne(c.(down := c.down[s := Link(c.down, s)[1..]], logical := l.(outbox := [])), next, msg);
    DownTaken(c.down, s, t, t');
    assert UpFits(c.up, t, k);
    UpAppended(c.up, next, msg, t, t', k);
  }

  /** The AGV obeys, and nobody without authority ever tells it to. */
  lemma {:induction false} DownSafe(c: Agv, t: Token, s: StationId) returns (t': Token)
    requires AgvFits(c, t) && Link(c.down, s) != []
    ensures StepFits(c, AgvDown(c, s), t') && StepsTo(t, t')
  {
    DownHead(c, t, s);
    if t.Driving? {
      DriveOrderFits(c, s, t.goal);
      t' := Driving(s, Forwarded, t.goal);
    } else {
      HandoverFits(c, s, t.next, t.goal);
      t' := Introducing(t.next, Forwarded, c.logical.last, t.goal);
    }
  }

  /** The token changes in what no station sees; a hand-over becomes an introduction. */
  predicate StepsTo(t: Token, t': Token)
  {
    || t' == t
    || (t.Driving? && t'.Driving? && t.station == t'.station && t.goal == t'.goal)
    || (&& (t.HandingOver? || t.Introducing?) && t'.Introducing?
        && t.next == t'.next && t.goal == t'.goal && t'.leg != Sent)
  }

  function WithLeg(t: Token, leg: Leg): Token
    requires t.Driving? || t.Introducing?
  {
    match t
    case Driving(s, _, goal) => Driving(s, leg, goal)
    case Introducing(s, _, at, goal) => Introducing(s, leg, at, goal)
  }

  lemma {:induction false} LinksOfLeg(c: Agv, t: Token, leg: Leg)
    requires t.Driving? || t.Introducing?
    requires t.leg != Sent && leg != Sent && t.leg != Reported && leg != Reported
    requires DownFits(c.down, t) && UpFits(c.up, t, c.logical.kinematics)
    ensures DownFits(c.down, WithLeg(t, leg)) && UpFits(c.up, WithLeg(t, leg), c.logical.kinematics)
  {
    var t', k := WithLeg(t, leg), c.logical.kinematics;
    forall u
      ensures DownLink(t', u) == DownLink(t, u) && UpLink(t', k, u) == UpLink(t, k, u)
    {
    }
    assert forall u :: Link(c.down, u) == DownLink(t, u);
    assert forall u :: Link(c.up, u) == UpLink(t, k, u);
  }

  /** The physical AGV is idle whenever a drive order reaches it. */
  lemma {:induction false} ToPhysicalSafe(c: Agv, t: Token) returns (t': Token)
    requires AgvFits(c, t) && c.logical.toPhysical != []
    ensures StepFits(c, AgvToPhysical(c), t') && StepsTo(t, t')
  {
    assert LegOf(t) == Some(Forwarded);
    t' := WithLeg(t, Moving);
    assert DownFits(c.down, t) && UpFits(c.up, t, c.logical.kinematics);
    LinksOfLeg(c, t, Moving);
  }

  lemma {:induction false} PositionAfterEnd(last: Point, msgs: seq<FieldMsg>, p: Point)
    ensures PositionAfter(last, msgs + [PositionUpdate(p), ReachedGoalField]) == p
    decreases |msgs|
  {
    var all := msgs + [PositionUpdate(p), ReachedGoalField];
    if msgs == [] {
      assert all[1..] == [ReachedGoalField];
      assert [ReachedGoalField][1..] == [];
    } else {
      assert all[1..] == msgs[1..] + [PositionUpdate(p), ReachedGoalField];
      PositionAfterEnd(if msgs[0].PositionUpdate? then msgs[0].at else last, msgs[1..], p);
    }
  }

  lemma {:induction false} ArrivalReports(last: Point, msgs: seq<FieldMsg>, p: Point)
    requires OnlyPositions(msgs)
    ensures ReportsFit(last, msgs + [PositionUpdate(p), ReachedGoalField], true, p)
  {
    var all := msgs + [PositionUpdate(p), ReachedGoalField];
    PositionAfterEnd(last, msgs, p);
    assert all[..|all| - 1] == msgs + [PositionUpdate(p)];
  }

  lemma {:induction false} MoveDoneSafe(c: Agv, t: Token) returns (t': Token)
    requires AgvFits(c, t) && c.physical.moves > 0
    ensures StepFits(c, AgvMoveDone(c), t') && StepsTo(t, t')
  {
    assert LegOf(t) == Some(Moving);
    t' := WithLeg(t, Arrived);
    assert DownFits(c.down, t) && UpFits(c.up, t, c.logical.kinematics);
    LinksOfLeg(c, t, Arrived);
    ArrivalReports(c.logical.last, c.physical.toLogical, t.goal);
  }

  lemma {:induction false} PositionSafe(c: Agv, t: Token, at: Point)
    requires AgvFits(c, t) && c.physical.updateDue
    ensures StepFits(c, Ok(AgvPosition(c, at)), t)
  {
    assert DownFits(c.down, t) && UpFits(c.up, t, c.logical.kinematics);
  }

  /** Taking in a position keeps the position that will be believed in the end. */
  lemma {:induction false} ReportTaken(last: Point, msgs: seq<FieldMsg>, arrived: bool, goal: Point)
    requires ReportsFit(last, msgs, arrived, goal) && msgs != [] && msgs[0].PositionUpdate?
    ensures ReportsFit(msgs[0].at, msgs[1..], arrived, goal)
  {
    if arrived {
      assert msgs[1..][..|msgs| - 2] == msgs[..|msgs| - 1][1..];
    }
  }

  lemma {:induction false} LastReport(last: Point, msgs: seq<FieldMsg>, arrived: bool, goal: Point)
    requires ReportsFit(last, msgs, arrived, goal) && msgs != [] && msgs[0].ReachedGoalField?
    ensures arrived && msgs == [ReachedGoalField] && last == goal
  {
    if |msgs| == 1 {
      assert msgs[1..] == [];
      assert PositionAfter(last, msgs) == PositionAfter(last, msgs[1..]) == last;
    } else if arrived {
      assert false;
    }
  }

  /** The goal is reported to the authority, with the position the authority has asked for. */
  lemma {:induction false} GoalReported(c: Agv, t: Token)
    requires AgvFits(c, t) && c.physical.toLogical == [ReachedGoalField]
    requires LegOf(t) == Some(Arrived) && c.logical.last == GoalOf(t)
    ensures StepFits(c, Ok(AgvToLogical(c)), WithLeg(t, Reported))
  {
    var s, q, t' := AuthorityOf(t).value, c.physical.toLogical, WithLeg(t, Reported);
    assert q[1..] == [];
    var l := ReceiveFieldMsg(c.logical, q[0]);
    assert l.outbox == [(s, ReachedGoal(t.goal))];
    PostUpOne(c.(physical := c.physical.(toLogical := q[1..]), logical := l.(outbox := [])), s, ReachedGoal(t.goal));
    assert UpFits(c.up, t, c.logical.kinematics) && DownFits(c.down, t);
    UpAppended(c.up, s, ReachedGoal(t.goal), t, t', c.logical.kinematics);
    assert DownFits(c.down, t') by {
      forall u
        ensures Link(c.down, u) == DownLink(t', u)
      {
        assert Link(c.down, u) == DownLink(t, u);
      }
    }
  }

  lemma {:induction false} ToLogicalSafe(c: Agv, t: Token) returns (t': Token)
    requires AgvFits(c, t) && c.physical.toLogical != []
    ensures StepFits(c, Ok(AgvToLogical(c)), t') && StepsTo(t, t')
  {
    var q := c.physical.toLogical;
    if q[0].PositionUpdate? {
      ReportTaken(c.logical.last, q, LegOf(t) == Some(Arrived), GoalOf(t));
      assert DownFits(c.down, t) && UpFits(c.up, t, c.logical.kinematics);
      t' := t;
    } else {
      LastReport(c.logical.last, q, LegOf(t) == Some(Arrived), GoalOf(t));
      GoalReported(c, t);
      t' := WithLeg(t, Reported);
    }
  }

  lemma {:induction false} StepKeeps(infos: map<StationId, StationInfo>, t: Token, t': Token)
    requires TokenFits(infos, t) && StepsTo(t, t')
    ensures TokenFits(infos, t') && SameToStations(t, t')
  {
  }

  /** A step of an AGV never throws and keeps the invariant. */
  lemma {:induction false} AgvStepSafe(sys: System, a: AgvId, r: Result<Agv>, t: Token, t': Token)
    requires Inv(sys) && a in sys.agvs && Holds(sys, a, t) && StepFits(sys.agvs[a], r, t') && StepsTo(t, t')
    ensures AfterAgv(sys, a, r).Ok? && Follows(sys, AfterAgv(sys, a, r).value)
  {
    StepKeeps(sys.infos, t, t');
    MoveLeg(sys, a, r.value, t, t');
  }

  lemma {:induction false} RegisterSafe(sys: System, a: AgvId, s: StationId)
    requires Inv(sys) && s in sys.stations && a in sys.agvs && !sys.agvs[a].registered
    ensures Follows(sys, SetAgvOf(sys, a, AgvRegister(AgvOf(sys, a), s)))
  {
    var t := SomeToken(sys, a);
    RegisterFits(AgvOf(sys, a), t, s);
    MoveLeg(sys, a, AgvRegister(AgvOf(sys, a), s), t, Joining(s, AgvOf(sys, a).logical.last));
  }

  // The AGV's side of a station's step.

  /** The AGV is under the authority of s, with nothing on its way. */
  ghost predicate Quiet(c: Agv, s: StationId)
  {
    AgvFits(c, Waiting(s))
  }

  lemma {:induction false} QuietPauses(c: Agv, s: StationId, w: Wait)
    ensures Quiet(c, s) <==> AgvFits(c, Pausing(s, w))
  {
    var t, t', k := Waiting(s), Pausing(s, w), c.logical.kinematics;
    if Quiet(c, s) {
      assert DownFits(c.down, t') by { assert forall u :: Link(c.down, u) == DownLink(t, u); }
      assert UpFits(c.up, t', k) by { assert forall u :: Link(c.up, u) == UpLink(t, k, u); }
    }
    if AgvFits(c, t') {
      assert DownFits(c.down, t) by { assert forall u :: Link(c.down, u) == DownLink(t', u); }
      assert UpFits(c.up, t, k) by { assert forall u :: Link(c.up, u) == UpLink(t', k, u); }
    }
  }

  function Taken(c: Agv, s: StationId): Agv
    requires Link(c.up, s) != []
  {
    c.(up := c.up[s := Link(c.up, s)[1..]])
  }

  /** What can be next on the way from an AGV to a station. */
  lemma {:induction false} UpHead(c: Agv, t: Token, s: StationId)
    requires AgvFits(c, t) && Link(c.up, s) != []
    ensures AuthorityOf(t) == Some(s) && Link(c.up, s) == UpLink(t, c.logical.kinematics, s)
    ensures || t.Joining? || t.Introducing? || (t.Driving? && t.leg == Reported)
  {
    assert Link(c.up, s) == UpLink(t, c.logical.kinematics, s);
  }

  lemma {:induction false} UpTaken(up: map<StationId, seq<AgvMsg>>, s: StationId, t: Token, t': Token, k: Kinematics)
    requires UpFits(up, t, k) && Link(up, s) != [] && UpLink(t', k, s) == UpLink(t, k, s)[1..]
    requires forall u :: u != s ==> UpLink(t', k, u) == UpLink(t, k, u)
    ensures UpFits(up[s := Link(up, s)[1..]], t', k)
  {
    var up' := up[s := Link(up, s)[1..]];
    forall u
      ensures Link(up', u) == UpLink(t', k, u)
    {
      assert Link(up, u) == UpLink(t, k, u);
    }
  }

  /** After a report or a first registration has been taken in, the AGV is quiet. */
  lemma {:induction false} TakenQuiet(c: Agv, t: Token, s: StationId)
    requires AgvFits(c, t) && Link(c.up, s) != []
    requires (t.Joining? || (t.Driving? && t.leg == Reported)) && t.station == s
    ensures Quiet(Taken(c, s), s)
  {
    var t' := Waiting(s);
    UpTaken(c.up, s, t, t', c.logical.kinematics);
    assert DownFits(c.down, t') by { assert forall u :: Link(c.down, u) == DownLink(t, u); }
  }

  /** After an introduction has been taken in, the AGV goes on driving. */
  lemma {:induction false} TakenIntroduction(c: Agv, s: StationId, leg: Leg, at: Point, p: Point)
    requires AgvFits(c, Introducing(s, leg, at, p)) && Link(c.up, s) != [] && leg != Sent
    ensures AgvFits(Taken(c, s), Driving(s, leg, p))
  {
    var t, t' := Introducing(s, leg, at, p), Driving(s, leg, p);
    UpTaken(c.up, s, t, t', c.logical.kinematics);
    assert DownFits(c.down, t') by { assert forall u :: Link(c.down, u) == DownLink(t, u); }
  }

  function Sending(c: Agv, s: StationId, msg: StationMsg): Agv
  {
    c.(down := c.down[s := Link(c.down, s) + [msg]])
  }

  lemma {:induction false} DownAppended(
      down: map<StationId, seq<StationMsg>>, s: StationId, msg: StationMsg, t: Token, t': Token)
    requires DownFits(down, t) && DownLink(t', s) == DownLink(t, s) + [msg]
    requires forall u :: u != s ==> DownLink(t', u) == DownLink(t, u)
    ensures DownFits(down[s := Link(down, s) + [msg]], t')
  {
    var down' := down[s := Link(down, s) + [msg]];
    forall u
      ensures Link(down', u) == DownLink(t', u)
    {
      assert Link(down, u) == DownLink(t, u);
    }
  }

  lemma {:induction false} QuietSends(c: Agv, s: StationId, goal: Point, next: StationId)
    requires Quiet(c, s)
    ensures AgvFits(Sending(c, s, Drive(goal)), Driving(s, Sent, goal))
    ensures AgvFits(Sending(c, s, Handover(goal, next)), HandingOver(s, next, goal))
  {
    var t, k := Waiting(s), c.logical.kinematics;
    DownAppended(c.down, s, Drive(goal), t, Driving(s, Sent, goal));
    DownAppended(c.down, s, Handover(goal, next), t, HandingOver(s, next, goal));
    assert UpFits(c.up, Driving(s, Sent, goal), k) by { assert forall u :: Link(c.up, u) == UpLink(t, k, u); }
    assert UpFits(c.up, HandingOver(s, next, goal), k) by { assert forall u :: Link(c.up, u) == UpLink(t, k, u); }
  }

  /** The AGV after the station has posted what brings it to token t. */
  function Delivered(c: Agv, s: StationId, t: Token): Agv
  {
    if DownLink(t, s) == [] then c else Sending(c, s, DownLink(t, s)[0])
  }

  lemma {:induction false} QuietSettles(c: Agv, s: StationId, t: Token)
    requires Quiet(c, s) && Settled(t, s)
    ensures AgvFits(Delivered(c, s, t), t)
  {
    match t {
      case Waiting(_) =>
      case Pausing(_, w) => QuietPauses(c, s, w);
      case Driving(_, _, p) => QuietSends(c, s, p, s);
      case HandingOver(_, next, p) => QuietSends(c, s, p, next);
    }
  }

  // The system's side of a station's step.

  lemma {:induction false} PostOne(sys: System, s: StationId, a: AgvId, msg: StationMsg)
    ensures Post(sys, s, [(a, msg)]) == SetAgvOf(sys, a, Sending(AgvOf(sys, a), s, msg))
  {
    assert [(a, msg)][1..] == [];
  }

  lemma {:induction false} AfterPost(sys: System, s: StationId, st: Station, a: AgvId, c: Agv, t: Token)
    requires st.outbox == Posted(s, a, t)
    ensures AfterStation(SetAgvOf(sys, a, c), s, Ok(st)) ==
      Ok(Replaced(sys, s, st.(outbox := []), a, Delivered(c, s, t)))
  {
    if DownLink(t, s) != [] {
      var msg, taken := DownLink(t, s)[0], SetAgvOf(sys, a, c).(stations := sys.stations[s := st.(outbox := [])]);
      PostOne(taken, s, a, msg);
      assert AgvOf(taken, a) == c;
      assert sys.agvs[a := c][a := Sending(c, s, msg)] == sys.agvs[a := Sending(c, s, msg)];
    }
  }

  lemma {:induction false} OutboxUnseen(info: StationInfo, st: Station, st': Station, a: AgvId, k: Kinematics, t: Token)
    requires Lands(info, st, st', a, k, t)
    ensures var st1 := st'.(outbox := []); OthersSame(st, st1, a) && Share(info, st1, a, k, t) && StationOk(st1)
  {
    forall b: AgvId | b != a
      ensures SameFor(st, st'.(outbox := []), b)
    {
      assert SameFor(st, st', b);
    }
  }

  lemma {:induction false} LandedToken(
      sys: System, s: StationId, st: Station, a: AgvId, k: Kinematics, t: Token)
    requires Inv(sys) && s in sys.stations && Lands(sys.infos[s], sys.stations[s], st, a, k, t)
    ensures TokenFits(sys.infos, t) && OnlyAt(t, s) && st.outbox == Posted(s, a, t)
  {
    StationFacts(sys, s);
    if t.HandingOver? { assert IsRouteEnd(sys.infos[s], t.goal); }
  }

  /** A step of a station, with the AGV that has been told about it, keeps the invariant. */
  lemma {:induction false} StationStepSafe(
      sys: System, s: StationId, st: Station, a: AgvId, c: Agv, t: Token, t': Token)
    requires Inv(sys) && s in sys.stations && Holds(sys, a, t) && OnlyAt(t, s)
    requires a in sys.agvs && c.logical.kinematics == sys.agvs[a].logical.kinematics
    requires Lands(sys.infos[s], sys.stations[s], st, a, c.logical.kinematics, t')
    requires AgvFits(Delivered(c, s, t'), t')
    ensures var r := AfterStation(SetAgvOf(sys, a, c), s, Ok(st)); r.Ok? && Follows(sys, r.value)
  {
    LandedToken(sys, s, st, a, c.logical.kinematics, t');
    OutboxUnseen(sys.infos[s], sys.stations[s], st, a, c.logical.kinematics, t');
    AfterPost(sys, s, st, a, c, t');
    MoveToken(sys, s, st.(outbox := []), a, Delivered(c, s, t'), t, t');
  }
}
