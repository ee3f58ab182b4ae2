/**
What pickup stations, logical AGVs and physical AGVs do on each event.  Every handler is a
function from the state before to the state after, or to the exception it throws.  Clocks,
random choices and the next transport order are inputs.
*/
module Stations {
  import MotionTime
  import opened Results
  import RouteTimes

  type AgvId = nat
  type StationId = nat
  type Length = x: real | x >= 0.0
  type Positive = x: real | x > 0.0 witness 1.0

  datatype Point = Point(x: real, y: real)

  /** The highest velocity, the acceleration and the magnitude of the deceleration; by default all are zero. */
  datatype Kinematics =
    | NoKinematics
    | Kinematics(velocity: Positive, acceleration: Positive, deceleration: Positive)

  datatype Route = ToDelivery(delivery: nat) | ToPickup(delivery: nat)

  /** The end of a route, its length, and how far from its start its intersections are. */
  datatype Way = Way(end: Point, length: Length, marks: seq<Length>)

  const NO_WAY := Way(Point(0.0, 0.0), 0.0, [])

  /**
  calculateTimeTillPoints finds the times for a vehicle with these kinematics.  With zeros every time is a
  quotient of zeros, which compares with nothing, and the first check throws.
  */
  predicate Passable(k: Kinematics, way: Way)
  {
    k.Kinematics? && RouteTimes.Accepts(DriveOn(k, way), way.marks)
  }

  function DriveOn(k: Kinematics, way: Way): (d: MotionTime.Drive)
    requires k.Kinematics?
    ensures MotionTime.Physical(d)
  {
    MotionTime.Drive(way.length, k.velocity, k.acceleration, k.deceleration)
  }

  /** Passable is what the calculation of the times decides, whatever roots it draws. */
  lemma {:induction false} PassableIff(k: Kinematics, way: Way, accRoot: real, decRoot: real, whole: real)
    requires k.Kinematics? && MotionTime.Roots(DriveOn(k, way), accRoot, decRoot)
    requires var d := DriveOn(k, way);
      var c := MotionTime.CalculateVariables(d, accRoot, decRoot);
      MotionTime.Verified(d, c) ==> MotionTime.TimeFor(c, d.distance, whole)
    ensures Passable(k, way) <==> RouteTimes.Calculates(DriveOn(k, way), accRoot, decRoot, whole, way.marks)
  {
    RouteTimes.CalculatesIff(DriveOn(k, way), accRoot, decRoot, whole, way.marks);
  }

  datatype AgvState =
    | WaitingInQueue
    | LeavingQueue
    | DriveToPickupOut
    | NegotiatingDriveToDelivery
    | NegotiatedDriveToDelivery
    | DriveToDelivery
    | Unloading
    | UnloadingFinished
    | NegotiatingDriveToPickup
    | NegotiatedDriveToPickup
    | DriveToPickupIn
    | DriveToQueue

  /** A transport order; an order without a uuid or without a delivery station is not initialized. */
  datatype Order = Order(delivery: nat, named: bool) {
    predicate Initialized()
    {
      named && delivery != 0
    }
  }

  const NO_ORDER := Order(0, false)

  /** What a station stores about one of its AGVs.  `known` is false for a default entry. */
  datatype AgvInfo = AgvInfo(
    known: bool, kinematics: Kinematics, next: Point, last: Point,
    nextStation: StationId, state: AgvState, order: Order)

  const DEFAULT_INFO :=
    AgvInfo(false, NoKinematics, Point(0.0, 0.0), Point(0.0, 0.0), 0xFFFF_FFFF, WaitingInQueue, NO_ORDER)

  /**
  The fixed data of a station: its points, its routes to and from the delivery stations, the
  delivery stations in the order in which they are searched, and the pickup stations.
  */
  datatype StationInfo = StationInfo(
    id: StationId, center: Point, outPickup: Point, inPickup: Point,
    routes: map<Route, Way>, deliveries: seq<(nat, Point)>, registry: set<StationId>)

  /** The subscript operator of the routes: a route that is missing has no length. */
  function WayOf(info: StationInfo, route: Route): Way
  {
    if route in info.routes then info.routes[route] else NO_WAY
  }

  /** An event that a station has scheduled. */
  datatype Timer =
    | UpdateTimer(agv: AgvId)
    | ConsensusTimer(agv: AgvId, route: Route)
    | RetryToDelivery(agv: AgvId, order: Order)
    | RetryToPickup(agv: AgvId, order: Order)
    | GoTimer(agv: AgvId)
    | SpawnTimer

  datatype StationMsg = Drive(goal: Point) | Handover(goal: Point, next: StationId)

  datatype AgvMsg =
    | NewAuthority(initial: bool, at: Point, destination: Point, kinematics: Kinematics)
    | ReachedGoal(at: Point)

  /** The state of a station; `timers`, `requests` and `outbox` hold the effects it has caused. */
  datatype Station = Station(
    owned: map<AgvId, AgvInfo>, queue: seq<AgvId>, consensus: Option<AgvId>,
    toInitialize: nat, retry: nat, scheduled: bool,
    timers: multiset<Timer>, requests: nat, outbox: seq<(AgvId, StationMsg)>)

  const NEW_STATION := Station(map[], [], None, 0, 1, false, multiset{}, 0, [])

  /** What spawnTO reads from its surroundings: the clock, the next order, the next station. */
  datatype Spawn = Spawn(stopped: bool, delivery: nat, nextStation: StationId)

  /** The subscript operator of an unordered_map: a missing key gets a default entry. */
  function Touch(st: Station, a: AgvId): (r: Station)
    ensures a in r.owned
    ensures a in st.owned ==> r == st
  {
    if a in st.owned then st else st.(owned := st.owned[a := DEFAULT_INFO])
  }

  function SetAgv(st: Station, a: AgvId, e: AgvInfo): Station
  {
    st.(owned := st.owned[a := e])
  }

  function GetNextPoint(info: StationInfo, e: AgvInfo): Result<(AgvInfo, Point)>
  {
    match e.state
    case LeavingQueue => Ok((e.(state := DriveToPickupOut), info.outPickup))
    case NegotiatedDriveToDelivery =>
      if !e.order.Initialized() then Err("assert current_to.initialized")
      else if ToDelivery(e.order.delivery) !in info.routes then Err("out of range")
      else Ok((e.(state := DriveToDelivery), info.routes[ToDelivery(e.order.delivery)].end))
    case NegotiatedDriveToPickup => Ok((e.(state := DriveToPickupIn), info.inPickup))
    case DriveToPickupIn => Ok((e.(order := NO_ORDER, state := DriveToQueue), info.center))
    case _ => Err("unhandled")
  }

  /** A consensus is started at once or tried again later; starting it needs the times at the intersections. */
  function InitiateConsensus(info: StationInfo, st: Station, a: AgvId, route: Route): Result<Station>
  {
    var st := Touch(st, a);
    if st.consensus.Some? then
      Ok(st.(timers := st.timers + multiset{ConsensusTimer(a, route)}))
    else if !Passable(st.owned[a].kinematics, WayOf(info, route)) then
      Err("calculateTimeTillPoints")
    else
      Ok(st.(consensus := Some(a), requests := st.requests + 1))
  }

  function InitiateConsensusToDelivery(info: StationInfo, st: Station, a: AgvId, order: Order): Result<Station>
  {
    var route := ToDelivery(order.delivery);
    if !order.Initialized() then Err("assert current_to.initialized")
    else if route !in info.routes then Err("out of range")
    else if info.routes[route].marks == [] then Err("assert false")
    else InitiateConsensus(info, st, a, route)
  }

  function InitiateConsensusToPickup(info: StationInfo, st: Station, a: AgvId, order: Order): Result<Station>
  {
    var route := ToPickup(order.delivery);
    if !order.Initialized() then Err("assert current_to.initialized")
    else if route !in info.routes then Err("out of range")
    else if info.routes[route].marks == [] then Err("Found route with no intersections")
    else InitiateConsensus(info, st, a, route)
  }

  /** The end of update: send the AGV to its next point, or hand it over on the way to a delivery. */
  function SendToNextPoint(info: StationInfo, st: Station, a: AgvId): Result<Station>
    requires a in st.owned
  {
    match GetNextPoint(info, st.owned[a])
    case Err(e) => Err(e)
    case Ok((moved, goal)) =>
      var e := moved.(next := goal);
      if e.nextStation != info.id && e.state == DriveToDelivery then
        if e.nextStation !in info.registry then Err("assert next_station in registry")
        else Ok(st.(outbox := st.outbox + [(a, Handover(goal, e.nextStation))], owned := st.owned - {a}))
      else
        Ok(SetAgv(st, a, e).(outbox := st.outbox + [(a, Drive(goal))]))
  }

  function Update(info: StationInfo, st0: Station, a: AgvId, spawn: Spawn): Result<Station>
    decreases if a in st0.owned && st0.owned[a].state == DriveToQueue then 1 else 0, 1
  {
    var st := Touch(st0, a);
    var e := st.owned[a];
    if e.last != e.next then Err("assert last_position == next_position")
    else if e.state == WaitingInQueue then Ok(st)
    else if e.state == DriveToDelivery then
      Ok(SetAgv(st, a, e.(state := Unloading)).(timers := st.timers + multiset{UpdateTimer(a)}))
    else UpdateFurther(info, st, a, spawn)
  }

  /** The part of update that queues the AGV, negotiates for it or sends it on. */
  function UpdateFurther(info: StationInfo, st: Station, a: AgvId, spawn: Spawn): Result<Station>
    requires a in st.owned
    decreases if st.owned[a].state == DriveToQueue then 1 else 0, 0
  {
    var e := st.owned[a];
    if e.last == info.center && e.state == DriveToQueue then
      SpawnTO(info, SetAgv(st, a, e.(state := WaitingInQueue)).(queue := st.queue + [a]), spawn)
    else if e.state == DriveToPickupOut then
      InitiateConsensusToDelivery(info, SetAgv(st, a, e.(state := NegotiatingDriveToDelivery)), a, e.order)
    else if e.state == Unloading || e.state == UnloadingFinished then
      InitiateConsensusToPickup(info, SetAgv(st, a, e.(state := NegotiatingDriveToPickup)), a, e.order)
    else SendToNextPoint(info, st, a)
  }

  /** The entry of an AGV that leaves the queue with a new order. */
  function Leaving(e: AgvInfo, spawn: Spawn): AgvInfo
  {
    e.(state := LeavingQueue, order := Order(spawn.delivery, true), next := e.last, nextStation := spawn.nextStation)
  }

  /** spawnTO gives the AGV at the head of the queue a new order. */
  function SpawnTO(info: StationInfo, st: Station, spawn: Spawn): Result<Station>
    decreases 0, 2
  {
    if st.queue == [] then Ok(st)
    else if spawn.stopped || !st.scheduled then
      if st.toInitialize != 0 then Err("Not enough time to start all AMRs at least once") else Ok(st)
    else
      var a := st.queue[0];
      if a !in st.owned then Err("out of range")
      else if !st.owned[a].known then Err("assert not empty")
      else
        var e := st.owned[a];
        match Update(info, SetAgv(st, a, Leaving(e, spawn)).(queue := st.queue[1..]), a, spawn)
        case Err(msg) => Err(msg)
        case Ok(st) => Ok(CountStart(st))
  }

  /** The countdown of the AMRs that have not started yet. */
  function CountStart(st: Station): Station
  {
    if st.toInitialize == 0 then st
    else if st.toInitialize == 1 then st.(toInitialize := 0)
    else st.(toInitialize := st.toInitialize - 1, timers := st.timers + multiset{SpawnTimer})
  }

  function ProcessReachedGoal(info: StationInfo, st: Station, a: AgvId, spawn: Spawn): Result<Station>
  {
    var st := Touch(st, a);
    Update(info, SetAgv(st, a, st.owned[a].(last := st.owned[a].next)), a, spawn)
  }

  /** The first delivery station with the given position. */
  function FindDelivery(deliveries: seq<(nat, Point)>, p: Point): Option<nat>
  {
    if deliveries == [] then None
    else if deliveries[0].1 == p then Some(deliveries[0].0)
    else FindDelivery(deliveries[1..], p)
  }

  /** The entry that addToAGVOwnership makes. */
  function Announced(info: StationInfo, at: Point, k: Kinematics): AgvInfo
  {
    DEFAULT_INFO.(known := true, kinematics := k, last := at, nextStation := info.id)
  }

  function ProcessNewAuthority(info: StationInfo, st: Station, a: AgvId, initial: bool, at: Point,
                               destination: Point, k: Kinematics): Result<Station>
  {
    if a in st.owned then Err("Already having authority over AGV")
    else
      var e := Announced(info, at, k);
      if initial then
        var waiting := e.(state := WaitingInQueue, next := at);
        Ok(SetAgv(st, a, waiting).(toInitialize := st.toInitialize + 1, queue := st.queue + [a]))
      else
        match FindDelivery(info.deliveries, destination)
        case None => Err("assert station_id found")
        case Some(d) => Ok(SetAgv(st, a, e.(state := DriveToDelivery, next := destination, order := Order(d, true))))
  }

  function ProcessMessage(info: StationInfo, st: Station, a: AgvId, msg: AgvMsg, spawn: Spawn): Result<Station>
  {
    match msg
    case NewAuthority(initial, at, destination, k) => ProcessNewAuthority(info, st, a, initial, at, destination, k)
    case ReachedGoal(_) => ProcessReachedGoal(info, st, a, spawn)
  }

  function NegotiationGo(info: StationInfo, st: Station, a: AgvId, spawn: Spawn): Result<Station>
  {
    var st := Touch(st, a);
    var e := st.owned[a];
    if e.state == NegotiatingDriveToDelivery then
      Update(info, SetAgv(st, a, e.(state := NegotiatedDriveToDelivery)), a, spawn)
    else if e.state == NegotiatingDriveToPickup then
      Update(info, SetAgv(st, a, e.(state := NegotiatedDriveToPickup)), a, spawn)
    else Err("invalid state")
  }

  /** The success callback of a consensus; `delay` is the time from now to the agreed start. */
  function ConsensusFound(st: Station, delay: real): Result<Station>
  {
    if st.consensus.None? then Err("assert current_consensus has value")
    else if delay <= 0.0 then Err("assert start time in the future")
    else
      var a := st.consensus.value;
      var st := Touch(st, a);
      Ok(st.(retry := 1, timers := st.timers + multiset{GoTimer(a)}, consensus := None))
  }

  /** The failure callback of a consensus. */
  function ConsensusFailed(st: Station): Result<Station>
  {
    if st.consensus.None? then Err("assert current_consensus has value")
    else
      var a := st.consensus.value;
      var st := Touch(st, a).(consensus := None);
      var e := st.owned[a];
      if e.state == NegotiatingDriveToDelivery then
        Ok(st.(timers := st.timers + multiset{RetryToDelivery(a, e.order)}, retry := st.retry + 1))
      else if e.state == NegotiatingDriveToPickup then
        Ok(st.(timers := st.timers + multiset{RetryToPickup(a, e.order)}, retry := st.retry + 1))
      else Ok(st)
  }

  /** scheduleSpawnTO. */
  function ScheduleSpawn(st: Station): Station
  {
    st.(scheduled := true, timers := st.timers + multiset{SpawnTimer})
  }

  /** What a due timer calls. */
  function Fire(info: StationInfo, st: Station, timer: Timer, spawn: Spawn): Result<Station>
  {
    match timer
    case UpdateTimer(a) => Update(info, st, a, spawn)
    case ConsensusTimer(a, route) => InitiateConsensus(info, st, a, route)
    case RetryToDelivery(a, order) => InitiateConsensusToDelivery(info, st, a, order)
    case RetryToPickup(a, order) => InitiateConsensusToPickup(info, st, a, order)
    case GoTimer(a) => NegotiationGo(info, st, a, spawn)
    case SpawnTimer => SpawnTO(info, st, spawn)
  }

  datatype FieldMsg = PositionUpdate(at: Point) | ReachedGoalField

  /** A logical AGV; `toPhysical` and `outbox` hold what it has sent. */
  datatype Logical = Logical(
    kinematics: Kinematics, authority: Option<StationId>, last: Point,
    toPhysical: seq<Point>, outbox: seq<(StationId, AgvMsg)>)

  function RegisterByAuthority(l: Logical, s: StationId): Logical
  {
    l.(authority := Some(s), outbox := l.outbox + [(s, NewAuthority(true, l.last, Point(0.0, 0.0), l.kinematics))])
  }

  function ReceiveStationMsg(l: Logical, sender: StationId, msg: StationMsg): Result<Logical>
  {
    if l.authority != Some(sender) then Err("No authority to send messages")
    else match msg
      case Drive(goal) => Ok(l.(toPhysical := l.toPhysical + [goal]))
      case Handover(goal, next) =>
        var introduction := NewAuthority(false, l.last, goal, l.kinematics);
        Ok(l.(authority := Some(next), outbox := l.outbox + [(next, introduction)],
              toPhysical := l.toPhysical + [goal]))
  }

  function ReceiveFieldMsg(l: Logical, msg: FieldMsg): Logical
  {
    match msg
    case PositionUpdate(at) => l.(last := at)
    case ReachedGoalField =>
      if l.authority.Some? then l.(outbox := l.outbox + [(l.authority.value, ReachedGoal(l.last))]) else l
  }

  /** A physical AGV: its state, its goal, its position timer and the moves it has started. */
  datatype Physical = Physical(moving: bool, goal: Point, updateDue: bool, moves: nat, toLogical: seq<FieldMsg>)

  function ReceiveDrive(p: Physical, goal: Point): Result<Physical>
  {
    if p.moving then Err("cannot move while not idle")
    else if p.updateDue then Err("assert update event expired")
    else Ok(p.(goal := goal, moves := p.moves + 1, moving := true, updateDue := true))
  }

  /** The mobility model reports the end of a move; the AGV then stands at its goal. */
  function MobilityCallback(p: Physical): Result<Physical>
  {
    if !p.moving then Err("assert moving")
    else
      var reports := [PositionUpdate(p.goal), ReachedGoalField];
      Ok(p.(moving := false, updateDue := false, toLogical := p.toLogical + reports))
  }

  function SendPosUpdate(p: Physical, at: Point): Physical
  {
    p.(toLogical := p.toLogical + [PositionUpdate(at)])
  }
}
