/**
A pickup station as the object it is.  Its methods change its fields step by step.  What comes to it from
outside (messages, due timers, answers of the consensus service) keeps the station valid, and throws
exactly when the fields say so before.
*/
module StationObjects {
  import opened Results
  import Runs = StationRuns
  import Spec = Stations
  import opened StationSafety
  import opened Stations

  datatype Outcome = Done | Thrown(message: string)

  /** The object has come to the state the handler gives, or has thrown the handler's exception. */
  ghost predicate Matches<S>(r: Outcome, expected: Result<S>, now: S)
  {
    match expected
    case Ok(s) => r == Done && now == s
    case Err(e) => r == Thrown(e)
  }

  class AgvQueue {
    var occupancy: seq<AgvId>

    constructor ()
      ensures occupancy == []
    {
      occupancy := [];
    }

    method Next() returns (next: AgvId)
      requires occupancy != []
      modifies this
      ensures [next] + occupancy == old(occupancy)
    {
      next := occupancy[0];
      occupancy := occupancy[1..];
    }

    method Add(agv: AgvId)
      modifies this
      ensures occupancy == old(occupancy) + [agv]
    {
      occupancy := occupancy + [agv];
    }

    predicate HasAgv()
      reads this
    {
      occupancy != []
    }
  }

  class PickupStation {
    const info: StationInfo
    const queue: AgvQueue
    var owned: map<AgvId, AgvInfo>
    var consensus: Option<AgvId>
    var toInitialize: nat
    var retry: nat
    var scheduled: bool
    var timers: multiset<Timer>
    var requests: nat
    var outbox: seq<(AgvId, StationMsg)>

    ghost function State(): Station
      reads this, queue
    {
      Station(owned, queue.occupancy, consensus, toInitialize, retry, scheduled, timers, requests, outbox)
    }

    /** For every AGV the entry, the queue, the running consensus and the timers fit together. */
    ghost predicate Valid()
      reads this, queue
    {
      InfoFits(info) && StationInv(info, State())
    }

    constructor (info: StationInfo)
      ensures this.info == info && State() == NEW_STATION && fresh(queue)
      ensures InfoFits(info) ==> Valid()
    {
      this.info := info;
      queue := new AgvQueue();
      owned, consensus, toInitialize, retry, scheduled := map[], None, 0, 1, false;
      timers, requests, outbox := multiset{}, 0, [];
      new;
      NewStationKeeps(info);
    }

    method Schedule(timer: Timer)
      modifies this`timers
      ensures timers == old(timers) + multiset{timer}
    {
      timers := timers + multiset{timer};
    }

    method SetState(a: AgvId, state: AgvState)
      requires a in owned
      modifies this`owned
      ensures owned == old(owned)[a := old(owned)[a].(state := state)]
    {
      owned := owned[a := owned[a].(state := state)];
    }

    /** The subscript operator of agv_ownership_. */
    method Lookup(a: AgvId)
      modifies this`owned
      ensures State() == Spec.Touch(old(State()), a)
    {
      if a !in owned {
        owned := owned[a := DEFAULT_INFO];
      }
    }

    /**
    A valid station throws exactly when it has to refuse a new AGV, when a report comes too late or
    when the route of an AGV that reports is refused; otherwise it stays valid, and an AGV that joins the
    queue goes to its end.
    */
    method ProcessMessage(a: AgvId, msg: AgvMsg, spawn: Spawn) returns (r: Outcome)
      modifies this, queue
      ensures Matches(r, Spec.ProcessMessage(info, old(State()), a, msg, spawn), State())
      ensures var st := old(State());
        old(Valid()) && SpawnFits(info, spawn) && (msg.ReachedGoal? ==> Expected(info, st, a, msg)) ==>
          && (r.Thrown? <==> !Expected(info, st, a, msg) || LateReport(st, a, spawn) || RefusesReport(info, st, a))
          && (r == Done ==> Valid())
          && (r == Done ==> Runs.FirstInFirstOut(st, State(), Runs.Joins(st, Runs.Told(a, msg, spawn))))
    {
      ghost var st := State();
      ghost var keeps := Valid() && SpawnFits(info, spawn) && (msg.ReachedGoal? ==> Expected(info, st, a, msg));
      if msg.NewAuthority? {
        r := ProcessNewAuthority(a, msg.initial, msg.at, msg.destination, msg.kinematics);
      } else {
        r := ProcessReachedGoal(a, spawn);
      }
      if keeps {
        MessageKeeps(info, st, a, msg, spawn);
        if r == Done { Runs.QueueStep(info, st, Runs.Told(a, msg, spawn)); }
      }
    }

    /** The simulator runs a scheduled event. */
    method Fire(timer: Timer, spawn: Spawn) returns (r: Outcome)
      requires timer in timers
      modifies this, queue
      ensures Matches(r, Spec.Fire(info, Fired(old(State()), timer), timer, spawn), State())
      ensures var st := old(State());
        old(Valid()) && SpawnFits(info, spawn) ==>
          && (r.Thrown? <==> if timer == SpawnTimer then TooLate(st, spawn) else RefusesDue(info, st, timer))
          && (r == Done ==> Valid() && Runs.FirstInFirstOut(st, State(), []))
    {
      ghost var st, keeps := State(), Valid() && SpawnFits(info, spawn);
      timers := timers - multiset{timer};
      match timer {
        case UpdateTimer(a) => r := Update(a, spawn);
        case ConsensusTimer(a, route) => r := InitiateConsensus(a, route);
        case RetryToDelivery(a, order) => r := InitiateConsensusToDelivery(a, order);
        case RetryToPickup(a, order) => r := InitiateConsensusToPickup(a, order);
        case GoTimer(a) => r := NegotiationGo(a, spawn);
        case SpawnTimer => r := SpawnTO(spawn);
      }
      if keeps {
        FireKeeps(info, st, timer, spawn);
        if r == Done { Runs.RingInOrder(info, st, timer, spawn); }
      }
    }

    method ProcessReachedGoal(a: AgvId, spawn: Spawn) returns (r: Outcome)
      modifies this, queue
      ensures Matches(r, Spec.ProcessReachedGoal(info, old(State()), a, spawn), State())
    {
      Lookup(a);
      owned := owned[a := owned[a].(last := owned[a].next)];
      r := Update(a, spawn);
    }

    method FindDelivery(p: Point) returns (d: Option<nat>)
      ensures d == Spec.FindDelivery(info.deliveries, p)
    {
      var k := 0;
      while k < |info.deliveries|
        invariant 0 <= k <= |info.deliveries|
        invariant Spec.FindDelivery(info.deliveries[k..], p) == Spec.FindDelivery(info.deliveries, p)
      {
        if info.deliveries[k].1 == p {
          return Some(info.deliveries[k].0);
        }
        k := k + 1;
      }
      return None;
    }

    method AddToOwnership(a: AgvId, at: Point, k: Kinematics)
      modifies this`owned
      ensures owned == old(owned)[a := Announced(info, at, k)]
    {
      owned := owned[a := DEFAULT_INFO.(known := true, kinematics := k, last := at, nextStation := info.id)];
    }

    method ProcessNewAuthority(a: AgvId, initial: bool, at: Point, destination: Point, k: Kinematics)
      returns (r: Outcome)
      modifies this, queue
      ensures Matches(r, Spec.ProcessNewAuthority(info, old(State()), a, initial, at, destination, k), State())
    {
      if a in owned {
        return Thrown("Already having authority over AGV");
      }
      AddToOwnership(a, at, k);
      if initial {
        toInitialize := toInitialize + 1;
        queue.Add(a);
        SetState(a, WaitingInQueue);
        owned := owned[a := owned[a].(next := owned[a].last)];
        return Done;
      }
      r := Introduce(a, destination);
    }

    /** The AGV is on its way to a delivery station. */
    method Introduce(a: AgvId, destination: Point) returns (r: Outcome)
      requires a in owned
      modifies this`owned
      ensures match Spec.FindDelivery(info.deliveries, destination)
        case None => r == Thrown("assert station_id found")
        case Some(d) =>
          var e := old(owned)[a].(state := DriveToDelivery, next := destination, order := Order(d, true));
          r == Done && owned == old(owned)[a := e]
    {
      SetState(a, DriveToDelivery);
      owned := owned[a := owned[a].(next := destination)];
      var d := FindDelivery(owned[a].next);
      if d.None? {
        return Thrown("assert station_id found");
      }
      owned := owned[a := owned[a].(order := Order(d.value, true))];
      return Done;
    }

    /** getNextPoint changes the AGV's state, and on the way into the station its order. */
    method GetNextPoint(a: AgvId) returns (r: Outcome, p: Point)
      requires a in owned
      modifies this`owned
      ensures match Spec.GetNextPoint(info, old(owned)[a])
        case Ok((e, goal)) => r == Done && p == goal && owned == old(owned)[a := e]
        case Err(msg) => r == Thrown(msg)
    {
      p := Point(0.0, 0.0);
      match owned[a].state {
        case LeavingQueue =>
          SetState(a, DriveToPickupOut);
          return Done, info.outPickup;
        case NegotiatedDriveToDelivery =>
          if !owned[a].order.Initialized() {
            return Thrown("assert current_to.initialized"), p;
          }
          var d := ToDelivery(owned[a].order.delivery);
          if d !in info.routes {
            return Thrown("out of range"), p;
          }
          SetState(a, DriveToDelivery);
          return Done, info.routes[d].end;
        case NegotiatedDriveToPickup =>
          SetState(a, DriveToPickupIn);
          return Done, info.inPickup;
        case DriveToPickupIn =>
          owned := owned[a := owned[a].(order := NO_ORDER)];
          SetState(a, DriveToQueue);
          return Done, info.center;
        case _ =>
          return Thrown("unhandled"), p;
      }
    }

    method SendToNextPoint(a: AgvId) returns (r: Outcome)
      requires a in owned
      modifies this
      ensures Matches(r, Spec.SendToNextPoint(info, old(State()), a), State())
    {
      var p;
      r, p := GetNextPoint(a);
      if r.Thrown? { return; }
      owned := owned[a := owned[a].(next := p)];
      if owned[a].nextStation != info.id && owned[a].state == DriveToDelivery {
        if owned[a].nextStation !in info.registry {
          return Thrown("assert next_station in registry");
        }
        outbox := outbox + [(a, Handover(owned[a].next, owned[a].nextStation))];
        owned := owned - {a};
      } else {
        outbox := outbox + [(a, Drive(owned[a].next))];
      }
    }

    method Update(a: AgvId, spawn: Spawn) returns (r: Outcome)
      modifies this, queue
      ensures Matches(r, Spec.Update(info, old(State()), a, spawn), State())
      decreases if a in owned && owned[a].state == DriveToQueue then 1 else 0, 1
    {
      Lookup(a);
      if owned[a].last != owned[a].next {
        return Thrown("assert last_position == next_position");
      }
      if owned[a].state == WaitingInQueue {
        return Done;
      }
      if owned[a].state == DriveToDelivery {
        SetState(a, Unloading);
        Schedule(UpdateTimer(a));
        return Done;
      }
      r := UpdateFurther(a, spawn);
    }

    /** The rest of update. */
    method UpdateFurther(a: AgvId, spawn: Spawn) returns (r: Outcome)
      requires a in owned
      modifies this, queue
      ensures Matches(r, Spec.UpdateFurther(info, old(State()), a, spawn), State())
      decreases if owned[a].state == DriveToQueue then 1 else 0, 0
    {
      if owned[a].state == Unloading {
        SetState(a, UnloadingFinished);
      }
      if owned[a].last == info.center && owned[a].state == DriveToQueue {
        SetState(a, WaitingInQueue);
        queue.Add(a);
        r := SpawnTO(spawn);
        return;
      }
      if owned[a].state == DriveToPickupOut {
        SetState(a, NegotiatingDriveToDelivery);
        r := InitiateConsensusToDelivery(a, owned[a].order);
        return;
      }
      if owned[a].state == UnloadingFinished {
        SetState(a, NegotiatingDriveToPickup);
        assert State() == SetAgv(old(State()), a, old(owned)[a].(state := NegotiatingDriveToPickup));
        r := InitiateConsensusToPickup(a, owned[a].order);
        return;
      }
      r := SendToNextPoint(a);
    }

    method InitiateConsensusToDelivery(a: AgvId, order: Order) returns (r: Outcome)
      modifies this
      ensures Matches(r, Spec.InitiateConsensusToDelivery(info, old(State()), a, order), State())
    {
      if !order.Initialized() {
        return Thrown("assert current_to.initialized");
      }
      var d := ToDelivery(order.delivery);
      if d !in info.routes {
        return Thrown("out of range");
      }
      if info.routes[d].marks == [] {
        return Thrown("assert false");
      }
      r := InitiateConsensus(a, d);
    }

    method InitiateConsensusToPickup(a: AgvId, order: Order) returns (r: Outcome)
      modifies this
      ensures Matches(r, Spec.InitiateConsensusToPickup(info, old(State()), a, order), State())
    {
      if !order.Initialized() {
        return Thrown("assert current_to.initialized");
      }
      var d := ToPickup(order.delivery);
      if d !in info.routes {
        return Thrown("out of range");
      }
      if info.routes[d].marks == [] {
        return Thrown("Found route with no intersections");
      }
      r := InitiateConsensus(a, d);
    }

    method InitiateConsensus(a: AgvId, route: Route) returns (r: Outcome)
      modifies this
      ensures Matches(r, Spec.InitiateConsensus(info, old(State()), a, route), State())
    {
      Lookup(a);
      if consensus.Some? {
        Schedule(ConsensusTimer(a, route));
        return Done;
      }
      if !Passable(owned[a].kinematics, WayOf(info, route)) {
        return Thrown("calculateTimeTillPoints");
      }
      consensus := Some(a);
      requests := requests + 1;
      return Done;
    }

    /** The callback of findConsensus on success: a valid station throws exactly if the agreed start is over. */
    method ConsensusFound(delay: real) returns (r: Outcome)
      requires requests > 0
      modifies this
      ensures Matches(r, Spec.ConsensusFound(old(State()).(requests := old(requests) - 1), delay), State())
      ensures old(Valid()) ==> (r.Thrown? <==> delay <= 0.0) && (r == Done ==> Valid())
    {
      if Valid() { FoundKeeps(info, State(), delay); }
      requests := requests - 1;
      r := GoLater(delay);
    }

    method GoLater(delay: real) returns (r: Outcome)
      modifies this
      ensures Matches(r, Spec.ConsensusFound(old(State()), delay), State())
    {
      if consensus.None? {
        return Thrown("assert current_consensus has value");
      }
      retry := 1;
      Lookup(consensus.value);
      if delay <= 0.0 {
        return Thrown("assert start time in the future");
      }
      Schedule(GoTimer(consensus.value));
      consensus := None;
      return Done;
    }

    /** The callback of findConsensus on failure, which a valid station survives. */
    method ConsensusFailed() returns (r: Outcome)
      requires requests > 0
      modifies this
      ensures Matches(r, Spec.ConsensusFailed(old(State()).(requests := old(requests) - 1)), State())
      ensures old(Valid()) ==> r == Done && Valid()
    {
      if Valid() { FailedKeeps(info, State()); }
      requests := requests - 1;
      r := RetryLater();
    }

    method RetryLater() returns (r: Outcome)
      modifies this
      ensures Matches(r, Spec.ConsensusFailed(old(State())), State())
    {
      if consensus.None? {
        return Thrown("assert current_consensus has value");
      }
      var a := consensus.value;
      Lookup(a);
      var agv := owned[a];
      consensus := None;
      if agv.state == NegotiatingDriveToDelivery {
        Schedule(RetryToDelivery(a, agv.order));
        retry := retry + 1;
      } else if agv.state == NegotiatingDriveToPickup {
        Schedule(RetryToPickup(a, agv.order));
        retry := retry + 1;
      }
      return Done;
    }

    method NegotiationGo(a: AgvId, spawn: Spawn) returns (r: Outcome)
      modifies this, queue
      ensures Matches(r, Spec.NegotiationGo(info, old(State()), a, spawn), State())
    {
      Lookup(a);
      if owned[a].state == NegotiatingDriveToDelivery {
        SetState(a, NegotiatedDriveToDelivery);
      } else if owned[a].state == NegotiatingDriveToPickup {
        SetState(a, NegotiatedDriveToPickup);
      } else {
        return Thrown("invalid state");
      }
      r := Update(a, spawn);
    }

    method ScheduleSpawnTO()
      modifies this
      ensures State() == Spec.ScheduleSpawn(old(State())) && (old(Valid()) ==> Valid())
    {
      ghost var st, keeps := State(), Valid();
      scheduled := true;
      Schedule(SpawnTimer);
      if keeps {
        SpawnTimerUnseen(st);
        AloneKeeps(info, st, State());
      }
    }

    /** The AGV leaves the queue with a new order. */
    method AssignOrder(a: AgvId, spawn: Spawn)
      requires a in owned
      modifies this`owned
      ensures owned == old(owned)[a := Leaving(old(owned)[a], spawn)]
    {
      SetState(a, LeavingQueue);
      owned := owned[a := owned[a].(order := Order(spawn.delivery, true))];
      owned := owned[a := owned[a].(next := owned[a].last)];
      owned := owned[a := owned[a].(nextStation := spawn.nextStation)];
    }

    method SpawnTO(spawn: Spawn) returns (r: Outcome)
      modifies this, queue
      ensures Matches(r, Spec.SpawnTO(info, old(State()), spawn), State())
      decreases 0, 2
    {
      if !queue.HasAgv() { return Done; }
      if spawn.stopped || !scheduled {
        if toInitialize != 0 {
          return Thrown("Not enough time to start all AMRs at least once");
        }
        return Done;
      }
      var a := queue.Next();
      if a !in owned {
        return Thrown("out of range");
      }
      if !owned[a].known {
        return Thrown("assert not empty");
      }
      AssignOrder(a, spawn);
      assert State() == SetAgv(old(State()), a, owned[a]).(queue := old(State()).queue[1..]);
      r := Update(a, spawn);
      if r.Thrown? { return; }
      if toInitialize != 0 {
        toInitialize := toInitialize - 1;
        if toInitialize != 0 {
          Schedule(SpawnTimer);
        }
      }
    }
  }
}
