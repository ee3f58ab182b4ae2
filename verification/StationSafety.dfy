/**
What a station keeps, whatever it is told: for every AGV its entry, the queue, the running consensus
and the timers fit together.  A token says what happens to the AGV next, and who has authority over it.
*/
module StationSafety {
  import opened Results
  import opened Stations

  /** How far a drive order has come: from the station to the AGV, its motors and back. */
  datatype Leg = Sent | Forwarded | Moving | Arrived | Reported

  /** What an AGV that is not driving waits for. */
  datatype Wait = OnTimer(timer: Timer) | InConsensus

  /** Who has authority over an AGV, and what happens to it next. */
  datatype Token =
    | Fresh
    | Joining(station: StationId, at: Point)
    | Waiting(station: StationId)
    | Driving(station: StationId, leg: Leg, goal: Point)
    | HandingOver(station: StationId, next: StationId, goal: Point)
    | Introducing(next: StationId, leg: Leg, at: Point, goal: Point)
    | Pausing(station: StationId, wait: Wait)

  function Owner(t: Token): Option<StationId>
  {
    match t
    case Waiting(s) => Some(s)
    case Driving(s, _, _) => Some(s)
    case Pausing(s, _) => Some(s)
    case _ => None
  }

  /** What is on its way from station s to the AGV. */
  function DownLink(t: Token, s: StationId): seq<StationMsg>
  {
    match t
    case Driving(o, Sent, p) => if o == s then [Drive(p)] else []
    case HandingOver(o, next, p) => if o == s then [Handover(p, next)] else []
    case _ => []
  }

  // The fixed data.

  predicate DeliveryFits(info: StationInfo, delivery: (nat, Point))
  {
    && delivery.0 != 0 && ToDelivery(delivery.0) in info.routes
    && info.routes[ToDelivery(delivery.0)].end == delivery.1
  }

  /** Delivery stations have numbers other than 0, a route that ends at their position, and a route back. */
  ghost predicate InfoFits(info: StationInfo)
  {
    && info.id in info.registry
    && (forall k :: 0 <= k < |info.deliveries| ==> DeliveryFits(info, info.deliveries[k]))
    && (forall d :: ToDelivery(d) in info.routes ==> ToPickup(d) in info.routes)
  }

  ghost predicate IsRouteEnd(info: StationInfo, p: Point)
  {
    exists d :: ToDelivery(d) in info.routes && info.routes[ToDelivery(d)].end == p
  }

  /** The order is for an existing delivery station, the next station exists. */
  predicate SpawnFits(info: StationInfo, spawn: Spawn)
  {
    spawn.delivery != 0 && ToDelivery(spawn.delivery) in info.routes && spawn.nextStation in info.registry
  }

  predicate OrderFits(info: StationInfo, order: Order)
  {
    order.Initialized() && ToDelivery(order.delivery) in info.routes && ToPickup(order.delivery) in info.routes
  }

  // What the station knows about one AGV.

  /**
  An AGV that negotiates a route waits for the running consensus or for one of three timers; a
  consensus that has been started once has its times.
  */
  predicate NegotiationWait(info: StationInfo, e: AgvInfo, a: AgvId, wait: Wait, retry: Timer, route: Route)
  {
    && route in info.routes && info.routes[route].marks != []
    && (|| wait == OnTimer(ConsensusTimer(a, route))
        || (&& (wait == InConsensus || wait == OnTimer(GoTimer(a)) || wait == OnTimer(retry))
            && Passable(e.kinematics, info.routes[route])))
  }

  predicate PauseFits(info: StationInfo, e: AgvInfo, a: AgvId, wait: Wait)
  {
    match e.state
    case Unloading => e.nextStation == info.id && wait == OnTimer(UpdateTimer(a))
    case NegotiatingDriveToDelivery =>
      && e.nextStation in info.registry
      && NegotiationWait(info, e, a, wait, RetryToDelivery(a, e.order), ToDelivery(e.order.delivery))
    case NegotiatingDriveToPickup =>
      && e.nextStation == info.id
      && NegotiationWait(info, e, a, wait, RetryToPickup(a, e.order), ToPickup(e.order.delivery))
    case _ => false
  }

  /** The AGV drives to the point that its state and its order call for; once it is loaded off it stays here. */
  predicate DriveFits(info: StationInfo, e: AgvInfo)
  {
    match e.state
    case DriveToPickupOut => e.next == info.outPickup && OrderFits(info, e.order) && e.nextStation in info.registry
    case DriveToDelivery =>
      && OrderFits(info, e.order) && e.next == info.routes[ToDelivery(e.order.delivery)].end
      && e.nextStation == info.id
    case DriveToPickupIn => e.next == info.inPickup && OrderFits(info, e.order) && e.nextStation == info.id
    case DriveToQueue => e.next == info.center && e.order == NO_ORDER && e.nextStation == info.id
    case _ => false
  }

  /** The entry of the owning station is as the token says. */
  predicate EntryFits(info: StationInfo, e: AgvInfo, a: AgvId, t: Token)
  {
    && e.known
    && (t.Waiting? ==>
          e.state == WaitingInQueue && e.last == e.next && e.order == NO_ORDER && e.nextStation == info.id)
    && (t.Driving? ==> e.next == t.goal && DriveFits(info, e))
    && (t.Pausing? ==> e.last == e.next && OrderFits(info, e.order) && PauseFits(info, e, a, t.wait))
  }

  /** The station's data about AGV a is as the token says. */
  ghost predicate StationFits(st: Station, s: StationId, a: AgvId, t: Token)
  {
    && (a in st.owned <==> Owner(t) == Some(s))
    && multiset(st.queue)[a] == (if t == Waiting(s) then 1 else 0)
    && (st.consensus == Some(a) <==> t == Pausing(s, InConsensus))
    && (forall tm: Timer :: tm in st.timers && tm != SpawnTimer && tm.agv == a ==>
          t == Pausing(s, OnTimer(tm)) && st.timers[tm] == 1)
    && (t.Pausing? && t.station == s && t.wait.OnTimer? ==> t.wait.timer in st.timers)
  }

  /** The station's share: its data and, if it owns the AGV, its entry, with the AGV's kinematics. */
  ghost predicate Share(info: StationInfo, st: Station, a: AgvId, k: Kinematics, t: Token)
  {
    && StationFits(st, info.id, a, t)
    && (Owner(t) == Some(info.id) ==>
          a in st.owned && st.owned[a].kinematics == k && EntryFits(info, st.owned[a], a, t))
  }

  /** The station's own counters are in order. */
  predicate StationOk(st: Station)
  {
    && st.requests == (if st.consensus.Some? then 1 else 0)
    && st.toInitialize <= |st.queue|
  }

  ghost predicate Kept(info: StationInfo, st: Station, a: AgvId)
  {
    exists k, t :: Share(info, st, a, k, t)
  }

  /** What every step of a station keeps. */
  ghost predicate StationInv(info: StationInfo, st: Station)
  {
    StationOk(st) && forall a: AgvId :: Kept(info, st, a)
  }

  // A step for one AGV leaves all other AGVs where they are.

  /** The station's data about AGV b is the same. */
  ghost predicate SameFor(st: Station, st': Station, b: AgvId)
  {
    && (b in st.owned <==> b in st'.owned)
    && (b in st.owned ==> st.owned[b] == st'.owned[b])
    && multiset(st.queue)[b] == multiset(st'.queue)[b]
    && (st.consensus == Some(b) <==> st'.consensus == Some(b))
    && (forall tm: Timer :: tm != SpawnTimer && tm.agv == b ==> st.timers[tm] == st'.timers[tm])
  }

  ghost predicate OthersSame(st: Station, st': Station, a: AgvId)
  {
    forall b: AgvId :: b != a ==> SameFor(st, st', b)
  }

  ghost predicate SameForAll(st: Station, st': Station)
  {
    forall b: AgvId :: SameFor(st, st', b)
  }

  /** What the station sends to bring the AGV to token t. */
  function Posted(s: StationId, a: AgvId, t: Token): seq<(AgvId, StationMsg)>
  {
    if DownLink(t, s) == [] then [] else [(a, DownLink(t, s)[0])]
  }

  /** A step of the station has brought AGV a to token t, and has touched no other AGV. */
  ghost predicate Lands(info: StationInfo, st: Station, st': Station, a: AgvId, k: Kinematics, t: Token)
  {
    && StationOk(st') && OthersSame(st, st', a) && Share(info, st', a, k, t)
    && st'.outbox == st.outbox + Posted(info.id, a, t)
    && (Owner(t) == Some(info.id) || t.HandingOver?)
    && (t.HandingOver? ==> t.station == info.id && t.next in info.registry && IsRouteEnd(info, t.goal))
  }

  /** The AGV has been told all it has to know, or the first message is on its way. */
  predicate Settled(t: Token, s: StationId)
  {
    match t
    case Waiting(o) => o == s
    case Pausing(o, _) => o == s
    case Driving(o, leg, _) => o == s && leg == Sent
    case HandingOver(o, _, _) => o == s
    case _ => false
  }

  ghost predicate Settles(info: StationInfo, st: Station, st': Station, a: AgvId, k: Kinematics, t: Token)
  {
    Lands(info, st, st', a, k, t) && Settled(t, info.id)
  }

  /** The timer a pausing AGV waits for is its own. */
  ghost predicate OwnTimer(b: AgvId, t: Token)
  {
    t.Pausing? && t.wait.OnTimer? ==> t.wait.timer != SpawnTimer && t.wait.timer.agv == b
  }

  lemma {:induction false} EntryOwnTimer(info: StationInfo, e: AgvInfo, b: AgvId, t: Token)
    requires EntryFits(info, e, b, t)
    ensures OwnTimer(b, t)
  {
  }

  lemma {:induction false} SameFits(st: Station, st': Station, s: StationId, b: AgvId, t: Token)
    requires SameFor(st, st', b) && StationFits(st, s, b, t) && (Owner(t) == Some(s) ==> OwnTimer(b, t))
    ensures StationFits(st', s, b, t)
  {
  }

  lemma {:induction false} SameShare(info: StationInfo, st: Station, st': Station, b: AgvId, k: Kinematics, t: Token)
    requires SameFor(st, st', b) && Share(info, st, b, k, t)
    ensures Share(info, st', b, k, t)
  {
    if Owner(t) == Some(info.id) { EntryOwnTimer(info, st.owned[b], b, t); }
    SameFits(st, st', info.id, b, t);
  }

  lemma {:induction false} SameKept(info: StationInfo, st: Station, st': Station, b: AgvId)
    requires SameFor(st, st', b) && Kept(info, st, b)
    ensures Kept(info, st', b)
  {
    var k, t :| Share(info, st, b, k, t);
    SameShare(info, st, st', b, k, t);
  }

  /** A step for one AGV keeps the station's invariant. */
  lemma {:induction false} LandsKeeps(
      info: StationInfo, st: Station, st': Station, a: AgvId, k: Kinematics, t: Token)
    requires StationInv(info, st) && Lands(info, st, st', a, k, t)
    ensures StationInv(info, st')
  {
    forall b: AgvId
      ensures Kept(info, st', b)
    {
      if b == a {
        assert Share(info, st', a, k, t);
      } else {
        assert SameFor(st, st', b) && Kept(info, st, b);
        SameKept(info, st, st', b);
      }
    }
  }

  /** So does a step that concerns no AGV. */
  lemma {:induction false} AloneKeeps(info: StationInfo, st: Station, st': Station)
    requires StationInv(info, st) && StationOk(st') && SameForAll(st, st')
    ensures StationInv(info, st')
  {
    forall b: AgvId
      ensures Kept(info, st', b)
    {
      assert SameFor(st, st', b) && Kept(info, st, b);
      SameKept(info, st, st', b);
    }
  }

  lemma {:induction false} OthersTrans(st1: Station, st2: Station, st3: Station, a: AgvId)
    requires OthersSame(st1, st2, a) && OthersSame(st2, st3, a)
    ensures OthersSame(st1, st3, a)
  {
    forall b: AgvId | b != a
      ensures SameFor(st1, st3, b)
    {
      assert SameFor(st1, st2, b) && SameFor(st2, st3, b);
    }
  }

  // The building blocks of the handlers.

  /** The station owns the AGV, but has neither queued it nor planned anything for it. */
  ghost predicate Idle(st: Station, a: AgvId)
  {
    && a in st.owned
    && multiset(st.queue)[a] == 0
    && st.consensus != Some(a)
    && (forall tm: Timer :: tm != SpawnTimer && tm.agv == a ==> tm !in st.timers)
  }

  /** From st the station has come to st', in which it is free to plan for AGV a. */
  ghost predicate Ready(st: Station, st': Station, a: AgvId)
  {
    Idle(st', a) && StationOk(st') && OthersSame(st, st', a) && st'.outbox == st.outbox
  }

  lemma {:induction false} DrivingIsIdle(st: Station, s: StationId, a: AgvId, leg: Leg, p: Point)
    ensures StationFits(st, s, a, Driving(s, leg, p)) <==> Idle(st, a)
  {
    if StationFits(st, s, a, Driving(s, leg, p)) {
      forall tm: Timer | tm != SpawnTimer && tm.agv == a
        ensures tm !in st.timers
      {
      }
    }
  }

  lemma {:induction false} EntrySet(st: Station, st': Station, a: AgvId, e: AgvInfo)
    requires Ready(st, st', a)
    ensures Ready(st, SetAgv(st', a, e), a)
  {
    assert OthersSame(st', SetAgv(st', a, e), a);
    OthersTrans(st, st', SetAgv(st', a, e), a);
  }

  function WithTimer(st: Station, tm: Timer): Station
  {
    st.(timers := st.timers + multiset{tm})
  }

  function Fired(st: Station, tm: Timer): Station
  {
    st.(timers := st.timers - multiset{tm})
  }

  lemma {:induction false} TimerSet(st: Station, s: StationId, a: AgvId, tm: Timer)
    requires Idle(st, a) && tm != SpawnTimer && tm.agv == a
    ensures StationFits(WithTimer(st, tm), s, a, Pausing(s, OnTimer(tm))) && OthersSame(st, WithTimer(st, tm), a)
  {
  }

  /** The station waits for a timer before it goes on with the AGV. */
  lemma {:induction false} TimerLands(info: StationInfo, st0: Station, st: Station, a: AgvId, e: AgvInfo, tm: Timer)
    requires Ready(st0, st, a) && tm != SpawnTimer && tm.agv == a
    requires EntryFits(info, e, a, Pausing(info.id, OnTimer(tm)))
    ensures Settles(info, st0, WithTimer(SetAgv(st, a, e), tm), a, e.kinematics, Pausing(info.id, OnTimer(tm)))
  {
    var st1 := SetAgv(st, a, e);
    EntrySet(st0, st, a, e);
    TimerSet(st1, info.id, a, tm);
    OthersTrans(st0, st1, WithTimer(st1, tm), a);
  }

  lemma {:induction false} ConsensusSet(st: Station, s: StationId, a: AgvId)
    requires Idle(st, a) && StationOk(st) && st.consensus.None?
    ensures var st' := st.(consensus := Some(a), requests := st.requests + 1);
      StationFits(st', s, a, Pausing(s, InConsensus)) && OthersSame(st, st', a) && StationOk(st')
  {
    var st' := st.(consensus := Some(a), requests := st.requests + 1);
    forall b: AgvId | b != a
      ensures SameFor(st, st', b)
    {
    }
  }

  lemma {:induction false} ConsensusLands(info: StationInfo, st0: Station, st: Station, a: AgvId, e: AgvInfo)
    requires Ready(st0, st, a) && st.consensus.None? && EntryFits(info, e, a, Pausing(info.id, InConsensus))
    ensures var st' := SetAgv(st, a, e).(consensus := Some(a), requests := st.requests + 1);
      Settles(info, st0, st', a, e.kinematics, Pausing(info.id, InConsensus))
  {
    var st1 := SetAgv(st, a, e);
    EntrySet(st0, st, a, e);
    ConsensusSet(st1, info.id, a);
    OthersTrans(st0, st1, st1.(consensus := Some(a), requests := st1.requests + 1), a);
  }

  /** The wait that initiateConsensus leads to. */
  function WaitAfter(st: Station, a: AgvId, route: Route): Wait
  {
    if st.consensus.Some? then OnTimer(ConsensusTimer(a, route)) else InConsensus
  }

  /** The AGV's entry while it negotiates the route. */
  predicate Negotiates(info: StationInfo, e: AgvInfo, route: Route)
  {
    && e.known && e.last == e.next && OrderFits(info, e.order)
    && (|| (&& e.state == NegotiatingDriveToDelivery && route == ToDelivery(e.order.delivery)
            && e.nextStation in info.registry)
        || (&& e.state == NegotiatingDriveToPickup && route == ToPickup(e.order.delivery)
            && e.nextStation == info.id))
  }

  /** The station starts to negotiate a route for the AGV, unless no consensus runs and the times cannot be found. */
  lemma {:induction false} NegotiationLands(
      info: StationInfo, st0: Station, st: Station, a: AgvId, e: AgvInfo, route: Route)
    requires Ready(st0, st, a) && Negotiates(info, e, route) && info.routes[route].marks != []
    ensures var r := InitiateConsensus(info, SetAgv(st, a, e), a, route);
      && (r.Err? <==> st.consensus.None? && !Passable(e.kinematics, info.routes[route]))
      && (r.Ok? ==> Settles(info, st0, r.value, a, e.kinematics, Pausing(info.id, WaitAfter(st, a, route))))
  {
    if st.consensus.Some? {
      TimerLands(info, st0, st, a, e, ConsensusTimer(a, route));
    } else if Passable(e.kinematics, info.routes[route]) {
      ConsensusLands(info, st0, st, a, e);
    }
  }

  /** The station sends the AGV somewhere. */
  lemma {:induction false} DriveLands(info: StationInfo, st0: Station, st: Station, a: AgvId, e: AgvInfo)
    requires Ready(st0, st, a) && e.known && DriveFits(info, e)
    ensures var st' := SetAgv(st, a, e).(outbox := st.outbox + [(a, Drive(e.next))]);
      Settles(info, st0, st', a, e.kinematics, Driving(info.id, Sent, e.next))
  {
    var st1 := SetAgv(st, a, e);
    var st' := st1.(outbox := st.outbox + [(a, Drive(e.next))]);
    EntrySet(st0, st, a, e);
    assert OthersSame(st1, st', a);
    OthersTrans(st0, st1, st', a);
    assert Idle(st', a);
    DrivingIsIdle(st', info.id, a, Sent, e.next);
  }

  function Release(st: Station, a: AgvId, msg: StationMsg): Station
  {
    st.(outbox := st.outbox + [(a, msg)], owned := st.owned - {a})
  }

  lemma {:induction false} Released(st: Station, s: StationId, a: AgvId, msg: StationMsg, t: Token)
    requires Idle(st, a) && StationOk(st) && t.HandingOver?
    ensures var st' := Release(st, a, msg); OthersSame(st, st', a) && StationFits(st', s, a, t) && StationOk(st')
  {
  }

  /** The station hands the AGV over. */
  lemma {:induction false} HandoverLands(
      info: StationInfo, st0: Station, st: Station, a: AgvId, k: Kinematics, goal: Point, next: StationId)
    requires Ready(st0, st, a) && next in info.registry && IsRouteEnd(info, goal)
    ensures Settles(info, st0, Release(st, a, Handover(goal, next)), a, k, HandingOver(info.id, next, goal))
  {
    var msg, t := Handover(goal, next), HandingOver(info.id, next, goal);
    Released(st, info.id, a, msg, t);
    OthersTrans(st0, st, Release(st, a, msg), a);
  }

  /** The AGV can be sent on: it leaves the queue, its negotiation is over, or it enters the station. */
  predicate CanGoOn(info: StationInfo, e: AgvInfo)
  {
    && e.known
    && OrderFits(info, e.order)
    && (e.state in {LeavingQueue, NegotiatedDriveToDelivery} ==> e.nextStation in info.registry)
    && (e.state in {NegotiatedDriveToPickup, DriveToPickupIn} ==> e.nextStation == info.id)
    && (e.state in {LeavingQueue, NegotiatedDriveToDelivery, NegotiatedDriveToPickup, DriveToPickupIn})
  }

  /** Where the AGV is sent, and whether it is handed over on the way. */
  function SentTo(info: StationInfo, e: AgvInfo): Token
    requires CanGoOn(info, e)
  {
    match e.state
    case LeavingQueue => Driving(info.id, Sent, info.outPickup)
    case NegotiatedDriveToDelivery =>
      var goal := info.routes[ToDelivery(e.order.delivery)].end;
      if e.nextStation != info.id then HandingOver(info.id, e.nextStation, goal) else Driving(info.id, Sent, goal)
    case NegotiatedDriveToPickup => Driving(info.id, Sent, info.inPickup)
    case DriveToPickupIn => Driving(info.id, Sent, info.center)
  }

  lemma {:induction false} GoesOn(info: StationInfo, e: AgvInfo)
    requires CanGoOn(info, e)
    ensures GetNextPoint(info, e).Ok?
    ensures var (moved, goal) := GetNextPoint(info, e).value;
      && (SentTo(info, e).Driving? ==> DriveFits(info, moved.(next := goal)))
      && moved.known && moved.nextStation == e.nextStation
      && moved.kinematics == e.kinematics
      && (moved.state == DriveToDelivery ==> IsRouteEnd(info, goal) && e.nextStation in info.registry)
      && SentTo(info, e) == if moved.nextStation != info.id && moved.state == DriveToDelivery
                            then HandingOver(info.id, moved.nextStation, goal) else Driving(info.id, Sent, goal)
  {
    if e.state == NegotiatedDriveToDelivery {
      assert IsRouteEnd(info, info.routes[ToDelivery(e.order.delivery)].end);
    }
  }

  lemma {:induction false} SentOn(info: StationInfo, st: Station, a: AgvId, e: AgvInfo, moved: AgvInfo, goal: Point)
    requires GetNextPoint(info, e) == Ok((moved, goal))
    requires moved.nextStation != info.id && moved.state == DriveToDelivery ==> moved.nextStation in info.registry
    ensures SendToNextPoint(info, SetAgv(st, a, e), a) ==
      if moved.nextStation != info.id && moved.state == DriveToDelivery then
        Ok(Release(st, a, Handover(goal, moved.nextStation)))
      else Ok(SetAgv(st, a, moved.(next := goal)).(outbox := st.outbox + [(a, Drive(goal))]))
  {
    var st1 := SetAgv(st, a, e);
    assert st1.owned - {a} == st.owned - {a};
    assert st1.owned[a := moved.(next := goal)] == st.owned[a := moved.(next := goal)];
  }

  /** The end of update, for an AGV that can go on. */
  lemma {:induction false} NextPointLands(info: StationInfo, st0: Station, st: Station, a: AgvId, e: AgvInfo)
    requires Ready(st0, st, a) && CanGoOn(info, e)
    ensures var r := SendToNextPoint(info, SetAgv(st, a, e), a);
      r.Ok? && Settles(info, st0, r.value, a, e.kinematics, SentTo(info, e))
  {
    GoesOn(info, e);
    var (moved, goal) := GetNextPoint(info, e).value;
    SentOn(info, st, a, e, moved, goal);
    if moved.nextStation != info.id && moved.state == DriveToDelivery {
      HandoverLands(info, st0, st, a, e.kinematics, goal, moved.nextStation);
    } else {
      DriveLands(info, st0, st, a, moved.(next := goal));
    }
  }

  // spawnTO.

  /** spawnTO comes too late: the time is over before every initial AMR has started. */
  predicate TooLate(st: Station, spawn: Spawn)
  {
    st.queue != [] && (spawn.stopped || !st.scheduled) && st.toInitialize != 0
  }

  lemma {:induction false} FirstLeft(q: seq<AgvId>, x: AgvId)
    requires q != []
    ensures multiset(q)[x] == multiset(q[1..])[x] + if x == q[0] then 1 else 0
  {
    assert q == [q[0]] + q[1..];
    assert multiset(q) == multiset{q[0]} + multiset(q[1..]);
  }

  lemma {:induction false} LeftQueue(st: Station, s: StationId, b: AgvId)
    requires StationFits(st, s, b, Waiting(s)) && st.queue != [] && st.queue[0] == b && StationOk(st)
    ensures Ready(st, CountStart(st.(queue := st.queue[1..])), b)
  {
    FirstLeft(st.queue, b);
    var st' := CountStart(st.(queue := st.queue[1..]));
    forall x: AgvId | x != b
      ensures SameFor(st, st', x)
    {
      FirstLeft(st.queue, x);
    }
    forall tm: Timer | tm != SpawnTimer && tm.agv == b
      ensures tm !in st'.timers
    {
      assert tm !in st.timers;
    }
  }

  /** The first AGV in the queue gets its order; the countdown commutes with the update. */
  lemma {:induction false} SpawnUnfolded(info: StationInfo, st: Station, spawn: Spawn)
    requires st.queue != [] && !spawn.stopped && st.scheduled
    requires st.queue[0] in st.owned && st.owned[st.queue[0]].known
    ensures var b := st.queue[0];
      SpawnTO(info, st, spawn) ==
      SendToNextPoint(info, SetAgv(CountStart(st.(queue := st.queue[1..])), b, Leaving(st.owned[b], spawn)), b)
  {
    var b := st.queue[0];
    var st1 := SetAgv(st, b, Leaving(st.owned[b], spawn)).(queue := st.queue[1..]);
    assert Update(info, st1, b, spawn) == SendToNextPoint(info, st1, b);
  }

  /** The first AGV in the queue is sent out with a new order. */
  lemma {:induction false} SpawnLands(info: StationInfo, st: Station, b: AgvId, k: Kinematics, spawn: Spawn)
    requires InfoFits(info) && SpawnFits(info, spawn) && StationOk(st) && Share(info, st, b, k, Waiting(info.id))
    requires st.queue != [] && st.queue[0] == b && !spawn.stopped && st.scheduled
    ensures var r := SpawnTO(info, st, spawn);
      r.Ok? && Settles(info, st, r.value, b, k, Driving(info.id, Sent, info.outPickup))
  {
    LeftQueue(st, info.id, b);
    SpawnUnfolded(info, st, spawn);
    NextPointLands(info, st, CountStart(st.(queue := st.queue[1..])), b, Leaving(st.owned[b], spawn));
  }

  /** Only a waiting AGV is in the queue. */
  lemma {:induction false} HeadWaits(info: StationInfo, st: Station, b: AgvId, k: Kinematics, t: Token)
    requires Share(info, st, b, k, t) && b in st.queue
    ensures t == Waiting(info.id)
  {
    assert multiset(st.queue)[b] > 0;
  }

  // Messages.

  lemma {:induction false} Queued(st: Station, st': Station, s: StationId, a: AgvId, t: Token, n: nat)
    requires StationFits(st, s, a, t) && StationOk(st) && multiset(st.queue)[a] == 0 && n <= st.toInitialize + 1
    requires t.Driving? || Owner(t) != Some(s)
    requires a in st'.owned
    requires st' == st.(owned := st.owned[a := st'.owned[a]], toInitialize := n, queue := st.queue + [a])
    ensures StationFits(st', s, a, Waiting(s)) && OthersSame(st, st', a) && StationOk(st')
  {
    forall tm: Timer | tm in st'.timers && tm != SpawnTimer
      ensures tm.agv != a
    {
    }
    forall b: AgvId | b != a
      ensures SameFor(st, st', b)
    {
    }
  }

  /** A first registration puts the AGV into the queue. */
  lemma {:induction false} JoinLands(
      info: StationInfo, st: Station, a: AgvId, k: Kinematics, t: Token, at: Point, p: Point)
    requires StationOk(st) && Share(info, st, a, k, t) && Owner(t) != Some(info.id)
    ensures var r := ProcessNewAuthority(info, st, a, true, at, p, k);
      r.Ok? && Settles(info, st, r.value, a, k, Waiting(info.id)) && r.value.owned[a].last == at
  {
    var st' := ProcessNewAuthority(info, st, a, true, at, p, k).value;
    Queued(st, st', info.id, a, t, st.toInitialize + 1);
  }

  /** A delivery station that is found has a number and a route. */
  lemma {:induction false} FoundDelivery(info: StationInfo, deliveries: seq<(nat, Point)>, p: Point)
    requires forall k :: 0 <= k < |deliveries| ==> DeliveryFits(info, deliveries[k])
    requires forall d :: ToDelivery(d) in info.routes ==> ToPickup(d) in info.routes
    requires FindDelivery(deliveries, p).Some?
    ensures OrderFits(info, Order(FindDelivery(deliveries, p).value, true))
    ensures info.routes[ToDelivery(FindDelivery(deliveries, p).value)].end == p
  {
    if deliveries[0].1 != p { FoundDelivery(info, deliveries[1..], p); }
  }

  /** Entry k is the first one at p. */
  ghost predicate FirstAt(deliveries: seq<(nat, Point)>, p: Point, k: nat)
  {
    k < |deliveries| && deliveries[k].1 == p && forall j :: 0 <= j < k ==> deliveries[j].1 != p
  }

  /** The search finds the first delivery station at the point, if there is one. */
  lemma {:induction false} FirstDelivery(deliveries: seq<(nat, Point)>, p: Point, k: nat)
    ensures FirstAt(deliveries, p, k) ==> FindDelivery(deliveries, p) == Some(deliveries[k].0)
    ensures FindDelivery(deliveries, p).None? ==> !FirstAt(deliveries, p, k)
    ensures (forall j :: 0 <= j < |deliveries| ==> deliveries[j].1 != p) ==> FindDelivery(deliveries, p).None?
  {
    if deliveries != [] && deliveries[0].1 != p {
      var rest := deliveries[1..];
      FirstDelivery(rest, p, if k == 0 then 0 else k - 1);
      if FirstAt(deliveries, p, k) { assert FirstAt(rest, p, k - 1); }
    }
  }

  lemma {:induction false} Entered(st: Station, s: StationId, a: AgvId, t: Token, e: AgvInfo)
    requires StationFits(st, s, a, t) && StationOk(st) && Owner(t) != Some(s)
    ensures Ready(st, SetAgv(st, a, e), a)
  {
    forall tm: Timer | tm != SpawnTimer && tm.agv == a
      ensures tm !in st.timers
    {
    }
  }

  /** An introduction makes the station the owner, in the middle of the AGV's drive. */
  lemma {:induction false} IntroductionLands(
      info: StationInfo, st: Station, a: AgvId, k: Kinematics, t: Token, leg: Leg, at: Point, p: Point)
    requires InfoFits(info) && StationOk(st) && Share(info, st, a, k, t) && Owner(t) != Some(info.id)
    requires FindDelivery(info.deliveries, p).Some? && leg != Sent
    ensures var r := ProcessNewAuthority(info, st, a, false, at, p, k);
      r.Ok? && Lands(info, st, r.value, a, k, Driving(info.id, leg, p)) && r.value.owned[a].last == at
  {
    FoundDelivery(info, info.deliveries, p);
    var st' := ProcessNewAuthority(info, st, a, false, at, p, k).value;
    Entered(st, info.id, a, t, st'.owned[a]);
    DrivingIsIdle(st', info.id, a, leg, p);
  }

  lemma {:induction false} UpdateIs(info: StationInfo, st: Station, a: AgvId, spawn: Spawn)
    requires a in st.owned && st.owned[a].last == st.owned[a].next
    requires st.owned[a].state != WaitingInQueue && st.owned[a].state != DriveToDelivery
    ensures Update(info, st, a, spawn) == UpdateFurther(info, st, a, spawn)
  {
  }

  /** What update makes of a report. */
  function AfterReport(info: StationInfo, st: Station, a: AgvId, e: AgvInfo, spawn: Spawn): Result<Station>
    requires a in st.owned
  {
    match e.state
    case DriveToPickupOut =>
      InitiateConsensusToDelivery(info, SetAgv(st, a, e.(state := NegotiatingDriveToDelivery)), a, e.order)
    case DriveToDelivery => Ok(WithTimer(SetAgv(st, a, e.(state := Unloading)), UpdateTimer(a)))
    case DriveToQueue => SpawnTO(info, SetAgv(st, a, e.(state := WaitingInQueue)).(queue := st.queue + [a]), spawn)
    case _ => SendToNextPoint(info, SetAgv(st, a, e), a)
  }

  lemma {:induction false} ReportUnfolded(info: StationInfo, st: Station, a: AgvId, spawn: Spawn)
    requires a in st.owned && DriveFits(info, st.owned[a])
    ensures ProcessReachedGoal(info, st, a, spawn) ==
      AfterReport(info, st, a, st.owned[a].(last := st.owned[a].next), spawn)
  {
    var e := st.owned[a].(last := st.owned[a].next);
    var st1 := SetAgv(st, a, e);
    if e.state != DriveToDelivery { UpdateIs(info, st1, a, spawn); }
    assert forall x: AgvState :: st1.owned[a := e.(state := x)] == st.owned[a := e.(state := x)];
  }

  /** Negotiating the route for the first time fails: it has no intersections, or the times cannot be found. */
  predicate Refuses(info: StationInfo, st: Station, k: Kinematics, route: Route)
  {
    WayOf(info, route).marks == [] || (st.consensus.None? && !Passable(k, WayOf(info, route)))
  }

  lemma {:induction false} FirstNegotiation(
      info: StationInfo, st0: Station, st: Station, a: AgvId, e: AgvInfo, route: Route)
    requires Ready(st0, st, a) && Negotiates(info, e, route)
    ensures var st1 := SetAgv(st, a, e);
      var r := if route.ToDelivery? then InitiateConsensusToDelivery(info, st1, a, e.order)
               else InitiateConsensusToPickup(info, st1, a, e.order);
      && (r.Err? <==> Refuses(info, st, e.kinematics, route))
      && (r.Ok? ==> Settles(info, st0, r.value, a, e.kinematics, Pausing(info.id, WaitAfter(st, a, route))))
  {
    if info.routes[route].marks != [] { NegotiationLands(info, st0, st, a, e, route); }
  }

  lemma {:induction false} DrivingIsReady(info: StationInfo, st: Station, a: AgvId, k: Kinematics, t: Token)
    requires StationOk(st) && Share(info, st, a, k, t) && t.Driving? && t.station == info.id
    ensures Ready(st, st, a)
  {
    DrivingIsIdle(st, info.id, a, t.leg, t.goal);
  }

  /** A report of an AGV that does not come back to the queue. */
  lemma {:induction false} ReportLands(
      info: StationInfo, st: Station, a: AgvId, k: Kinematics, t: Token, spawn: Spawn) returns (t': Token)
    requires StationOk(st) && Share(info, st, a, k, t) && t.Driving? && t.station == info.id
    requires st.owned[a].state != DriveToQueue
    ensures var r := ProcessReachedGoal(info, st, a, spawn); var e := st.owned[a];
      && (r.Err? <==> e.state == DriveToPickupOut && Refuses(info, st, k, ToDelivery(e.order.delivery)))
      && (r.Ok? ==> Settles(info, st, r.value, a, k, t'))
      && t' == match e.state
               case DriveToPickupOut => Pausing(info.id, WaitAfter(st, a, ToDelivery(e.order.delivery)))
               case DriveToDelivery => Pausing(info.id, OnTimer(UpdateTimer(a)))
               case _ => Driving(info.id, Sent, info.center)
  {
    DrivingIsReady(info, st, a, k, t);
    ReportUnfolded(info, st, a, spawn);
    var e := st.owned[a].(last := st.owned[a].next);
    match e.state {
      case DriveToPickupOut =>
        var route := ToDelivery(e.order.delivery);
        FirstNegotiation(info, st, st, a, e.(state := NegotiatingDriveToDelivery), route);
        t' := Pausing(info.id, WaitAfter(st, a, route));
      case DriveToDelivery =>
        TimerLands(info, st, st, a, e.(state := Unloading), UpdateTimer(a));
        t' := Pausing(info.id, OnTimer(UpdateTimer(a)));
      case DriveToPickupIn =>
        NextPointLands(info, st, st, a, e);
        t' := Driving(info.id, Sent, info.center);
    }
  }

  /** The station with AGV a back in the queue. */
  function Requeued(st: Station, a: AgvId): Station
    requires a in st.owned
  {
    SetAgv(st, a, st.owned[a].(last := st.owned[a].next, state := WaitingInQueue)).(queue := st.queue + [a])
  }

  /** Back at the queue: the AGV joins the queue, and spawnTO is called. */
  lemma {:induction false} RequeueLands(
      info: StationInfo, st: Station, a: AgvId, k: Kinematics, t: Token, spawn: Spawn)
    requires StationOk(st) && Share(info, st, a, k, t) && t.Driving? && t.station == info.id
    requires st.owned[a].state == DriveToQueue
    ensures ProcessReachedGoal(info, st, a, spawn) == SpawnTO(info, Requeued(st, a), spawn)
    ensures Settles(info, st, Requeued(st, a), a, k, Waiting(info.id))
  {
    ReportUnfolded(info, st, a, spawn);
    DrivingIsIdle(st, info.id, a, t.leg, t.goal);
    Queued(st, Requeued(st, a), info.id, a, t, st.toInitialize);
  }

  /** A report of an AGV that the station does not own makes it own an AGV without a name. */
  lemma {:induction false} StrayReport(info: StationInfo, st: Station, a: AgvId, spawn: Spawn)
    requires a !in st.owned
    ensures var r := ProcessReachedGoal(info, st, a, spawn);
      && r.Ok? && r.value.owned.Keys == st.owned.Keys + {a} && !r.value.owned[a].known
      && !StationInv(info, r.value)
  {
    var st' := ProcessReachedGoal(info, st, a, spawn).value;
    forall k, t
      ensures !Share(info, st', a, k, t)
    {
    }
    assert !Kept(info, st', a);
  }

  // Timers and consensus.

  lemma {:induction false} TimerFired(st: Station, s: StationId, tm: Timer)
    requires tm != SpawnTimer && StationFits(st, s, tm.agv, Pausing(s, OnTimer(tm))) && StationOk(st)
    ensures Ready(st, Fired(st, tm), tm.agv)
  {
  }

  lemma {:induction false} SameEntry(st: Station, a: AgvId)
    requires a in st.owned
    ensures SetAgv(st, a, st.owned[a]) == st
  {
    assert st.owned[a := st.owned[a]] == st.owned;
  }

  /** A due timer starts a negotiation that is refused. */
  predicate RefusesDue(info: StationInfo, st: Station, tm: Timer)
  {
    match tm
    case UpdateTimer(a) =>
      a in st.owned && Refuses(info, st, st.owned[a].kinematics, ToPickup(st.owned[a].order.delivery))
    case ConsensusTimer(a, route) =>
      a in st.owned && st.consensus.None? && !Passable(st.owned[a].kinematics, WayOf(info, route))
    case _ => false
  }

  lemma {:induction false} UnloadedUnfolded(info: StationInfo, st: Station, a: AgvId, spawn: Spawn)
    requires a in st.owned && st.owned[a].state == Unloading && st.owned[a].last == st.owned[a].next
    ensures var e := st.owned[a].(state := NegotiatingDriveToPickup);
      Update(info, st, a, spawn) == InitiateConsensusToPickup(info, SetAgv(st, a, e), a, e.order)
  {
    UpdateIs(info, st, a, spawn);
  }

  /** Unloading is over. */
  lemma {:induction false} UnloadedLands(info: StationInfo, st: Station, a: AgvId, k: Kinematics, spawn: Spawn)
    returns (t: Token)
    requires StationOk(st) && Share(info, st, a, k, Pausing(info.id, OnTimer(UpdateTimer(a))))
    ensures var r := Update(info, Fired(st, UpdateTimer(a)), a, spawn);
      && (r.Err? <==> RefusesDue(info, st, UpdateTimer(a)))
      && (r.Ok? ==> Settles(info, st, r.value, a, k, t))
  {
    var st1, e := Fired(st, UpdateTimer(a)), st.owned[a];
    var route := ToPickup(e.order.delivery);
    TimerFired(st, info.id, UpdateTimer(a));
    UnloadedUnfolded(info, st1, a, spawn);
    FirstNegotiation(info, st, st1, a, e.(state := NegotiatingDriveToPickup), route);
    t := Pausing(info.id, WaitAfter(st1, a, route));
  }

  lemma {:induction false} RetryUnfolded(
      info: StationInfo, st: Station, e: AgvInfo, tm: Timer, spawn: Spawn) returns (route: Route)
    requires tm.ConsensusTimer? || tm.RetryToDelivery? || tm.RetryToPickup?
    requires EntryFits(info, e, tm.agv, Pausing(info.id, OnTimer(tm)))
    ensures Negotiates(info, e, route) && info.routes[route].marks != []
    ensures Fire(info, st, tm, spawn) == InitiateConsensus(info, st, tm.agv, route)
    ensures if tm.ConsensusTimer? then route == tm.route else Passable(e.kinematics, info.routes[route])
  {
    route := if e.state == NegotiatingDriveToDelivery then ToDelivery(e.order.delivery) else ToPickup(e.order.delivery);
  }

  /** The station tries again to start a consensus that could not run, or that has failed. */
  lemma {:induction false} RetryLands(info: StationInfo, st: Station, k: Kinematics, tm: Timer, spawn: Spawn)
    returns (t: Token)
    requires tm.ConsensusTimer? || tm.RetryToDelivery? || tm.RetryToPickup?
    requires StationOk(st) && Share(info, st, tm.agv, k, Pausing(info.id, OnTimer(tm)))
    ensures var r := Fire(info, Fired(st, tm), tm, spawn);
      && (r.Err? <==> RefusesDue(info, st, tm))
      && (r.Ok? ==> Settles(info, st, r.value, tm.agv, k, t))
  {
    var st1, e := Fired(st, tm), st.owned[tm.agv];
    var route := RetryUnfolded(info, st1, e, tm, spawn);
    TimerFired(st, info.id, tm);
    SameEntry(st1, tm.agv);
    NegotiationLands(info, st, st1, tm.agv, e, route);
    t := Pausing(info.id, WaitAfter(st1, tm.agv, route));
  }

  lemma {:induction false} GoUnfolded(info: StationInfo, st: Station, a: AgvId, spawn: Spawn, state: AgvState)
    requires a in st.owned && st.owned[a].last == st.owned[a].next
    requires || (st.owned[a].state == NegotiatingDriveToDelivery && state == NegotiatedDriveToDelivery)
             || (st.owned[a].state == NegotiatingDriveToPickup && state == NegotiatedDriveToPickup)
    ensures NegotiationGo(info, st, a, spawn) == SendToNextPoint(info, SetAgv(st, a, st.owned[a].(state := state)), a)
  {
    UpdateIs(info, SetAgv(st, a, st.owned[a].(state := state)), a, spawn);
  }

  /** The entry once the route is negotiated. */
  function Negotiated(e: AgvInfo): AgvInfo
  {
    e.(state := if e.state == NegotiatingDriveToDelivery then NegotiatedDriveToDelivery else NegotiatedDriveToPickup)
  }

  /** The negotiated time has come: the AGV drives off, or is handed over. */
  lemma {:induction false} GoLands(info: StationInfo, st: Station, a: AgvId, k: Kinematics, spawn: Spawn)
    requires StationOk(st) && Share(info, st, a, k, Pausing(info.id, OnTimer(GoTimer(a))))
    ensures CanGoOn(info, Negotiated(st.owned[a]))
    ensures var r := NegotiationGo(info, Fired(st, GoTimer(a)), a, spawn);
      r.Ok? && Settles(info, st, r.value, a, k, SentTo(info, Negotiated(st.owned[a])))
  {
    var st1, e := Fired(st, GoTimer(a)), st.owned[a];
    TimerFired(st, info.id, GoTimer(a));
    GoUnfolded(info, st1, a, spawn, Negotiated(e).state);
    NextPointLands(info, st, st1, a, Negotiated(e));
  }

  /** A due timer finds its AGV in the state it was set for. */
  lemma {:induction false} DueLands(info: StationInfo, st: Station, k: Kinematics, tm: Timer, spawn: Spawn)
    returns (t: Token)
    requires tm != SpawnTimer && StationOk(st) && Share(info, st, tm.agv, k, Pausing(info.id, OnTimer(tm)))
    ensures var r := Fire(info, Fired(st, tm), tm, spawn);
      && (r.Err? <==> RefusesDue(info, st, tm))
      && (r.Ok? ==> Settles(info, st, r.value, tm.agv, k, t))
  {
    match tm {
      case UpdateTimer(a) => t := UnloadedLands(info, st, a, k, spawn);
      case GoTimer(a) =>
        GoLands(info, st, a, k, spawn);
        t := SentTo(info, Negotiated(st.owned[a]));
      case _ => t := RetryLands(info, st, k, tm, spawn);
    }
  }

  /** The station after the consensus service has answered. */
  function Answered(st: Station, retry: nat): Station
    requires st.requests > 0
  {
    st.(consensus := None, requests := st.requests - 1, retry := retry)
  }

  lemma {:induction false} AnsweredReady(st: Station, s: StationId, a: AgvId, retry: nat)
    requires st.requests > 0 && StationFits(st, s, a, Pausing(s, InConsensus)) && StationOk(st)
    ensures Ready(st, Answered(st, retry), a)
  {
  }

  /** An agreed route: the AGV now waits for its time to go. */
  lemma {:induction false} FoundLands(info: StationInfo, st: Station, a: AgvId, k: Kinematics, delay: real)
    requires StationOk(st) && Share(info, st, a, k, Pausing(info.id, InConsensus)) && st.requests > 0
    ensures var r := ConsensusFound(st.(requests := st.requests - 1), delay);
      && (r.Err? <==> delay <= 0.0)
      && (r.Ok? ==> Settles(info, st, r.value, a, k, Pausing(info.id, OnTimer(GoTimer(a)))))
  {
    AnsweredReady(st, info.id, a, 1);
    SameEntry(Answered(st, 1), a);
    TimerLands(info, st, Answered(st, 1), a, st.owned[a], GoTimer(a));
  }

  function RetryTimer(a: AgvId, e: AgvInfo): Timer
  {
    if e.state == NegotiatingDriveToDelivery then RetryToDelivery(a, e.order) else RetryToPickup(a, e.order)
  }

  lemma {:induction false} FailedUnfolded(st: Station, a: AgvId)
    requires st.consensus == Some(a) && a in st.owned && st.requests > 0
    requires st.owned[a].state == NegotiatingDriveToDelivery || st.owned[a].state == NegotiatingDriveToPickup
    ensures ConsensusFailed(st.(requests := st.requests - 1)) ==
      Ok(WithTimer(Answered(st, st.retry + 1), RetryTimer(a, st.owned[a])))
  {
  }

  /** A failed consensus is tried again later. */
  lemma {:induction false} FailedLands(info: StationInfo, st: Station, a: AgvId, k: Kinematics)
    requires StationOk(st) && Share(info, st, a, k, Pausing(info.id, InConsensus)) && st.requests > 0
    ensures var r := ConsensusFailed(st.(requests := st.requests - 1));
      r.Ok? && Settles(info, st, r.value, a, k, Pausing(info.id, OnTimer(RetryTimer(a, st.owned[a]))))
  {
    FailedUnfolded(st, a);
    AnsweredReady(st, info.id, a, st.retry + 1);
    SameEntry(Answered(st, st.retry + 1), a);
    TimerLands(info, st, Answered(st, st.retry + 1), a, st.owned[a], RetryTimer(a, st.owned[a]));
  }

  lemma {:induction false} SpawnTimerUnseen(st: Station)
    ensures SameForAll(st, Fired(st, SpawnTimer)) && SameForAll(st, ScheduleSpawn(st))
  {
  }

  // What every step of a station keeps, and when it throws.

  lemma {:induction false} SomeShare(info: StationInfo, st: Station, a: AgvId) returns (k: Kinematics, t: Token)
    requires StationInv(info, st)
    ensures Share(info, st, a, k, t)
  {
    assert Kept(info, st, a);
    k, t :| Share(info, st, a, k, t);
  }

  lemma {:induction false} SpawnKeeps(info: StationInfo, st: Station, spawn: Spawn)
    requires InfoFits(info) && SpawnFits(info, spawn) && StationInv(info, st)
    ensures var r := SpawnTO(info, st, spawn);
      (r.Err? <==> TooLate(st, spawn)) && (r.Ok? ==> StationInv(info, r.value))
  {
    if st.queue != [] && !spawn.stopped && st.scheduled {
      var b := st.queue[0];
      var k, t := SomeShare(info, st, b);
      HeadWaits(info, st, b, k, t);
      SpawnLands(info, st, b, k, spawn);
      LandsKeeps(info, st, SpawnTO(info, st, spawn).value, b, k, Driving(info.id, Sent, info.outPickup));
    }
  }

  predicate Drives(e: AgvInfo)
  {
    e.state in {DriveToPickupOut, DriveToDelivery, DriveToPickupIn, DriveToQueue}
  }

  /** A new AGV is not owned yet and comes to a delivery station, or is an initial one; a driving AGV reports. */
  predicate Expected(info: StationInfo, st: Station, a: AgvId, msg: AgvMsg)
  {
    match msg
    case NewAuthority(initial, _, destination, _) =>
      a !in st.owned && (initial || FindDelivery(info.deliveries, destination).Some?)
    case ReachedGoal(_) => a in st.owned && Drives(st.owned[a])
  }

  /** The report ends in spawnTO, which then finds that not all initial AMRs have started in time. */
  predicate LateReport(st: Station, a: AgvId, spawn: Spawn)
  {
    && a in st.owned && st.owned[a].state == DriveToQueue
    && (spawn.stopped || !st.scheduled) && st.toInitialize != 0
  }

  /** The report starts a negotiation that is refused. */
  predicate RefusesReport(info: StationInfo, st: Station, a: AgvId)
  {
    && a in st.owned && st.owned[a].state == DriveToPickupOut
    && Refuses(info, st, st.owned[a].kinematics, ToDelivery(st.owned[a].order.delivery))
  }

  lemma {:induction false} ReportKeeps(info: StationInfo, st: Station, a: AgvId, spawn: Spawn)
    requires InfoFits(info) && SpawnFits(info, spawn) && StationInv(info, st) && a in st.owned && Drives(st.owned[a])
    ensures var r := ProcessReachedGoal(info, st, a, spawn);
      (r.Err? <==> LateReport(st, a, spawn) || RefusesReport(info, st, a)) && (r.Ok? ==> StationInv(info, r.value))
  {
    var k, t := SomeShare(info, st, a);
    if st.owned[a].state == DriveToQueue {
      RequeueLands(info, st, a, k, t, spawn);
      LandsKeeps(info, st, Requeued(st, a), a, k, Waiting(info.id));
      SpawnKeeps(info, Requeued(st, a), spawn);
    } else {
      var t' := ReportLands(info, st, a, k, t, spawn);
      var r := ProcessReachedGoal(info, st, a, spawn);
      if r.Ok? { LandsKeeps(info, st, r.value, a, k, t'); }
    }
  }

  lemma {:induction false} NewAuthorityKeeps(
      info: StationInfo, st: Station, a: AgvId, initial: bool, at: Point, p: Point, k: Kinematics)
    requires InfoFits(info) && StationInv(info, st)
    ensures var r := ProcessNewAuthority(info, st, a, initial, at, p, k);
      && (r.Err? <==> a in st.owned || (!initial && FindDelivery(info.deliveries, p).None?))
      && (r.Ok? ==> StationInv(info, r.value))
  {
    var r := ProcessNewAuthority(info, st, a, initial, at, p, k);
    if r.Ok? {
      var k', t := SomeShare(info, st, a);
      if initial {
        JoinLands(info, st, a, k, t, at, p);
        LandsKeeps(info, st, r.value, a, k, Waiting(info.id));
      } else {
        IntroductionLands(info, st, a, k, t, Forwarded, at, p);
        LandsKeeps(info, st, r.value, a, k, Driving(info.id, Forwarded, p));
      }
    }
  }

  /** A message to a station: when it throws, and that it keeps the invariant otherwise. */
  lemma {:induction false} MessageKeeps(info: StationInfo, st: Station, a: AgvId, msg: AgvMsg, spawn: Spawn)
    requires InfoFits(info) && SpawnFits(info, spawn) && StationInv(info, st)
    requires msg.ReachedGoal? ==> Expected(info, st, a, msg)
    ensures var r := ProcessMessage(info, st, a, msg, spawn);
      && (r.Err? <==> !Expected(info, st, a, msg) || LateReport(st, a, spawn) || RefusesReport(info, st, a))
      && (r.Ok? ==> StationInv(info, r.value))
  {
    match msg {
      case NewAuthority(initial, at, p, k) => NewAuthorityKeeps(info, st, a, initial, at, p, k);
      case ReachedGoal(_) => ReportKeeps(info, st, a, spawn);
    }
  }

  lemma {:induction false} TimerShare(info: StationInfo, st: Station, tm: Timer) returns (k: Kinematics)
    requires StationInv(info, st) && tm in st.timers && tm != SpawnTimer
    ensures Share(info, st, tm.agv, k, Pausing(info.id, OnTimer(tm)))
  {
    var t;
    k, t := SomeShare(info, st, tm.agv);
  }

  /** A due timer: when it throws, and that it keeps the invariant otherwise. */
  lemma {:induction false} FireKeeps(info: StationInfo, st: Station, tm: Timer, spawn: Spawn)
    requires InfoFits(info) && SpawnFits(info, spawn) && StationInv(info, st) && tm in st.timers
    ensures var r := Fire(info, Fired(st, tm), tm, spawn);
      && (r.Err? <==> if tm == SpawnTimer then TooLate(st, spawn) else RefusesDue(info, st, tm))
      && (r.Ok? ==> StationInv(info, r.value))
  {
    if tm == SpawnTimer {
      SpawnTimerUnseen(st);
      AloneKeeps(info, st, Fired(st, tm));
      SpawnKeeps(info, Fired(st, tm), spawn);
    } else {
      var k := TimerShare(info, st, tm);
      var t := DueLands(info, st, k, tm, spawn);
      var r := Fire(info, Fired(st, tm), tm, spawn);
      if r.Ok? { LandsKeeps(info, st, r.value, tm.agv, k, t); }
    }
  }

  lemma {:induction false} ConsensusShare(info: StationInfo, st: Station) returns (a: AgvId, k: Kinematics)
    requires StationInv(info, st) && st.requests > 0
    ensures st.consensus == Some(a) && Share(info, st, a, k, Pausing(info.id, InConsensus))
  {
    a := st.consensus.value;
    var t;
    k, t := SomeShare(info, st, a);
  }

  /** An agreement: when it throws, and that it keeps the invariant otherwise. */
  lemma {:induction false} FoundKeeps(info: StationInfo, st: Station, delay: real)
    requires StationInv(info, st) && st.requests > 0
    ensures var r := ConsensusFound(st.(requests := st.requests - 1), delay);
      (r.Err? <==> delay <= 0.0) && (r.Ok? ==> StationInv(info, r.value))
  {
    var a, k := ConsensusShare(info, st);
    FoundLands(info, st, a, k, delay);
    var r := ConsensusFound(st.(requests := st.requests - 1), delay);
    if r.Ok? { LandsKeeps(info, st, r.value, a, k, Pausing(info.id, OnTimer(GoTimer(a)))); }
  }

  /** A failed consensus never throws and keeps the invariant. */
  lemma {:induction false} FailedKeeps(info: StationInfo, st: Station)
    requires StationInv(info, st) && st.requests > 0
    ensures var r := ConsensusFailed(st.(requests := st.requests - 1)); r.Ok? && StationInv(info, r.value)
  {
    var a, k := ConsensusShare(info, st);
    FailedLands(info, st, a, k);
    var st' := ConsensusFailed(st.(requests := st.requests - 1)).value;
    LandsKeeps(info, st, st', a, k, Pausing(info.id, OnTimer(RetryTimer(a, st.owned[a]))));
  }

  lemma {:induction false} NewStationKeeps(info: StationInfo)
    ensures StationInv(info, NEW_STATION)
  {
    forall a: AgvId
      ensures Kept(info, NEW_STATION, a)
    {
      assert Share(info, NEW_STATION, a, NoKinematics, Fresh);
    }
  }

  // What the invariant means.

  /** The queue lists exactly the owned AGVs in state WaitingInQueue, each once. */
  lemma {:induction false} QueueIsExact(info: StationInfo, st: Station, a: AgvId)
    requires StationInv(info, st)
    ensures multiset(st.queue)[a] <= 1
    ensures a in st.queue <==> a in st.owned && st.owned[a].state == WaitingInQueue
  {
    var k, t := SomeShare(info, st, a);
    assert a in st.queue <==> multiset(st.queue)[a] > 0;
  }

  /** Where an AGV in a driving state is on its way to. */
  function Destination(info: StationInfo, e: AgvInfo): Point
    requires Drives(e)
  {
    match e.state
    case DriveToPickupOut => info.outPickup
    case DriveToDelivery => WayOf(info, ToDelivery(e.order.delivery)).end
    case DriveToPickupIn => info.inPickup
    case DriveToQueue => info.center
  }

  /** Every driving AGV is sent where its state and its order call for, and every other AGV stands where it was sent. */
  lemma {:induction false} PositionIsExact(info: StationInfo, st: Station, a: AgvId)
    requires StationInv(info, st) && a in st.owned
    ensures st.owned[a].next == if Drives(st.owned[a]) then Destination(info, st.owned[a]) else st.owned[a].last
  {
    var k, t := SomeShare(info, st, a);
  }

  /** An AGV has an order exactly while it is on its errand; it can be bound elsewhere only on its way out. */
  lemma {:induction false} ErrandIsExact(info: StationInfo, st: Station, a: AgvId)
    requires StationInv(info, st) && a in st.owned
    ensures var e := st.owned[a];
      && (if e.state in {WaitingInQueue, DriveToQueue} then e.order == NO_ORDER else OrderFits(info, e.order))
      && (e.nextStation != info.id ==> e.state in {DriveToPickupOut, NegotiatingDriveToDelivery})
  {
    var k, t := SomeShare(info, st, a);
  }

  /** The station holds a continuation of kind w for the AGV. */
  ghost predicate HasContinuation(st: Station, a: AgvId, w: Wait)
  {
    match w
    case InConsensus => st.consensus == Some(a)
    case OnTimer(tm) => tm != SpawnTimer && tm.agv == a && tm in st.timers
  }

  predicate Pauses(st: Station, a: AgvId)
  {
    a in st.owned && st.owned[a].state in {Unloading, NegotiatingDriveToDelivery, NegotiatingDriveToPickup}
  }

  lemma {:induction false} ContinuationIs(info: StationInfo, st: Station, a: AgvId, k: Kinematics, t: Token, w: Wait)
    requires Share(info, st, a, k, t)
    ensures HasContinuation(st, a, w) <==> t == Pausing(info.id, w)
  {
    if Owner(t) == Some(info.id) { EntryOwnTimer(info, st.owned[a], a, t); }
  }

  /** An AGV that is unloading or negotiating has exactly one continuation, any other AGV none. */
  lemma {:induction false} OneContinuation(info: StationInfo, st: Station, a: AgvId, w: Wait, w': Wait)
    requires StationInv(info, st)
    ensures HasContinuation(st, a, w) && HasContinuation(st, a, w') ==> w == w'
    ensures Pauses(st, a) <==> exists v :: HasContinuation(st, a, v)
  {
    var k, t := SomeShare(info, st, a);
    forall v
      ensures HasContinuation(st, a, v) <==> t == Pausing(info.id, v)
    {
      ContinuationIs(info, st, a, k, t, v);
    }
    if t.Pausing? && t.station == info.id { assert HasContinuation(st, a, t.wait); }
  }

  /** A consensus runs, and an AGV waits for its time to go, only for a route whose times can be found. */
  lemma {:induction false} NegotiatedIsPassable(info: StationInfo, st: Station, a: AgvId)
    requires StationInv(info, st) && (st.consensus == Some(a) || GoTimer(a) in st.timers)
    ensures a in st.owned && st.owned[a].kinematics.Kinematics?
    ensures exists route :: route in info.routes && Passable(st.owned[a].kinematics, info.routes[route])
  {
    var k, t := SomeShare(info, st, a);
    var d := st.owned[a].order.delivery;
    var route := if st.owned[a].state == NegotiatingDriveToDelivery then ToDelivery(d) else ToPickup(d);
    assert Passable(st.owned[a].kinematics, info.routes[route]);
  }

  /** The AGV gets its times on every route, and every route has intersections. */
  ghost predicate PassesAll(k: Kinematics, info: StationInfo)
  {
    forall route :: route in info.routes ==> info.routes[route].marks != [] && Passable(k, info.routes[route])
  }

  /** For such an AGV no negotiation is refused. */
  lemma {:induction false} NeverRefused(info: StationInfo, st: Station, a: AgvId, k: Kinematics, t: Token)
    requires Share(info, st, a, k, t) && PassesAll(k, info)
    ensures !RefusesReport(info, st, a)
    ensures forall tm :: tm in st.timers && tm != SpawnTimer && tm.agv == a ==> !RefusesDue(info, st, tm)
  {
  }
}
