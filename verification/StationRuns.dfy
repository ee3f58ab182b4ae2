/**
Runs of one station: AGVs leave its queue in the order in which they have joined it, and the spawn
timer is pending as long as initial AGVs have to be started.
*/
module StationRuns {
  import opened Results
  import opened StationSafety
  import opened Stations

  /** What can happen to a station: a message, a due timer, the answer to its consensus request, its start. */
  datatype StationEvent =
    | Told(agv: AgvId, msg: AgvMsg, spawn: Spawn)
    | Rings(timer: Timer, spawn: Spawn)
    | Agrees(delay: real)
    | Disagrees
    | Starts

  predicate CanHappen(info: StationInfo, st: Station, ev: StationEvent)
  {
    match ev
    case Told(a, msg, spawn) => SpawnFits(info, spawn) && (msg.ReachedGoal? ==> Expected(info, st, a, msg))
    case Rings(tm, spawn) => SpawnFits(info, spawn) && tm in st.timers
    case Agrees(_) => st.requests > 0
    case Disagrees => st.requests > 0
    case Starts => !st.scheduled
  }

  function After(info: StationInfo, st: Station, ev: StationEvent): Result<Station>
    requires CanHappen(info, st, ev)
  {
    match ev
    case Told(a, msg, spawn) => ProcessMessage(info, st, a, msg, spawn)
    case Rings(tm, spawn) => Fire(info, Fired(st, tm), tm, spawn)
    case Agrees(delay) => ConsensusFound(st.(requests := st.requests - 1), delay)
    case Disagrees => ConsensusFailed(st.(requests := st.requests - 1))
    case Starts => Ok(ScheduleSpawn(st))
  }

  lemma {:induction false} AfterKeeps(info: StationInfo, st: Station, ev: StationEvent)
    requires InfoFits(info) && StationInv(info, st) && CanHappen(info, st, ev) && After(info, st, ev).Ok?
    ensures StationInv(info, After(info, st, ev).value)
  {
    match ev {
      case Told(a, msg, spawn) => MessageKeeps(info, st, a, msg, spawn);
      case Rings(tm, spawn) => FireKeeps(info, st, tm, spawn);
      case Agrees(delay) => FoundKeeps(info, st, delay);
      case Disagrees => FailedKeeps(info, st);
      case Starts =>
        SpawnTimerUnseen(st);
        AloneKeeps(info, st, ScheduleSpawn(st));
    }
  }

  // Who joins the queue and who leaves it.

  /** The AGV that an event brings into the queue: an initial one, or one that is back from its order. */
  function Joins(st: Station, ev: StationEvent): seq<AgvId>
  {
    match ev
    case Told(a, NewAuthority(initial, _, _, _), _) => if initial then [a] else []
    case Told(a, ReachedGoal(_), _) => if a in st.owned && st.owned[a].state == DriveToQueue then [a] else []
    case _ => []
  }

  /** The AGVs that the messages send out of the station. */
  function Departing(st: Station, msgs: seq<(AgvId, StationMsg)>): seq<AgvId>
  {
    if msgs == [] then []
    else
      var front, a := Departing(st, msgs[..|msgs| - 1]), msgs[|msgs| - 1].0;
      if a in st.owned && st.owned[a].state == DriveToPickupOut then front + [a] else front
  }

  /** The AGVs that are sent out between two states of the station. */
  function Departs(st: Station, st': Station): seq<AgvId>
  {
    if |st.outbox| <= |st'.outbox| then Departing(st', st'.outbox[|st.outbox|..]) else []
  }

  /** The queue and what has to do with it is as before, and nobody is sent out. */
  predicate Undisturbed(st: Station, st': Station)
  {
    && st'.queue == st.queue && st'.toInitialize == st.toInitialize && st'.scheduled == st.scheduled
    && st'.timers[SpawnTimer] == st.timers[SpawnTimer] && st'.retry == st.retry && Departs(st, st') == []
  }

  lemma {:induction false} SentNothing(st: Station, st': Station)
    requires st'.outbox == st.outbox
    ensures Departs(st, st') == []
  {
  }

  lemma {:induction false} SentOne(st: Station, st': Station, a: AgvId, msg: StationMsg)
    requires st'.outbox == st.outbox + [(a, msg)]
    ensures Departs(st, st') == if a in st'.owned && st'.owned[a].state == DriveToPickupOut then [a] else []
  {
    var msgs := st'.outbox[|st.outbox|..];
    assert msgs == [(a, msg)];
    var front := msgs[..|msgs| - 1];
    assert front == [] && Departing(st', front) == [];
    assert Departing(st', front) + [a] == [a];
  }

  lemma {:induction false} SendUndisturbed(info: StationInfo, st: Station, a: AgvId)
    requires a in st.owned && st.owned[a].state != LeavingQueue && SendToNextPoint(info, st, a).Ok?
    ensures Undisturbed(st, SendToNextPoint(info, st, a).value)
  {
    var st' := SendToNextPoint(info, st, a).value;
    SentOne(st, st', a, st'.outbox[|st.outbox|].1);
  }

  lemma {:induction false} ConsensusUndisturbed(info: StationInfo, st: Station, a: AgvId, route: Route)
    requires InitiateConsensus(info, st, a, route).Ok?
    ensures Undisturbed(st, InitiateConsensus(info, st, a, route).value)
  {
    SentNothing(st, InitiateConsensus(info, st, a, route).value);
  }

  lemma {:induction false} UpdateUndisturbed(info: StationInfo, st: Station, a: AgvId, spawn: Spawn)
    requires a in st.owned && st.owned[a].state != LeavingQueue && st.owned[a].state != DriveToQueue
    requires Update(info, st, a, spawn).Ok?
    ensures Undisturbed(st, Update(info, st, a, spawn).value)
  {
    var e := st.owned[a];
    match e.state {
      case WaitingInQueue => SentNothing(st, st);
      case DriveToDelivery => SentNothing(st, Update(info, st, a, spawn).value);
      case DriveToPickupOut =>
        var st1 := SetAgv(st, a, e.(state := NegotiatingDriveToDelivery));
        ConsensusUndisturbed(info, st1, a, ToDelivery(e.order.delivery));
      case Unloading =>
        var st1 := SetAgv(st, a, e.(state := NegotiatingDriveToPickup));
        ConsensusUndisturbed(info, st1, a, ToPickup(e.order.delivery));
      case UnloadingFinished =>
        var st1 := SetAgv(st, a, e.(state := NegotiatingDriveToPickup));
        ConsensusUndisturbed(info, st1, a, ToPickup(e.order.delivery));
      case _ => SendUndisturbed(info, st, a);
    }
  }

  // spawnTO.

  /** The station after the first AGV of its queue has been sent out. */
  function Launched(info: StationInfo, st: Station, spawn: Spawn): Station
    requires st.queue != [] && st.queue[0] in st.owned
  {
    var b := st.queue[0];
    var e := Leaving(st.owned[b], spawn).(state := DriveToPickupOut, next := info.outPickup);
    SetAgv(CountStart(st.(queue := st.queue[1..])), b, e).(outbox := st.outbox + [(b, Drive(info.outPickup))])
  }

  /** spawnTO sends out the first AGV of the queue, if it is in time. */
  lemma {:induction false} SpawnIs(info: StationInfo, st: Station, spawn: Spawn)
    requires StationInv(info, st) && !TooLate(st, spawn)
    ensures if st.queue == [] || spawn.stopped || !st.scheduled then SpawnTO(info, st, spawn) == Ok(st)
      else st.queue[0] in st.owned && SpawnTO(info, st, spawn) == Ok(Launched(info, st, spawn))
  {
    if st.queue != [] && !spawn.stopped && st.scheduled {
      var b := st.queue[0];
      var k, t := SomeShare(info, st, b);
      HeadWaits(info, st, b, k, t);
      SpawnUnfolded(info, st, spawn);
      var e := Leaving(st.owned[b], spawn);
      SentOn(info, CountStart(st.(queue := st.queue[1..])), b, e, e.(state := DriveToPickupOut), info.outPickup);
    }
  }

  /**
  A launch takes the first AGV from the queue and sends it out with the order; the next spawn timer is
  set exactly if more than one initial AGV had to be started.
  */
  lemma {:induction false} LaunchStep(info: StationInfo, st: Station, spawn: Spawn)
    requires st.queue != [] && st.queue[0] in st.owned
    ensures var st', b := Launched(info, st, spawn), st.queue[0];
      && [b] + st'.queue == st.queue && Departs(st, st') == [b]
      && b in st'.owned && st'.owned[b].order == Order(spawn.delivery, true)
      && st'.owned[b].nextStation == spawn.nextStation
      && st'.toInitialize == (if st.toInitialize == 0 then 0 else st.toInitialize - 1)
      && st'.timers[SpawnTimer] == st.timers[SpawnTimer] + (if st.toInitialize >= 2 then 1 else 0)
      && st'.scheduled == st.scheduled
  {
    SentOne(st, Launched(info, st, spawn), st.queue[0], Drive(info.outPickup));
  }

  /** What joins the queue goes to its end, and who leaves it is at its front. */
  predicate FirstInFirstOut(st: Station, st': Station, joins: seq<AgvId>)
  {
    st.queue + joins == Departs(st, st') + st'.queue
  }

  lemma {:induction false} SpawnInOrder(info: StationInfo, st: Station, st0: Station, joins: seq<AgvId>, spawn: Spawn)
    requires StationInv(info, st) && !TooLate(st, spawn)
    requires st.queue == st0.queue + joins && st.outbox == st0.outbox
    ensures var r := SpawnTO(info, st, spawn);
      r.Ok? && FirstInFirstOut(st0, r.value, joins) && r.value.retry == st.retry
  {
    SpawnIs(info, st, spawn);
    if st.queue == [] || spawn.stopped || !st.scheduled {
      SentNothing(st0, st);
    } else {
      LaunchStep(info, st, spawn);
    }
  }

  lemma {:induction false} ReportInOrder(info: StationInfo, st: Station, a: AgvId, spawn: Spawn)
    requires InfoFits(info) && SpawnFits(info, spawn) && StationInv(info, st) && a in st.owned && Drives(st.owned[a])
    requires ProcessReachedGoal(info, st, a, spawn).Ok?
    ensures var st' := ProcessReachedGoal(info, st, a, spawn).value;
      FirstInFirstOut(st, st', if st.owned[a].state == DriveToQueue then [a] else []) && st'.retry == st.retry
  {
    ReportKeeps(info, st, a, spawn);
    if st.owned[a].state == DriveToQueue {
      var k, t := SomeShare(info, st, a);
      RequeueLands(info, st, a, k, t, spawn);
      LandsKeeps(info, st, Requeued(st, a), a, k, Waiting(info.id));
      SpawnInOrder(info, Requeued(st, a), st, [a], spawn);
    } else {
      UpdateUndisturbed(info, SetAgv(st, a, st.owned[a].(last := st.owned[a].next)), a, spawn);
    }
  }

  lemma {:induction false} NewInOrder(
      info: StationInfo, st: Station, a: AgvId, initial: bool, at: Point, p: Point, k: Kinematics)
    requires ProcessNewAuthority(info, st, a, initial, at, p, k).Ok?
    ensures var st' := ProcessNewAuthority(info, st, a, initial, at, p, k).value;
      FirstInFirstOut(st, st', if initial then [a] else [])
  {
    SentNothing(st, ProcessNewAuthority(info, st, a, initial, at, p, k).value);
  }

  lemma {:induction false} GoUndisturbed(info: StationInfo, st: Station, a: AgvId, spawn: Spawn)
    requires a in st.owned && NegotiationGo(info, st, a, spawn).Ok?
    ensures Undisturbed(st, NegotiationGo(info, st, a, spawn).value)
  {
    UpdateUndisturbed(info, SetAgv(st, a, Negotiated(st.owned[a])), a, spawn);
  }

  lemma {:induction false} TimerUndisturbed(info: StationInfo, st: Station, tm: Timer, spawn: Spawn)
    requires StationInv(info, st) && tm in st.timers && tm != SpawnTimer && Fire(info, Fired(st, tm), tm, spawn).Ok?
    ensures Undisturbed(st, Fire(info, Fired(st, tm), tm, spawn).value)
  {
    var k := TimerShare(info, st, tm);
    var st1 := Fired(st, tm);
    match tm {
      case UpdateTimer(a) => UpdateUndisturbed(info, st1, a, spawn);
      case ConsensusTimer(a, route) => ConsensusUndisturbed(info, st1, a, route);
      case RetryToDelivery(a, order) => ConsensusUndisturbed(info, st1, a, ToDelivery(order.delivery));
      case RetryToPickup(a, order) => ConsensusUndisturbed(info, st1, a, ToPickup(order.delivery));
      case GoTimer(a) => GoUndisturbed(info, st1, a, spawn);
    }
  }

  lemma {:induction false} SpawnRingInOrder(info: StationInfo, st: Station, spawn: Spawn)
    requires StationInv(info, st) && !TooLate(st, spawn)
    ensures var r := SpawnTO(info, Fired(st, SpawnTimer), spawn);
      r.Ok? && FirstInFirstOut(st, r.value, []) && r.value.retry == st.retry
  {
    SpawnTimerUnseen(st);
    AloneKeeps(info, st, Fired(st, SpawnTimer));
    SpawnInOrder(info, Fired(st, SpawnTimer), st, [], spawn);
  }

  lemma {:induction false} RingInOrder(info: StationInfo, st: Station, tm: Timer, spawn: Spawn)
    requires InfoFits(info) && SpawnFits(info, spawn) && StationInv(info, st) && tm in st.timers
    requires Fire(info, Fired(st, tm), tm, spawn).Ok?
    ensures var st' := Fire(info, Fired(st, tm), tm, spawn).value;
      FirstInFirstOut(st, st', []) && st'.retry == st.retry
  {
    FireKeeps(info, st, tm, spawn);
    if tm == SpawnTimer {
      SpawnRingInOrder(info, st, spawn);
    } else {
      TimerUndisturbed(info, st, tm, spawn);
    }
  }

  /** Every event: who joins goes to the end of the queue, who leaves was at its front. */
  lemma {:induction false} QueueStep(info: StationInfo, st: Station, ev: StationEvent)
    requires InfoFits(info) && StationInv(info, st) && CanHappen(info, st, ev) && After(info, st, ev).Ok?
    ensures FirstInFirstOut(st, After(info, st, ev).value, Joins(st, ev))
  {
    match ev {
      case Told(a, NewAuthority(initial, at, p, k), _) => NewInOrder(info, st, a, initial, at, p, k);
      case Told(a, ReachedGoal(_), spawn) => ReportInOrder(info, st, a, spawn);
      case Rings(tm, spawn) => RingInOrder(info, st, tm, spawn);
      case _ => SentNothing(st, After(info, st, ev).value);
    }
  }

  // Runs.

  ghost predicate IsStep(info: StationInfo, st: Station, ev: StationEvent, st': Station)
  {
    CanHappen(info, st, ev) && After(info, st, ev) == Ok(st')
  }

  ghost predicate IsRun(info: StationInfo, states: seq<Station>, events: seq<StationEvent>)
  {
    && |states| == |events| + 1 && states[0] == NEW_STATION
    && forall i :: 0 <= i < |events| ==> IsStep(info, states[i], events[i], states[i + 1])
  }

  lemma {:induction false} RunKeeps(info: StationInfo, states: seq<Station>, events: seq<StationEvent>, n: nat)
    requires InfoFits(info) && IsRun(info, states, events) && n <= |events|
    ensures StationInv(info, states[n])
  {
    if n == 0 {
      NewStationKeeps(info);
    } else {
      RunKeeps(info, states, events, n - 1);
      assert IsStep(info, states[n - 1], events[n - 1], states[n - 1 + 1]);
      AfterKeeps(info, states[n - 1], events[n - 1]);
    }
  }

  /** The AGVs that the first n events have brought into the queue, in order. */
  function Joined(states: seq<Station>, events: seq<StationEvent>, n: nat): seq<AgvId>
    requires |states| == |events| + 1 && n <= |events|
  {
    if n == 0 then [] else Joined(states, events, n - 1) + Joins(states[n - 1], events[n - 1])
  }

  /** The AGVs that the station has sent out during the first n events, in order. */
  function Departed(states: seq<Station>, events: seq<StationEvent>, n: nat): seq<AgvId>
    requires |states| == |events| + 1 && n <= |events|
  {
    if n == 0 then [] else Departed(states, events, n - 1) + Departs(states[n - 1], states[n])
  }

  lemma {:induction false} MovedOn(left: seq<AgvId>, q: seq<AgvId>, joins: seq<AgvId>, d: seq<AgvId>, q': seq<AgvId>)
    requires q + joins == d + q'
    ensures (left + q) + joins == (left + d) + q'
  {
    assert (left + q) + joins == left + (q + joins);
    assert (left + d) + q' == left + (d + q');
  }

  /** In every run: those who have joined are those who have left, followed by the queue, in the same order. */
  lemma {:induction false} QueueIsFifo(info: StationInfo, states: seq<Station>, events: seq<StationEvent>, n: nat)
    requires InfoFits(info) && IsRun(info, states, events) && n <= |events|
    ensures Joined(states, events, n) == Departed(states, events, n) + states[n].queue
  {
    if n > 0 {
      var st, st' := states[n - 1], states[n - 1 + 1];
      QueueIsFifo(info, states, events, n - 1);
      RunKeeps(info, states, events, n - 1);
      assert IsStep(info, st, events[n - 1], st');
      QueueStep(info, st, events[n - 1]);
      MovedOn(Departed(states, events, n - 1), st.queue, Joins(st, events[n - 1]), Departs(st, st'), st'.queue);
    }
  }

  // The retries.

  /** How many consensus requests have failed since the last one that was agreed on. */
  function Failures(events: seq<StationEvent>): nat
  {
    if events == [] then 0
    else
      match events[|events| - 1]
      case Agrees(_) => 0
      case Disagrees => Failures(events[..|events| - 1]) + 1
      case _ => Failures(events[..|events| - 1])
  }

  lemma {:induction false} RetryStep(info: StationInfo, st: Station, ev: StationEvent)
    requires InfoFits(info) && StationInv(info, st) && CanHappen(info, st, ev) && After(info, st, ev).Ok?
    ensures After(info, st, ev).value.retry ==
      if ev.Agrees? then 1 else if ev.Disagrees? then st.retry + 1 else st.retry
  {
    match ev {
      case Told(a, ReachedGoal(_), spawn) => ReportInOrder(info, st, a, spawn);
      case Rings(tm, spawn) => RingInOrder(info, st, tm, spawn);
      case Disagrees => var a, k := ConsensusShare(info, st);
      case _ =>
    }
  }

  /** In every run the retry counter, which stretches the delay before the next try, counts the failures in a row. */
  lemma {:induction false} RetryCounts(info: StationInfo, states: seq<Station>, events: seq<StationEvent>, n: nat)
    requires InfoFits(info) && IsRun(info, states, events) && n <= |events|
    ensures states[n].retry == 1 + Failures(events[..n])
  {
    if n > 0 {
      RetryCounts(info, states, events, n - 1);
      RunKeeps(info, states, events, n - 1);
      assert IsStep(info, states[n - 1], events[n - 1], states[n - 1 + 1]);
      RetryStep(info, states[n - 1], events[n - 1]);
      assert events[..n][..n - 1] == events[..n - 1];
    }
  }

  // The spawn timer.

  /** While initial AGVs have to be started, a spawn timer is pending. */
  predicate Promised(st: Station)
  {
    st.scheduled && st.toInitialize > 0 ==> SpawnTimer in st.timers
  }

  /** An initial AGV registers after the last spawn timer is over. */
  predicate ComesTooLate(st: Station, ev: StationEvent)
  {
    && ev.Told? && ev.msg.NewAuthority? && ev.msg.initial
    && st.scheduled && SpawnTimer !in st.timers
  }

  lemma {:induction false} SpawnPromised(info: StationInfo, st: Station, spawn: Spawn)
    requires StationInv(info, st) && !TooLate(st, spawn)
    ensures var r := SpawnTO(info, st, spawn); r.Ok? && Promised(r.value)
  {
    SpawnIs(info, st, spawn);
    if st.queue != [] && !spawn.stopped && st.scheduled { LaunchStep(info, st, spawn); }
  }

  lemma {:induction false} ReportPromised(info: StationInfo, st: Station, a: AgvId, spawn: Spawn)
    requires InfoFits(info) && SpawnFits(info, spawn) && StationInv(info, st) && a in st.owned && Drives(st.owned[a])
    requires Promised(st) && ProcessReachedGoal(info, st, a, spawn).Ok?
    ensures Promised(ProcessReachedGoal(info, st, a, spawn).value)
  {
    ReportKeeps(info, st, a, spawn);
    if st.owned[a].state == DriveToQueue {
      var k, t := SomeShare(info, st, a);
      RequeueLands(info, st, a, k, t, spawn);
      LandsKeeps(info, st, Requeued(st, a), a, k, Waiting(info.id));
      SpawnPromised(info, Requeued(st, a), spawn);
    } else {
      UpdateUndisturbed(info, SetAgv(st, a, st.owned[a].(last := st.owned[a].next)), a, spawn);
    }
  }

  lemma {:induction false} RingPromised(info: StationInfo, st: Station, tm: Timer, spawn: Spawn)
    requires InfoFits(info) && SpawnFits(info, spawn) && StationInv(info, st) && tm in st.timers
    requires Promised(st) && Fire(info, Fired(st, tm), tm, spawn).Ok?
    ensures Promised(Fire(info, Fired(st, tm), tm, spawn).value)
  {
    FireKeeps(info, st, tm, spawn);
    if tm == SpawnTimer {
      SpawnTimerUnseen(st);
      AloneKeeps(info, st, Fired(st, tm));
      SpawnPromised(info, Fired(st, tm), spawn);
    } else {
      TimerUndisturbed(info, st, tm, spawn);
    }
  }

  /** An event breaks the promise exactly if it registers an initial AGV after the last spawn timer is over. */
  lemma {:induction false} PromiseIff(info: StationInfo, st: Station, ev: StationEvent)
    requires InfoFits(info) && StationInv(info, st) && CanHappen(info, st, ev) && After(info, st, ev).Ok?
    requires Promised(st)
    ensures Promised(After(info, st, ev).value) <==> !ComesTooLate(st, ev)
  {
    match ev {
      case Told(a, ReachedGoal(_), spawn) => ReportPromised(info, st, a, spawn);
      case Rings(tm, spawn) => RingPromised(info, st, tm, spawn);
      case _ =>
    }
  }

  /** In every run in which all initial AGVs come in time, the spawn timer is pending while they have to be started. */
  lemma {:induction false} RunPromised(info: StationInfo, states: seq<Station>, events: seq<StationEvent>, n: nat)
    requires InfoFits(info) && IsRun(info, states, events) && n <= |events|
    requires forall i :: 0 <= i < |events| ==> !ComesTooLate(states[i], events[i])
    ensures Promised(states[n])
  {
    if n > 0 {
      RunPromised(info, states, events, n - 1);
      RunKeeps(info, states, events, n - 1);
      assert IsStep(info, states[n - 1], events[n - 1], states[n - 1 + 1]);
      PromiseIff(info, states[n - 1], events[n - 1]);
    }
  }

  /** The spawn timer rings before the first AGV has registered; nothing will start that AGV. */
  lemma {:induction false} LatecomerForgotten(info: StationInfo, spawn: Spawn, at: Point, p: Point, k: Kinematics)
    requires InfoFits(info) && SpawnFits(info, spawn)
    ensures var started := ScheduleSpawn(NEW_STATION);
      var rung := NEW_STATION.(scheduled := true);
      var forgotten := ProcessNewAuthority(info, rung, 0, true, at, p, k).value;
      && IsRun(info, [NEW_STATION, started, rung, forgotten],
               [Starts, Rings(SpawnTimer, spawn), Told(0, NewAuthority(true, at, p, k), spawn)])
      && !Promised(forgotten) && forgotten.timers == multiset{}
  {
    assert Fired(ScheduleSpawn(NEW_STATION), SpawnTimer).timers == multiset{};
  }

  /** The spawn timer rings once for each of the orders. */
  function Ring(info: StationInfo, st: Station, spawns: seq<Spawn>): Result<Station>
    decreases |spawns|
  {
    if spawns == [] then Ok(st)
    else if SpawnTimer !in st.timers then Err("no spawn timer")
    else match Fire(info, Fired(st, SpawnTimer), SpawnTimer, spawns[0])
      case Err(e) => Err(e)
      case Ok(st') => Ring(info, st', spawns[1..])
  }

  /** Messages that send AGVs out of the station. */
  function SendOut(info: StationInfo, agvs: seq<AgvId>): seq<(AgvId, StationMsg)>
  {
    if agvs == [] then [] else [(agvs[0], Drive(info.outPickup))] + SendOut(info, agvs[1..])
  }

  lemma {:induction false} RingOnce(info: StationInfo, st: Station, spawn: Spawn)
    requires InfoFits(info) && SpawnFits(info, spawn) && !spawn.stopped && StationInv(info, st)
    requires st.scheduled && SpawnTimer in st.timers && st.toInitialize > 0
    ensures st.queue != []
    ensures var r := Fire(info, Fired(st, SpawnTimer), SpawnTimer, spawn);
      && r.Ok? && StationInv(info, r.value) && r.value.scheduled
      && r.value.queue == st.queue[1..] && r.value.toInitialize == st.toInitialize - 1
      && r.value.timers[SpawnTimer] == st.timers[SpawnTimer] - (if st.toInitialize == 1 then 1 else 0)
      && r.value.outbox == st.outbox + [(st.queue[0], Drive(info.outPickup))]
  {
    var st1 := Fired(st, SpawnTimer);
    FireKeeps(info, st, SpawnTimer, spawn);
    SpawnTimerUnseen(st);
    AloneKeeps(info, st, st1);
    SpawnIs(info, st1, spawn);
    LaunchStep(info, st1, spawn);
  }

  /**
  From a pending spawn timer with n initial AGVs to start, n rings in time send out the first n AGVs of
  the queue in their order and leave none to start; each ring but the last sets the timer for the next.
  */
  lemma {:induction false} InitialAgvsStart(info: StationInfo, st: Station, spawns: seq<Spawn>)
    requires InfoFits(info) && StationInv(info, st) && st.scheduled && SpawnTimer in st.timers
    requires 0 < |spawns| == st.toInitialize
    requires forall i :: 0 <= i < |spawns| ==> SpawnFits(info, spawns[i]) && !spawns[i].stopped
    ensures st.toInitialize <= |st.queue|
    ensures var r, n := Ring(info, st, spawns), st.toInitialize;
      && r.Ok? && r.value.toInitialize == 0 && r.value.queue == st.queue[n..]
      && r.value.outbox == st.outbox + SendOut(info, st.queue[..n])
      && r.value.timers[SpawnTimer] == st.timers[SpawnTimer] - 1
    decreases |spawns|
  {
    RingOnce(info, st, spawns[0]);
    var st', n := Fire(info, Fired(st, SpawnTimer), SpawnTimer, spawns[0]).value, st.toInitialize;
    assert st.queue[..n][0] == st.queue[0] && st.queue[..n][1..] == st'.queue[..n - 1];
    if n > 1 {
      InitialAgvsStart(info, st', spawns[1..]);
      assert st'.queue[n - 1..] == st.queue[n..];
    } else {
      assert spawns[1..] == [] && SendOut(info, []) == [];
      assert st.queue[..n][1..] == [];
    }
    var first := [(st.queue[0], Drive(info.outPickup))];
    var rest := SendOut(info, st'.queue[..n - 1]);
    assert st.outbox + first + rest == st.outbox + (first + rest);
  }
}
