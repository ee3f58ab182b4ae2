/**
In every run each AGV has one authority, and a handler throws exactly when the time for orders is over
too early, when the times of a route cannot be found, or when an agreed start is not in the future.
*/
module AuthoritySafety {
  import opened Authority
  import opened Results
  import opened StationSafety
  import opened Stations

  // Messages.

  /** Every AGV with authority over it has an entry. */
  lemma {:induction false} Registered(sys: System, a: AgvId, t: Token)
    requires Holds(sys, a, t) && t != Fresh
    ensures a in sys.agvs && SetAgvOf(sys, a, AgvOf(sys, a)) == sys
  {
    assert AgvOf(sys, a).registered;
    assert sys.agvs[a := sys.agvs[a]] == sys.agvs;
  }

  lemma {:induction false} NothingHappens(sys: System, s: StationId)
    requires Inv(sys) && s in sys.stations
    ensures AfterStation(sys, s, Ok(sys.stations[s])) == Ok(sys)
  {
    var st := sys.stations[s];
    StationFacts(sys, s);
    assert st.(outbox := []) == st;
    assert sys.stations[s := st] == sys.stations;
  }

  /** The first AGV in the queue is sent off. */
  lemma {:induction false} LaunchSafe(sys: System, s: StationId, spawn: Spawn)
    requires Inv(sys) && s in sys.stations && Spawns(sys, s, spawn)
    requires sys.stations[s].queue != [] && !spawn.stopped && sys.stations[s].scheduled
    ensures var r := AfterStation(sys, s, SpawnTO(sys.infos[s], sys.stations[s], spawn)); r.Ok? && Follows(sys, r.value)
  {
    var info, st, b := sys.infos[s], sys.stations[s], sys.stations[s].queue[0];
    StationFacts(sys, s);
    var t := SomeToken(sys, b);
    ShareOf(sys, s, b, t);
    var c := AgvOf(sys, b);
    HeadWaits(info, st, b, c.logical.kinematics, t);
    Registered(sys, b, t);
    var t' := Driving(s, Sent, info.outPickup);
    SpawnLands(info, st, b, c.logical.kinematics, spawn);
    QuietSettles(c, s, t');
    StationStepSafe(sys, s, SpawnTO(info, st, spawn).value, b, c, t, t');
  }

  lemma {:induction false} SpawnSafe(sys: System, s: StationId, spawn: Spawn)
    requires Inv(sys) && s in sys.stations && Spawns(sys, s, spawn)
    ensures var r := AfterStation(sys, s, SpawnTO(sys.infos[s], sys.stations[s], spawn));
      && (r.Err? <==> TooLate(sys.stations[s], spawn))
      && (r.Ok? ==> Follows(sys, r.value))
  {
    var st := sys.stations[s];
    if st.queue == [] || spawn.stopped || !st.scheduled {
      NothingHappens(sys, s);
    } else {
      LaunchSafe(sys, s, spawn);
    }
  }

  /** The system after station s has come to r, with the message that AGV a has sent taken from its link. */
  function AfterTaking(sys: System, s: StationId, a: AgvId, r: Result<Station>): Result<System>
    requires Link(AgvOf(sys, a).up, s) != []
  {
    AfterStation(SetAgvOf(sys, a, Taken(AgvOf(sys, a), s)), s, r)
  }

  lemma {:induction false} JoinSafe(sys: System, a: AgvId, s: StationId, at: Point)
    requires Inv(sys) && s in sys.stations && Holds(sys, a, Joining(s, at)) && Link(AgvOf(sys, a).up, s) != []
    ensures var k := AgvOf(sys, a).logical.kinematics;
      var r := AfterTaking(sys, s, a,
        ProcessNewAuthority(sys.infos[s], sys.stations[s], a, true, at, Point(0.0, 0.0), k));
      r.Ok? && Follows(sys, r.value)
  {
    var st, t, info, c := sys.stations[s], Joining(s, at), sys.infos[s], AgvOf(sys, a);
    var k := c.logical.kinematics;
    StationFacts(sys, s);
    ShareOf(sys, s, a, t);
    Registered(sys, a, t);
    TakenQuiet(c, t, s);
    JoinLands(info, st, a, k, t, at, Point(0.0, 0.0));
    var st' := ProcessNewAuthority(info, st, a, true, at, Point(0.0, 0.0), k).value;
    StationStepSafe(sys, s, st', a, Taken(c, s), t, Waiting(s));
  }

  lemma {:induction false} IntroductionSafe(sys: System, a: AgvId, s: StationId, leg: Leg, at: Point, p: Point)
    requires Inv(sys) && s in sys.stations && Holds(sys, a, Introducing(s, leg, at, p))
    requires leg != Sent && Link(AgvOf(sys, a).up, s) != []
    ensures var k := AgvOf(sys, a).logical.kinematics;
      var r := AfterTaking(sys, s, a, ProcessNewAuthority(sys.infos[s], sys.stations[s], a, false, at, p, k));
      r.Ok? && Follows(sys, r.value)
  {
    var st, t, info, c := sys.stations[s], Introducing(s, leg, at, p), sys.infos[s], AgvOf(sys, a);
    var k := c.logical.kinematics;
    StationFacts(sys, s);
    ShareOf(sys, s, a, t);
    Registered(sys, a, t);
    TakenIntroduction(c, s, leg, at, p);
    IntroductionLands(info, st, a, k, t, leg, at, p);
    var st' := ProcessNewAuthority(info, st, a, false, at, p, k).value;
    StationStepSafe(sys, s, st', a, Taken(c, s), t, Driving(s, leg, p));
  }

  lemma {:induction false} SameOutcome(sys: System, s: StationId, st: Station, a: AgvId, c: Agv, r: Result<Station>)
    ensures AfterStation(SetAgvOf(sys, a, c), s, r) == AfterStation(Replaced(sys, s, st, a, c), s, r)
  {
    if r.Ok? {
      var x := r.value.(outbox := []);
      assert sys.stations[s := st][s := x] == sys.stations[s := x];
    }
  }

  /** AGV a has reported to station s that it has reached its goal. */
  ghost predicate Reports(sys: System, a: AgvId, s: StationId, t: Token)
  {
    && Inv(sys) && s in sys.stations && s in sys.infos && Holds(sys, a, t)
    && t.Driving? && t.station == s && t.leg == Reported && Link(AgvOf(sys, a).up, s) != []
  }

  lemma {:induction false} ReportFacts(sys: System, a: AgvId, s: StationId, t: Token)
    requires Reports(sys, a, s, t)
    ensures Share(sys.infos[s], sys.stations[s], a, AgvOf(sys, a).logical.kinematics, t)
    ensures a in sys.stations[s].owned && a in sys.agvs && Quiet(Taken(AgvOf(sys, a), s), s)
    ensures sys.infos[s].id == s && InfoFits(sys.infos[s]) && StationOk(sys.stations[s])
  {
    StationFacts(sys, s);
    ShareOf(sys, s, a, t);
    Registered(sys, a, t);
    TakenQuiet(AgvOf(sys, a), t, s);
  }

  /** Back at the queue: the AGV joins the queue, and the first in the queue gets an order. */
  lemma {:induction false} RequeueSafe(sys: System, a: AgvId, s: StationId, t: Token, spawn: Spawn)
    requires Reports(sys, a, s, t) && Spawns(sys, s, spawn)
    requires a in sys.stations[s].owned && sys.stations[s].owned[a].state == DriveToQueue
    ensures var r := AfterTaking(sys, s, a, ProcessReachedGoal(sys.infos[s], sys.stations[s], a, spawn));
      && (r.Err? <==> LateReport(sys.stations[s], a, spawn))
      && (r.Ok? ==> Follows(sys, r.value))
  {
    ReportFacts(sys, a, s, t);
    var st, info, c := sys.stations[s], sys.infos[s], Taken(AgvOf(sys, a), s);
    RequeueLands(info, st, a, c.logical.kinematics, t, spawn);
    StationFacts(sys, s);
    StationStepSafe(sys, s, Requeued(st, a), a, c, t, Waiting(s));
    AfterPost(sys, s, Requeued(st, a), a, c, Waiting(s));
    var sys1 := Replaced(sys, s, Requeued(st, a), a, c);
    assert Requeued(st, a).(outbox := []) == Requeued(st, a);
    SpawnSafe(sys1, s, spawn);
    SameOutcome(sys, s, Requeued(st, a), a, c, SpawnTO(info, Requeued(st, a), spawn));
  }

  lemma {:induction false} ReachedSafe(sys: System, a: AgvId, s: StationId, t: Token, spawn: Spawn)
    requires Reports(sys, a, s, t) && Spawns(sys, s, spawn)
    ensures var r := AfterTaking(sys, s, a, ProcessReachedGoal(sys.infos[s], sys.stations[s], a, spawn));
      && (r.Err? <==> LateReport(sys.stations[s], a, spawn) || RefusesReport(sys.infos[s], sys.stations[s], a))
      && (r.Ok? ==> Follows(sys, r.value))
  {
    ReportFacts(sys, a, s, t);
    var st, info, c := sys.stations[s], sys.infos[s], Taken(AgvOf(sys, a), s);
    if st.owned[a].state == DriveToQueue {
      RequeueSafe(sys, a, s, t, spawn);
    } else {
      var t' := ReportLands(info, st, a, c.logical.kinematics, t, spawn);
      var r := ProcessReachedGoal(info, st, a, spawn);
      if r.Ok? {
        QuietSettles(c, s, t');
        StationStepSafe(sys, s, r.value, a, c, t, t');
      }
    }
  }

  lemma {:induction false} UpIs(sys: System, a: AgvId, s: StationId, spawn: Spawn, r: Result<Station>)
    requires s in sys.stations && s in sys.infos && Link(AgvOf(sys, a).up, s) != []
    requires r == ProcessMessage(sys.infos[s], sys.stations[s], a, Link(AgvOf(sys, a).up, s)[0], spawn)
    ensures NextUp(sys, a, s, spawn) == AfterTaking(sys, s, a, r)
  {
  }

  /** A message on its way to a station is the one its token calls for. */
  lemma {:induction false} UpToken(sys: System, a: AgvId, s: StationId) returns (t: Token)
    requires Inv(sys) && s in sys.stations && Link(AgvOf(sys, a).up, s) != []
    ensures Holds(sys, a, t) && s in sys.infos && (t.Introducing? ==> t.leg != Sent)
    ensures || t == Joining(s, Link(AgvOf(sys, a).up, s)[0].at)
            || (t.Introducing? && t.next == s)
            || Reports(sys, a, s, t)
    ensures Link(AgvOf(sys, a).up, s) == UpLink(t, AgvOf(sys, a).logical.kinematics, s)
  {
    t := SomeToken(sys, a);
    UpHead(AgvOf(sys, a), t, s);
  }

  lemma {:induction false} UpEnters(sys: System, a: AgvId, s: StationId, t: Token, spawn: Spawn)
    requires Inv(sys) && s in sys.stations && s in sys.infos && Holds(sys, a, t)
    requires Link(AgvOf(sys, a).up, s) == UpLink(t, AgvOf(sys, a).logical.kinematics, s) != []
    requires (t.Joining? && t.station == s) || (t.Introducing? && t.next == s && t.leg != Sent)
    ensures var r := NextUp(sys, a, s, spawn); r.Ok? && Follows(sys, r.value)
  {
    var info, st, k := sys.infos[s], sys.stations[s], AgvOf(sys, a).logical.kinematics;
    if t.Joining? {
      UpIs(sys, a, s, spawn, ProcessNewAuthority(info, st, a, true, t.at, Point(0.0, 0.0), k));
      JoinSafe(sys, a, s, t.at);
    } else {
      UpIs(sys, a, s, spawn, ProcessNewAuthority(info, st, a, false, t.at, t.goal, k));
      IntroductionSafe(sys, a, s, t.leg, t.at, t.goal);
    }
  }

  /** The station reacts to a message. */
  lemma {:induction false} UpSafe(sys: System, a: AgvId, s: StationId, spawn: Spawn)
    requires Inv(sys) && s in sys.stations && Spawns(sys, s, spawn) && Link(AgvOf(sys, a).up, s) != []
    ensures var r, reports := NextUp(sys, a, s, spawn), Link(AgvOf(sys, a).up, s)[0].ReachedGoal?;
      var late, refused := LateReport(sys.stations[s], a, spawn), RefusesReport(sys.infos[s], sys.stations[s], a);
      && (r.Err? <==> reports && (late || refused))
      && (r.Ok? ==> Follows(sys, r.value))
  {
    var t := UpToken(sys, a, s);
    if t.Driving? {
      UpIs(sys, a, s, spawn, ProcessReachedGoal(sys.infos[s], sys.stations[s], a, spawn));
      ReachedSafe(sys, a, s, t, spawn);
    } else {
      UpEnters(sys, a, s, t, spawn);
    }
  }

  // Timers and consensus.

  /** What the invariant says about a pausing AGV. */
  lemma {:induction false} PausingFacts(sys: System, s: StationId, a: AgvId, w: Wait)
    requires Inv(sys) && s in sys.stations && Holds(sys, a, Pausing(s, w))
    ensures s in sys.infos && sys.infos[s].id == s && StationOk(sys.stations[s])
    ensures Share(sys.infos[s], sys.stations[s], a, AgvOf(sys, a).logical.kinematics, Pausing(s, w))
    ensures Quiet(AgvOf(sys, a), s) && a in sys.agvs && SetAgvOf(sys, a, AgvOf(sys, a)) == sys
  {
    StationFacts(sys, s);
    ShareOf(sys, s, a, Pausing(s, w));
    QuietPauses(AgvOf(sys, a), s, w);
    Registered(sys, a, Pausing(s, w));
  }

  /** A pending timer belongs to a pausing AGV. */
  lemma {:induction false} TimerToken(sys: System, s: StationId, tm: Timer)
    requires Inv(sys) && s in sys.stations && tm in sys.stations[s].timers && tm != SpawnTimer
    ensures Holds(sys, tm.agv, Pausing(s, OnTimer(tm)))
  {
    StationFacts(sys, s);
    var t := SomeToken(sys, tm.agv);
    ShareOf(sys, s, tm.agv, t);
  }

  /** A running consensus belongs to a pausing AGV. */
  lemma {:induction false} ConsensusToken(sys: System, s: StationId) returns (a: AgvId)
    requires Inv(sys) && s in sys.stations && sys.stations[s].requests > 0
    ensures sys.stations[s].consensus == Some(a) && Holds(sys, a, Pausing(s, InConsensus))
  {
    StationFacts(sys, s);
    a := sys.stations[s].consensus.value;
    var t := SomeToken(sys, a);
    ShareOf(sys, s, a, t);
  }

  /** A due timer finds its AGV in the state it was set for. */
  lemma {:induction false} DueSafe(sys: System, s: StationId, tm: Timer, spawn: Spawn)
    requires Inv(sys) && s in sys.stations && s in sys.infos && tm in sys.stations[s].timers && tm != SpawnTimer
    ensures var r := NextDue(sys, s, tm, spawn);
      && (r.Err? <==> RefusesDue(sys.infos[s], sys.stations[s], tm))
      && (r.Ok? ==> Follows(sys, r.value))
  {
    TimerToken(sys, s, tm);
    var a, t := tm.agv, Pausing(s, OnTimer(tm));
    PausingFacts(sys, s, a, t.wait);
    var info, st, c := sys.infos[s], sys.stations[s], AgvOf(sys, a);
    var t' := DueLands(info, st, c.logical.kinematics, tm, spawn);
    var r := Fire(info, Fired(st, tm), tm, spawn);
    if r.Ok? {
      QuietSettles(c, s, t');
      StationStepSafe(sys, s, r.value, a, c, t, t');
    }
  }

  /** An agreed route: the AGV now waits for its time to go. */
  lemma {:induction false} AgreedSafe(sys: System, s: StationId, delay: real)
    requires Inv(sys) && s in sys.stations && sys.stations[s].requests > 0
    ensures var r := NextAgreed(sys, s, delay);
      (r.Err? <==> delay <= 0.0) && (r.Ok? ==> Follows(sys, r.value))
  {
    var a := ConsensusToken(sys, s);
    var st, c := sys.stations[s], AgvOf(sys, a);
    PausingFacts(sys, s, a, InConsensus);
    FoundLands(sys.infos[s], st, a, c.logical.kinematics, delay);
    var r, t' := ConsensusFound(st.(requests := st.requests - 1), delay), Pausing(s, OnTimer(GoTimer(a)));
    if r.Ok? {
      QuietSettles(c, s, t');
      StationStepSafe(sys, s, r.value, a, c, Pausing(s, InConsensus), t');
    }
  }

  /** A failed consensus is tried again later. */
  lemma {:induction false} NotAgreedSafe(sys: System, s: StationId)
    requires Inv(sys) && s in sys.stations && sys.stations[s].requests > 0
    ensures var r := NextNotAgreed(sys, s); r.Ok? && Follows(sys, r.value)
  {
    var a := ConsensusToken(sys, s);
    var st, c := sys.stations[s], AgvOf(sys, a);
    PausingFacts(sys, s, a, InConsensus);
    FailedLands(sys.infos[s], st, a, c.logical.kinematics);
    var r, t' := ConsensusFailed(st.(requests := st.requests - 1)), Pausing(s, OnTimer(RetryTimer(a, st.owned[a])));
    QuietSettles(c, s, t');
    StationStepSafe(sys, s, r.value, a, c, Pausing(s, InConsensus), t');
  }

  lemma {:induction false} StillHolds(sys: System, s: StationId, st: Station, b: AgvId)
    requires s in sys.stations && SameFor(sys.stations[s], st, b) && HasToken(sys, b)
    ensures HasToken(sys.(stations := sys.stations[s := st]), b)
  {
    var t :| Holds(sys, b, t);
    OthersFit(sys, s, st, b, AgvOf(sys, b).logical.kinematics, t);
    assert Holds(sys.(stations := sys.stations[s := st]), b, t);
  }

  /** A step that concerns no AGV. */
  lemma {:induction false} StationAlone(sys: System, s: StationId, st: Station)
    requires Inv(sys) && s in sys.stations && st.outbox == [] && StationOk(st) && SameForAll(sys.stations[s], st)
    ensures Follows(sys, sys.(stations := sys.stations[s := st]))
  {
    var sys' := sys.(stations := sys.stations[s := st]);
    forall b: AgvId
      ensures HasToken(sys', b)
    {
      assert SameFor(sys.stations[s], st, b);
      StillHolds(sys, s, st, b);
    }
    OkAfter(sys.stations, s, st);
  }

  lemma {:induction false} SpawningSafe(sys: System, s: StationId)
    requires Inv(sys) && s in sys.stations
    ensures var r := NextSpawning(sys, s); r.Ok? && Follows(sys, r.value)
  {
    var st := ScheduleSpawn(sys.stations[s]);
    StationFacts(sys, s);
    SpawnTimerUnseen(sys.stations[s]);
    StationAlone(sys, s, st);
    assert st.(outbox := []) == st;
  }

  lemma {:induction false} OldStationUnseen(sys: System, s: StationId, st: Station, r: Result<Station>)
    ensures AfterStation(sys, s, r) == AfterStation(sys.(stations := sys.stations[s := st]), s, r)
  {
    if r.Ok? {
      var x := r.value.(outbox := []);
      assert sys.stations[s := st][s := x] == sys.stations[s := x];
    }
  }

  lemma {:induction false} SpawnFired(sys: System, s: StationId)
    requires Inv(sys) && s in sys.stations
    ensures Follows(sys, sys.(stations := sys.stations[s := Fired(sys.stations[s], SpawnTimer)]))
  {
    StationFacts(sys, s);
    SpawnTimerUnseen(sys.stations[s]);
    StationAlone(sys, s, Fired(sys.stations[s], SpawnTimer));
  }

  lemma {:induction false} NextDueSpawn(sys: System, s: StationId, spawn: Spawn)
    requires s in sys.stations && s in sys.infos
    ensures NextDue(sys, s, SpawnTimer, spawn)
         == AfterStation(sys, s, SpawnTO(sys.infos[s], Fired(sys.stations[s], SpawnTimer), spawn))
  {
  }

  lemma {:induction false} SpawnDueSafe(sys: System, s: StationId, spawn: Spawn)
    requires Inv(sys) && s in sys.stations && Spawns(sys, s, spawn)
    ensures var r := NextDue(sys, s, SpawnTimer, spawn);
      && (r.Err? <==> TooLate(sys.stations[s], spawn))
      && (r.Ok? ==> Follows(sys, r.value))
  {
    var st := Fired(sys.stations[s], SpawnTimer);
    NextDueSpawn(sys, s, spawn);
    SpawnFired(sys, s);
    SpawnSafe(sys.(stations := sys.stations[s := st]), s, spawn);
    OldStationUnseen(sys, s, st, SpawnTO(sys.infos[s], st, spawn));
  }

  lemma {:induction false} AnyDueSafe(sys: System, s: StationId, tm: Timer, spawn: Spawn)
    requires Inv(sys) && s in sys.stations && Spawns(sys, s, spawn) && tm in sys.stations[s].timers
    ensures var r, st := NextDue(sys, s, tm, spawn), sys.stations[s];
      && (r.Err? <==> (tm == SpawnTimer && TooLate(st, spawn)) || RefusesDue(sys.infos[s], st, tm))
      && (r.Ok? ==> Follows(sys, r.value))
  {
    if tm == SpawnTimer { SpawnDueSafe(sys, s, spawn); } else { DueSafe(sys, s, tm, spawn); }
  }

  // Runs.

  /** Initial AMRs have not started when the time for orders is over. */
  predicate Late(sys: System, ev: Event)
    requires Enabled(sys, ev)
  {
    match ev
    case Up(a, s, spawn) => Link(AgvOf(sys, a).up, s)[0].ReachedGoal? && LateReport(sys.stations[s], a, spawn)
    case Due(s, tm, spawn) => tm == SpawnTimer && TooLate(sys.stations[s], spawn)
    case _ => false
  }

  /** The event starts a negotiation, and the times of the AGV on that route cannot be found. */
  predicate RouteRejected(sys: System, ev: Event)
    requires Enabled(sys, ev)
  {
    match ev
    case Up(a, s, _) => Link(AgvOf(sys, a).up, s)[0].ReachedGoal? && RefusesReport(sys.infos[s], sys.stations[s], a)
    case Due(s, tm, _) => RefusesDue(sys.infos[s], sys.stations[s], tm)
    case _ => false
  }

  /** The agreed start is not in the future. */
  predicate Overdue(ev: Event)
  {
    ev.Agreed? && ev.delay <= 0.0
  }

  lemma {:induction false} DownEvent(sys: System, a: AgvId, s: StationId)
    requires Inv(sys) && Link(AgvOf(sys, a).down, s) != []
    ensures var n := AfterAgv(sys, a, AgvDown(AgvOf(sys, a), s)); n.Ok? && Follows(sys, n.value)
  {
    var t := SomeToken(sys, a);
    var t' := DownSafe(AgvOf(sys, a), t, s);
    AgvStepSafe(sys, a, AgvDown(AgvOf(sys, a), s), t, t');
  }

  lemma {:induction false} ToPhysicalEvent(sys: System, a: AgvId)
    requires Inv(sys) && AgvOf(sys, a).logical.toPhysical != []
    ensures var n := AfterAgv(sys, a, AgvToPhysical(AgvOf(sys, a))); n.Ok? && Follows(sys, n.value)
  {
    var t := SomeToken(sys, a);
    var t' := ToPhysicalSafe(AgvOf(sys, a), t);
    AgvStepSafe(sys, a, AgvToPhysical(AgvOf(sys, a)), t, t');
  }

  lemma {:induction false} ToLogicalEvent(sys: System, a: AgvId)
    requires Inv(sys) && AgvOf(sys, a).physical.toLogical != []
    ensures var n := AfterAgv(sys, a, Ok(AgvToLogical(AgvOf(sys, a)))); n.Ok? && Follows(sys, n.value)
  {
    var t := SomeToken(sys, a);
    var t' := ToLogicalSafe(AgvOf(sys, a), t);
    AgvStepSafe(sys, a, Ok(AgvToLogical(AgvOf(sys, a))), t, t');
  }

  lemma {:induction false} MoveDoneEvent(sys: System, a: AgvId)
    requires Inv(sys) && AgvOf(sys, a).physical.moves > 0
    ensures var n := AfterAgv(sys, a, AgvMoveDone(AgvOf(sys, a))); n.Ok? && Follows(sys, n.value)
  {
    var t := SomeToken(sys, a);
    var t' := MoveDoneSafe(AgvOf(sys, a), t);
    AgvStepSafe(sys, a, AgvMoveDone(AgvOf(sys, a)), t, t');
  }

  lemma {:induction false} PositionEvent(sys: System, a: AgvId, at: Point)
    requires Inv(sys) && AgvOf(sys, a).physical.updateDue
    ensures var n := AfterAgv(sys, a, Ok(AgvPosition(AgvOf(sys, a), at))); n.Ok? && Follows(sys, n.value)
  {
    var t := SomeToken(sys, a);
    PositionSafe(AgvOf(sys, a), t, at);
    AgvStepSafe(sys, a, Ok(AgvPosition(AgvOf(sys, a), at)), t, t);
  }

  predicate OfStation(ev: Event)
  {
    ev.Up? || ev.Due? || ev.Agreed? || ev.NotAgreed? || ev.StartSpawning?
  }

  lemma {:induction false} AgvEventSafe(sys: System, ev: Event)
    requires Inv(sys) && Enabled(sys, ev) && !OfStation(ev)
    ensures var r := Next(sys, ev); r.Ok? && Follows(sys, r.value)
  {
    match ev {
      case Register(a, s) => RegisterSafe(sys, a, s);
      case Down(a, s) => DownEvent(sys, a, s);
      case ToPhysical(a) => ToPhysicalEvent(sys, a);
      case ToLogical(a) => ToLogicalEvent(sys, a);
      case MoveDone(a) => MoveDoneEvent(sys, a);
      case PositionDue(a, at) => PositionEvent(sys, a, at);
    }
  }

  lemma {:induction false} StationEventSafe(sys: System, ev: Event)
    requires Inv(sys) && Enabled(sys, ev) && OfStation(ev)
    ensures var r := Next(sys, ev);
      && (r.Err? <==> Late(sys, ev) || RouteRejected(sys, ev) || Overdue(ev))
      && (r.Ok? ==> Follows(sys, r.value))
  {
    match ev {
      case Up(a, s, spawn) => UpSafe(sys, a, s, spawn);
      case Due(s, tm, spawn) => AnyDueSafe(sys, s, tm, spawn);
      case Agreed(s, delay) => AgreedSafe(sys, s, delay);
      case NotAgreed(s) => NotAgreedSafe(sys, s);
      case StartSpawning(s) => SpawningSafe(sys, s);
    }
  }

  /**
  From a state in which the invariant holds, an event throws exactly when it is late or overdue or its
  route is rejected, and otherwise leads to a state in which the invariant holds.
  */
  lemma {:induction false} StepSafe(sys: System, ev: Event)
    requires Inv(sys) && Enabled(sys, ev)
    ensures var r := Next(sys, ev);
      && (r.Err? <==> Late(sys, ev) || RouteRejected(sys, ev) || Overdue(ev))
      && (r.Ok? ==> Follows(sys, r.value))
  {
    if OfStation(ev) { StationEventSafe(sys, ev); } else { AgvEventSafe(sys, ev); }
  }

  /** An AGV before its registration: idle, unknown to all, with at most positions on their way. */
  ghost predicate InitialAgv(c: Agv)
  {
    && c == NEW_AGV.(
      logical := NEW_AGV.logical.(kinematics := c.logical.kinematics, last := c.logical.last),
      physical := NEW_AGV.physical.(goal := c.physical.goal, toLogical := c.physical.toLogical))
    && OnlyPositions(c.physical.toLogical)
  }

  ghost predicate Initial(sys: System)
  {
    && sys.stations.Keys == sys.infos.Keys && Consistent(sys.infos)
    && (forall s :: s in sys.stations ==> sys.stations[s] == NEW_STATION)
    && (forall a :: a in sys.agvs ==> InitialAgv(sys.agvs[a]))
  }

  lemma {:induction false} InitialFits(c: Agv)
    requires InitialAgv(c)
    ensures AgvFits(c, Fresh)
  {
    assert DownFits(c.down, Fresh) && UpFits(c.up, Fresh, c.logical.kinematics);
  }

  lemma {:induction false} InitialInv(sys: System)
    requires Initial(sys)
    ensures Inv(sys)
  {
    forall a: AgvId
      ensures HasToken(sys, a)
    {
      assert InitialAgv(NEW_AGV);
      InitialFits(AgvOf(sys, a));
      forall s | s in sys.stations && s in sys.infos
        ensures Share(sys.infos[s], sys.stations[s], a, AgvOf(sys, a).logical.kinematics, Fresh)
      {
      }
      assert Holds(sys, a, Fresh);
    }
  }

  /** A run: every event is enabled and leads to the next state. */
  ghost predicate IsRun(states: seq<System>, events: seq<Event>)
  {
    && |states| == |events| + 1
    && Initial(states[0])
    && forall i :: 0 <= i < |events| ==> IsStep(states[i], events[i], states[i + 1])
  }

  ghost predicate IsStep(sys: System, ev: Event, sys': System)
  {
    && sys.stations.Keys == sys.infos.Keys && Enabled(sys, ev)
    && Next(sys, ev) == Ok(sys')
  }

  /** The invariant holds in every state of every run, and what is fixed stays. */
  lemma {:induction false} RunInv(states: seq<System>, events: seq<Event>, i: nat)
    requires IsRun(states, events) && i < |states|
    ensures Follows(states[0], states[i])
  {
    if i == 0 {
      InitialInv(states[0]);
    } else {
      RunInv(states, events, i - 1);
      assert IsStep(states[i - 1], events[i - 1], states[i - 1 + 1]);
      StepSafe(states[i - 1], events[i - 1]);
    }
  }

  /** In every state that a run reaches, an enabled event throws exactly in these three cases. */
  lemma {:induction false} RunSafe(states: seq<System>, events: seq<Event>, ev: Event)
    requires IsRun(states, events) && Enabled(states[|events|], ev)
    ensures var sys := states[|events|];
      && sys.stations.Keys == sys.infos.Keys
      && (Next(sys, ev).Err? <==> Late(sys, ev) || RouteRejected(sys, ev) || Overdue(ev))
  {
    RunInv(states, events, |events|);
    StepSafe(states[|events|], ev);
  }

  /** Every AGV of the fleet gets its times on every route, and every route has intersections. */
  ghost predicate FleetPasses(sys: System)
  {
    forall a, s :: a in sys.agvs && s in sys.infos ==> PassesAll(sys.agvs[a].logical.kinematics, sys.infos[s])
  }

  /** An AGV that a station owns belongs to the fleet and has the kinematics it was registered with. */
  lemma {:induction false} OwnedKinematics(sys: System, s: StationId, a: AgvId)
    requires Inv(sys) && s in sys.stations && a in sys.stations[s].owned
    ensures a in sys.agvs && sys.stations[s].owned[a].kinematics == sys.agvs[a].logical.kinematics
  {
    var t := SomeToken(sys, a);
    StationFacts(sys, s);
    ShareOf(sys, s, a, t);
    Registered(sys, a, t);
  }

  lemma {:induction false} OwnedPasses(sys: System, s: StationId, a: AgvId)
    requires Inv(sys) && FleetPasses(sys) && s in sys.stations
    ensures s in sys.infos && !RefusesReport(sys.infos[s], sys.stations[s], a)
    ensures forall tm :: tm in sys.stations[s].timers && tm != SpawnTimer && tm.agv == a ==>
      !RefusesDue(sys.infos[s], sys.stations[s], tm)
  {
    var t := SomeToken(sys, a);
    ShareOf(sys, s, a, t);
    if a in sys.stations[s].owned {
      OwnedKinematics(sys, s, a);
      NeverRefused(sys.infos[s], sys.stations[s], a, AgvOf(sys, a).logical.kinematics, t);
    }
  }

  lemma {:induction false} NotRejected(sys: System, ev: Event)
    requires Inv(sys) && FleetPasses(sys) && Enabled(sys, ev)
    ensures !RouteRejected(sys, ev)
  {
    match ev {
      case Up(a, s, _) => OwnedPasses(sys, s, a);
      case Due(s, tm, _) => if tm != SpawnTimer { OwnedPasses(sys, s, tm.agv); }
      case _ =>
    }
  }

  lemma {:induction false} FleetStillPasses(sys: System, sys': System)
    requires SameFleet(sys, sys') && FleetPasses(sys)
    ensures FleetPasses(sys')
  {
  }

  /** With a fleet whose times can be found on every route, only the clock can make a handler throw. */
  lemma {:induction false} FleetSafe(states: seq<System>, events: seq<Event>, ev: Event)
    requires IsRun(states, events) && Enabled(states[|events|], ev) && FleetPasses(states[0])
    ensures var sys := states[|events|];
      sys.stations.Keys == sys.infos.Keys && (Next(sys, ev).Err? <==> Late(sys, ev) || Overdue(ev))
  {
    RunSafe(states, events, ev);
    RunInv(states, events, |events|);
    FleetStillPasses(states[0], states[|events|]);
    NotRejected(states[|events|], ev);
  }

  /** With the kinematics that a logical AGV has by default, no consensus is ever started in any run. */
  lemma {:induction false} DefaultsNeverNegotiate(
      states: seq<System>, events: seq<Event>, i: nat, s: StationId, a: AgvId)
    requires IsRun(states, events) && i < |states| && s in states[i].stations
    requires forall b :: b in states[0].agvs ==> states[0].agvs[b].logical.kinematics == NoKinematics
    ensures states[i].stations[s].consensus != Some(a) && GoTimer(a) !in states[i].stations[s].timers
  {
    RunInv(states, events, i);
    var sys := states[i];
    StationShares(sys, s);
    var st := sys.stations[s];
    if st.consensus == Some(a) || GoTimer(a) in st.timers {
      NegotiatedIsPassable(sys.infos[s], st, a);
      OwnedKinematics(sys, s, a);
      assert false;
    }
  }

  // What the invariant means.

  ghost function Owners(sys: System, a: AgvId): set<StationId>
  {
    set s | s in sys.stations && a in sys.stations[s].owned
  }

  ghost predicate Introduces(msgs: seq<AgvMsg>)
  {
    exists k :: 0 <= k < |msgs| && msgs[k].NewAuthority?
  }

  /** The stations to which the AGV is registering or introducing itself. */
  ghost function Introductions(sys: System, a: AgvId): set<StationId>
  {
    set s | s in sys.stations && Introduces(Link(AgvOf(sys, a).up, s))
  }

  ghost predicate HandsOver(msgs: seq<StationMsg>)
  {
    exists k :: 0 <= k < |msgs| && msgs[k].Handover?
  }

  /** The stations that are handing the AGV over. */
  ghost function Handovers(sys: System, a: AgvId): set<StationId>
  {
    set s | s in sys.stations && HandsOver(Link(AgvOf(sys, a).down, s))
  }

  lemma {:induction false} LinkKinds(t: Token, k: Kinematics, s: StationId)
    ensures Introduces(UpLink(t, k, s)) <==> (t.Joining? || t.Introducing?) && AuthorityOf(t) == Some(s)
    ensures HandsOver(DownLink(t, s)) <==> t.HandingOver? && t.station == s
  {
    if (t.Joining? || t.Introducing?) && AuthorityOf(t) == Some(s) { assert UpLink(t, k, s)[0].NewAuthority?; }
    if t.HandingOver? && t.station == s { assert DownLink(t, s)[0].Handover?; }
  }

  /** Station s is one of the AGV's owners, introductions or hand-overs exactly as the token says. */
  ghost predicate At(sys: System, a: AgvId, t: Token, s: StationId)
  {
    && (s in Owners(sys, a) <==> Owner(t) == Some(s))
    && (s in Introductions(sys, a) <==> (t.Joining? || t.Introducing?) && AuthorityOf(t) == Some(s))
    && (s in Handovers(sys, a) <==> t.HandingOver? && t.station == s)
  }

  lemma {:induction false} WhereIs(sys: System, a: AgvId, t: Token, s: StationId)
    requires Inv(sys) && Holds(sys, a, t) && s in sys.stations
    ensures At(sys, a, t, s)
  {
    ShareOf(sys, s, a, t);
    StationFacts(sys, s);
    var c := AgvOf(sys, a);
    var k := c.logical.kinematics;
    assert Link(c.up, s) == UpLink(t, k, s) && Link(c.down, s) == DownLink(t, s);
    LinkKinds(t, k, s);
  }

  lemma {:induction false} AuthoritySets(sys: System, a: AgvId, t: Token)
    requires forall s :: s in sys.stations ==> At(sys, a, t, s)
    requires AuthorityOf(t).Some? ==> AuthorityOf(t).value in sys.stations
    ensures var only := if AuthorityOf(t).Some? then {AuthorityOf(t).value} else {};
      && Owners(sys, a) == (if Owner(t).Some? then only else {})
      && Introductions(sys, a) == (if t.Joining? || t.Introducing? then only else {})
      && Handovers(sys, a) == (if t.HandingOver? then only else {})
  {
    assert Owner(t).Some? ==> AuthorityOf(t) == Owner(t);
    assert forall s :: s in Owners(sys, a) ==> At(sys, a, t, s);
    assert forall s :: s in Introductions(sys, a) ==> At(sys, a, t, s);
    assert forall s :: s in Handovers(sys, a) ==> At(sys, a, t, s);
    if AuthorityOf(t).Some? { assert At(sys, a, t, AuthorityOf(t).value); }
  }

  lemma {:induction false} WhereAll(sys: System, a: AgvId, t: Token)
    requires Inv(sys) && Holds(sys, a, t)
    ensures forall s :: s in sys.stations ==> At(sys, a, t, s)
    ensures AuthorityOf(t).Some? ==> AuthorityOf(t).value in sys.stations
  {
    forall s | s in sys.stations
      ensures At(sys, a, t, s)
    {
      WhereIs(sys, a, t, s);
    }
  }

  lemma {:induction false} AgvFacts(c: Agv, t: Token)
    requires AgvFits(c, t)
    ensures c.registered == !t.Fresh? && c.logical.authority == AuthorityOf(t)
  {
  }

  /**
  A registered AGV has exactly one authority: one owner, or one introduction or one hand-over on
  its way; and that station is the one the AGV obeys.
  */
  lemma {:induction false} OneAuthority(sys: System, a: AgvId)
    requires Inv(sys)
    ensures |Owners(sys, a)| + |Introductions(sys, a)| + |Handovers(sys, a)| ==
      if AgvOf(sys, a).registered then 1 else 0
    ensures Owners(sys, a) + Introductions(sys, a) + Handovers(sys, a)
         == if AgvOf(sys, a).logical.authority.Some? then {AgvOf(sys, a).logical.authority.value} else {}
  {
    var t := SomeToken(sys, a);
    WhereAll(sys, a, t);
    AuthoritySets(sys, a, t);
    AgvFacts(AgvOf(sys, a), t);
    OneOfThree(t, Owners(sys, a), Introductions(sys, a), Handovers(sys, a));
  }

  lemma {:induction false} OneOfThree(
      t: Token, owners: set<StationId>, introductions: set<StationId>, handovers: set<StationId>)
    requires var only := if AuthorityOf(t).Some? then {AuthorityOf(t).value} else {};
      && owners == (if Owner(t).Some? then only else {})
      && introductions == (if t.Joining? || t.Introducing? then only else {})
      && handovers == (if t.HandingOver? then only else {})
    ensures |owners| + |introductions| + |handovers| == (if t.Fresh? then 0 else 1)
    ensures owners + introductions + handovers == if AuthorityOf(t).Some? then {AuthorityOf(t).value} else {}
  {
  }

  /** A report at the head of a link finds the AGV owned, and at the very point it was sent to. */
  lemma {:induction false} ReportIsExact(sys: System, s: StationId, a: AgvId)
    requires Inv(sys) && s in sys.stations
    requires Link(AgvOf(sys, a).up, s) != [] && Link(AgvOf(sys, a).up, s)[0].ReachedGoal?
    ensures a in sys.stations[s].owned && Link(AgvOf(sys, a).up, s) == [ReachedGoal(sys.stations[s].owned[a].next)]
  {
    var t := UpToken(sys, a, s);
    ShareOf(sys, s, a, t);
    StationFacts(sys, s);
  }
}
