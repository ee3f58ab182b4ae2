/** Whatever happens to the system, to a station it is one of the events of a station, or nothing. */
module AuthorityTraces {
  import opened Authority
  import opened AuthoritySafety
  import opened Results
  import SR = StationRuns
  import opened StationSafety
  import opened Stations

  lemma {:induction false} PostStations(sys: System, s: StationId, outbox: seq<(AgvId, StationMsg)>)
    ensures Post(sys, s, outbox).stations == sys.stations
    decreases |outbox|
  {
    if outbox != [] {
      var (a, msg) := outbox[0];
      var c := AgvOf(sys, a);
      PostStations(SetAgvOf(sys, a, c.(down := c.down[s := Link(c.down, s) + [msg]])), s, outbox[1..]);
    }
  }

  lemma {:induction false} AfterStations(sys: System, s: StationId, r: Result<Station>)
    requires r.Ok?
    ensures var n := AfterStation(sys, s, r);
      n.Ok? && n.value.stations == sys.stations[s := r.value.(outbox := [])]
  {
    var st := r.value;
    PostStations(sys.(stations := sys.stations[s := st.(outbox := [])]), s, st.outbox);
  }

  /** The station at which an event happens. */
  function Where(ev: Event): Option<StationId>
  {
    match ev
    case Up(_, s, _) => Some(s)
    case Due(s, _, _) => Some(s)
    case Agreed(s, _) => Some(s)
    case NotAgreed(s) => Some(s)
    case StartSpawning(s) => Some(s)
    case _ => None
  }

  /** What the event is to that station. */
  function Seen(sys: System, ev: Event): SR.StationEvent
    requires Enabled(sys, ev) && Where(ev).Some?
  {
    match ev
    case Up(a, s, spawn) => SR.Told(a, Link(AgvOf(sys, a).up, s)[0], spawn)
    case Due(_, tm, spawn) => SR.Rings(tm, spawn)
    case Agreed(_, delay) => SR.Agrees(delay)
    case NotAgreed(_) => SR.Disagrees
    case StartSpawning(_) => SR.Starts
  }

  lemma {:induction false} ReportExpected(sys: System, a: AgvId, s: StationId)
    requires Inv(sys) && s in sys.stations && Link(AgvOf(sys, a).up, s) != []
    ensures s in sys.infos
    ensures var msg := Link(AgvOf(sys, a).up, s)[0];
      msg.ReachedGoal? ==> Expected(sys.infos[s], sys.stations[s], a, msg)
  {
    var t := UpToken(sys, a, s);
    if Link(AgvOf(sys, a).up, s)[0].ReachedGoal? { ReportFacts(sys, a, s, t); }
  }

  lemma {:induction false} SeenCanHappen(sys: System, ev: Event)
    requires Inv(sys) && Enabled(sys, ev) && Where(ev).Some?
    ensures var s := Where(ev).value;
      s in sys.stations && s in sys.infos && SR.CanHappen(sys.infos[s], sys.stations[s], Seen(sys, ev))
  {
    if ev.Up? { ReportExpected(sys, ev.agv, ev.station); }
  }

  lemma {:induction false} NextIs(sys: System, ev: Event)
    requires Inv(sys) && Enabled(sys, ev) && Where(ev).Some? && Next(sys, ev).Ok?
    requires var s := Where(ev).value;
      s in sys.stations && s in sys.infos && SR.CanHappen(sys.infos[s], sys.stations[s], Seen(sys, ev))
    ensures var s := Where(ev).value;
      var r := SR.After(sys.infos[s], sys.stations[s], Seen(sys, ev));
      r.Ok? && Next(sys, ev).value.stations == sys.stations[s := r.value.(outbox := [])]
  {
    var s := Where(ev).value;
    var r := SR.After(sys.infos[s], sys.stations[s], Seen(sys, ev));
    match ev {
      case Up(a, _, spawn) => AfterStations(SetAgvOf(sys, a, Taken(AgvOf(sys, a), s)), s, r);
      case _ => AfterStations(sys, s, r);
    }
  }

  /** An event changes at most one station, and that one as the event of a station does. */
  lemma {:induction false} StepTrace(sys: System, ev: Event)
    requires Inv(sys) && Enabled(sys, ev) && Next(sys, ev).Ok?
    ensures Where(ev).None? ==> Next(sys, ev).value.stations == sys.stations
    ensures Where(ev).Some? ==>
      var s, e := Where(ev).value, Seen(sys, ev);
      && s in sys.stations && s in sys.infos && SR.CanHappen(sys.infos[s], sys.stations[s], e)
      && var r := SR.After(sys.infos[s], sys.stations[s], e);
         r.Ok? && Next(sys, ev).value.stations == sys.stations[s := r.value.(outbox := [])]
  {
    if Where(ev).Some? {
      SeenCanHappen(sys, ev);
      NextIs(sys, ev);
    }
  }

  /** In the whole system too, who joins a queue goes to its end, and who is sent out was at its front. */
  lemma {:induction false} QueuesInOrder(sys: System, ev: Event, s: StationId)
    requires Inv(sys) && Enabled(sys, ev) && Next(sys, ev).Ok? && s in sys.stations
    ensures s in sys.infos && s in Next(sys, ev).value.stations
    ensures Where(ev) != Some(s) ==> Next(sys, ev).value.stations[s].queue == sys.stations[s].queue
    ensures Where(ev) == Some(s) ==>
      var st, e := sys.stations[s], Seen(sys, ev);
      && SR.CanHappen(sys.infos[s], st, e) && SR.After(sys.infos[s], st, e).Ok?
      && st.queue + SR.Joins(st, e) ==
         SR.Departs(st, SR.After(sys.infos[s], st, e).value) + Next(sys, ev).value.stations[s].queue
  {
    StepTrace(sys, ev);
    StationShares(sys, s);
    if Where(ev) == Some(s) { SR.QueueStep(sys.infos[s], sys.stations[s], Seen(sys, ev)); }
  }
}
