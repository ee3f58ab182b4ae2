/** AGVs as the objects they are: the logical part, which talks to the stations, and the physical part, which moves. */
module AgvObjects {
  import opened Results
  import Spec = Stations
  import opened StationObjects
  import opened Stations

  /** The station to which the AGV has introduced itself last. */
  function LastIntroduced(sent: seq<(StationId, AgvMsg)>): Option<StationId>
  {
    if sent == [] then None
    else
      var (s, msg) := sent[|sent| - 1];
      if msg.NewAuthority? then Some(s) else LastIntroduced(sent[..|sent| - 1])
  }

  /** An introduction carries the AGV's kinematics, a report goes to the station introduced to last. */
  predicate Addressed(sent: seq<(StationId, AgvMsg)>, i: nat, k: Kinematics)
    requires i < |sent|
  {
    match sent[i].1
    case NewAuthority(_, _, _, own) => own == k
    case ReachedGoal(_) => LastIntroduced(sent[..i]) == Some(sent[i].0)
  }

  ghost predicate AllAddressed(sent: seq<(StationId, AgvMsg)>, k: Kinematics)
  {
    forall i :: 0 <= i < |sent| ==> Addressed(sent, i, k)
  }

  lemma {:induction false} SentOne(sent: seq<(StationId, AgvMsg)>, s: StationId, msg: AgvMsg, k: Kinematics)
    requires AllAddressed(sent, k) && Addressed(sent + [(s, msg)], |sent|, k)
    ensures AllAddressed(sent + [(s, msg)], k)
    ensures LastIntroduced(sent + [(s, msg)]) == if msg.NewAuthority? then Some(s) else LastIntroduced(sent)
  {
    var all := sent + [(s, msg)];
    assert all[..|sent|] == sent;
    forall i | 0 <= i < |sent|
      ensures Addressed(all, i, k)
    {
      assert Addressed(sent, i, k) && all[..i] == sent[..i];
    }
  }

  class AgvLogical {
    const kinematics: Kinematics
    var authority: Option<StationId>
    var last: Point
    var toPhysical: seq<Point>
    var outbox: seq<(StationId, AgvMsg)>

    ghost function State(): Logical
      reads this
    {
      Logical(kinematics, authority, last, toPhysical, outbox)
    }

    /** The AGV's authority is the station it has introduced itself to last, and every report went to such a station. */
    ghost predicate Valid()
      reads this
    {
      authority == LastIntroduced(outbox) && AllAddressed(outbox, kinematics)
    }

    constructor (k: Kinematics, at: Point)
      ensures State() == Logical(k, None, at, [], []) && Valid()
    {
      kinematics, authority, last, toPhysical, outbox := k, None, at, [], [];
    }

    method Send(s: StationId, msg: AgvMsg)
      requires AllAddressed(outbox, kinematics)
      requires if msg.NewAuthority? then msg.kinematics == kinematics else LastIntroduced(outbox) == Some(s)
      modifies this`outbox
      ensures outbox == old(outbox) + [(s, msg)] && AllAddressed(outbox, kinematics)
      ensures LastIntroduced(outbox) == if msg.NewAuthority? then Some(s) else old(LastIntroduced(outbox))
    {
      assert (outbox + [(s, msg)])[..|outbox|] == outbox;
      SentOne(outbox, s, msg, kinematics);
      outbox := outbox + [(s, msg)];
    }

    method RegisterByAuthority(s: StationId)
      requires Valid()
      modifies this
      ensures Valid() && LastIntroduced(outbox) == Some(s)
      ensures State() == Spec.RegisterByAuthority(old(State()), s)
    {
      authority := Some(s);
      Send(s, NewAuthority(true, last, Point(0.0, 0.0), kinematics));
    }

    /** The AGV listens to its authority only, and after a hand-over to the next station only. */
    method ProcessMessage(sender: StationId, msg: StationMsg) returns (r: Outcome)
      requires Valid()
      modifies this
      ensures Valid() && Matches(r, Spec.ReceiveStationMsg(old(State()), sender, msg), State())
      ensures r.Thrown? <==> old(LastIntroduced(outbox)) != Some(sender)
      ensures r.Thrown? ==> State() == old(State())
      ensures r == Done ==> LastIntroduced(outbox) == Some(if msg.Handover? then msg.next else sender)
      ensures r == Done ==> toPhysical == old(toPhysical) + [msg.goal]
    {
      if authority != Some(sender) {
        return Thrown("No authority to send messages");
      }
      match msg {
        case Drive(goal) => ProcessDriveMessage(goal);
        case Handover(goal, next) => ProcessHandoverMessage(goal, next);
      }
      return Done;
    }

    method ProcessDriveMessage(goal: Point)
      modifies this`toPhysical
      ensures toPhysical == old(toPhysical) + [goal]
    {
      toPhysical := toPhysical + [goal];
    }

    method ProcessHandoverMessage(goal: Point, next: StationId)
      requires Valid()
      modifies this
      ensures Valid() && last == old(last) && authority == Some(next) && toPhysical == old(toPhysical) + [goal]
      ensures outbox == old(outbox) + [(next, NewAuthority(false, last, goal, kinematics))]
    {
      authority := Some(next);
      Send(next, NewAuthority(false, last, goal, kinematics));
      ProcessDriveMessage(goal);
    }

    method ProcessMessageField(msg: FieldMsg)
      requires Valid()
      modifies this
      ensures Valid() && LastIntroduced(outbox) == old(LastIntroduced(outbox))
      ensures msg.ReachedGoalField? && LastIntroduced(outbox).Some? ==>
        outbox == old(outbox) + [(LastIntroduced(outbox).value, ReachedGoal(last))]
      ensures State() == Spec.ReceiveFieldMsg(old(State()), msg)
    {
      match msg {
        case PositionUpdate(at) => last := at;
        case ReachedGoalField =>
          if authority.Some? {
            Send(authority.value, ReachedGoal(last));
          }
      }
    }
  }

  /** How often the end of a move has been reported. */
  function Arrivals(reports: seq<FieldMsg>): nat
  {
    multiset(reports)[ReachedGoalField]
  }

  class AgvPhysicalBasic {
    var moving: bool
    var goal: Point
    var updateDue: bool
    var moves: nat
    var toLogical: seq<FieldMsg>
    ghost var accepted: nat

    ghost function State(): Physical
      reads this
    {
      Physical(moving, goal, updateDue, moves, toLogical)
    }

    /** The position timer runs exactly during a move, and every accepted order is under way or has been reported. */
    ghost predicate Valid()
      reads this
    {
      moving == updateDue && moves == (if moving then 1 else 0) && accepted == moves + Arrivals(toLogical)
    }

    constructor ()
      ensures Valid() && accepted == 0 && State() == Physical(false, Point(0.0, 0.0), false, 0, [])
    {
      moving, goal, updateDue, moves, toLogical := false, Point(0.0, 0.0), false, 0, [];
      accepted := 0;
    }

    /** An order is refused exactly during a move; the assertion about the position timer never fails. */
    method ReadFromSocket(drive: Point) returns (r: Outcome)
      modifies this
      ensures Matches(r, Spec.ReceiveDrive(old(State()), drive), State())
      ensures old(Valid()) ==> Valid() && (r.Thrown? <==> old(moving))
      ensures accepted == old(accepted) + if r == Done then 1 else 0
    {
      if moving {
        return Thrown("cannot move while not idle");
      }
      goal := drive;
      moves := moves + 1;
      moving := true;
      if updateDue {
        return Thrown("assert update event expired");
      }
      updateDue := true;
      accepted := accepted + 1;
      return Done;
    }

    /** The end of a move that has been started: its one report follows the position of the goal. */
    method MobilityCallback() returns (r: Outcome)
      requires moves > 0
      modifies this
      ensures Matches(r, Spec.MobilityCallback(old(State()).(moves := old(moves) - 1)), State())
      ensures old(Valid()) ==> r == Done && Valid() && Arrivals(toLogical) == accepted
      ensures accepted == old(accepted)
    {
      moves := moves - 1;
      if !moving {
        return Thrown("assert moving");
      }
      moving := false;
      updateDue := false;
      toLogical := toLogical + [PositionUpdate(goal)];
      toLogical := toLogical + [ReachedGoalField];
      return Done;
    }

    method SendPosUpdate(at: Point)
      modifies this
      ensures State() == Spec.SendPosUpdate(old(State()), at) && (old(Valid()) ==> Valid())
      ensures accepted == old(accepted)
    {
      toLogical := toLogical + [PositionUpdate(at)];
    }
  }
}
