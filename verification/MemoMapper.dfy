/** The evaluation's tree mapper remembers its results and half of the last fanout. */
module MemoMapper {
  import opened Arith
  import opened Results
  import opened Positions
  import opened InOrderMap

  datatype Key = Key(position: Position, fanout: nat, constant: real)

  class Mapper {
    var calculated: map<Key, real>
    var lastFanout: nat
    var half: nat

    /** Every remembered value is the one that the overlay itself calculates. */
    ghost predicate Valid()
      reads this
    {
      && (forall k :: k in calculated ==>
            k.fanout >= 2 && calculated[k] == TreeMapper(k.position, k.fanout, k.constant))
      && (lastFanout != 0 ==> half == CeilHalf(lastFanout))
    }

    constructor ()
      ensures Valid()
    {
      calculated, lastFanout, half := map[], 0, 0;
    }

    method RootBounds(m: nat, K: real) returns (i: Interval)
      requires m >= 2 && half == CeilHalf(m)
      ensures i == RootInterval(m, K)
    {
      var upper := (K / half as real) * m as real;
      i := Interval(0.0, upper, ((upper - 0.0) / m as real) * half as real);
    }

    method ChildBounds(parent: Interval, m: nat, r: nat) returns (i: Interval)
      requires m >= 2 && half == CeilHalf(m)
      ensures i == Split(parent, m, r)
    {
      var width := (parent.upper - parent.lower) / m as real;
      var lower := parent.lower + width * r as real;
      var upper := lower + width;
      i := Interval(lower, upper, lower + ((upper - lower) / m as real) * half as real);
    }

    /** treeMapperInternal, which reads the shared half of the fanout. */
    method Internal(p: Position, m: nat, K: real) returns (i: Interval)
      requires m >= 2 && half == CeilHalf(m)
      ensures i == TreeMapperInternal(p, m, K)
      decreases p.level
    {
      if p.level == 0 {
        i := RootBounds(m, K);
      } else {
        RoundedDivision(p.number, m);
        SplitOfParent(p, m, K);
        var parent := Internal(Position(p.level - 1, (p.number - p.number % m) / m), m, K);
        i := ChildBounds(parent, m, p.number % m);
      }
    }

    /** treeMapper: whatever was asked before, the answer is the one calculated from scratch. */
    method Map(p: Position, m: nat, K: real) returns (r: Result<real>)
      requires Valid()
      modifies this
      ensures Valid()
      ensures r.Ok? <==> m >= 2 && K >= 0.0
      ensures r.Ok? ==> r.value == TreeMapper(p, m, K)
    {
      if m < 2 { return Err("Fanout in treeMapper call is below 2"); }
      if K < 0.0 { return Err("K in treeMapper call is below 0"); }
      if lastFanout != m {
        half := (m + 1) / 2;
        lastFanout := m;
      }
      var key := Key(p, m, K);
      if key !in calculated {
        var interval := Internal(p, m, K);
        calculated := calculated[key := interval.center];
      }
      return Ok(calculated[key]);
    }
  }
}
