/** Managed disk objects as one caller uses them: leases, lifetimes and sets. */
module ManagedDisks {

  /** An open file with its lock; releases counts how often they were given back. */
  class Pair {
    var releases: nat

    constructor ()
      ensures releases == 0
    {
      releases := 0;
    }

    method Release()
      modifies this
      ensures releases == old(releases) + 1
    {
      releases := releases + 1;
    }
  }

  class Lifetime {
    const pair: Pair
    var done: bool

    constructor (pair: Pair)
      ensures this.pair == pair && !done
    {
      this.pair, done := pair, false;
    }

    /** Releases on the first call only. */
    method Close()
      modifies this, pair
      ensures done
      ensures pair.releases == old(pair.releases) + if old(done) then 0 else 1
    {
      if !done {
        pair.Release();
        done := true;
      }
    }
  }

  datatype CloseResult = Closed | Transferred

  class ManagedDisk {
    const pair: Pair
    var present: bool
    var claimed: bool

    constructor (pair: Pair)
      ensures this.pair == pair && present && !claimed
    {
      this.pair, present, claimed := pair, true, false;
    }

    predicate Available()
      reads this
    {
      present && !claimed
    }

    /** physical is the outcome of the target, lock and file checks. */
    method TakeForStart(physical: bool) returns (lifetime: Lifetime?)
      modifies this
      ensures lifetime != null <==> old(Available()) && physical
      ensures lifetime != null ==> fresh(lifetime) && lifetime.pair == pair && !lifetime.done && claimed && !present
      ensures lifetime == null ==> unchanged(this)
    {
      if claimed || !present || !physical { return null; }
      lifetime := new Lifetime(pair);
      present, claimed := false, true;
    }

    method Close() returns (r: CloseResult)
      modifies this, pair
      ensures r.Transferred? <==> old(claimed)
      ensures claimed == old(claimed)
      ensures old(Available()) ==> !present && pair.releases == old(pair.releases) + 1
      ensures !old(Available()) ==> present == old(present) && pair.releases == old(pair.releases)
    {
      if claimed { return Transferred; }
      if !present { return Closed; }
      pair.Release();
      present := false;
      return Closed;
    }
  }

  /** Distinct leases on distinct files. */
  predicate Separate(disks: seq<ManagedDisk>) {
    forall i, j :: 0 <= i < j < |disks| ==> disks[i] != disks[j] && disks[i].pair != disks[j].pair
  }

  ghost function Pairs(disks: seq<ManagedDisk>): set<object> {
    set i | 0 <= i < |disks| :: disks[i].pair
  }

  ghost function Leases(disks: seq<ManagedDisk>): set<object> {
    set i | 0 <= i < |disks| :: disks[i]
  }

  /** CloseUnclaimed: every lease still held is released, every transferred one is left alone. */
  method CloseUnclaimed(disks: seq<ManagedDisk>)
    requires Separate(disks)
    modifies Leases(disks), Pairs(disks)
    ensures forall i :: 0 <= i < |disks| ==>
      disks[i].claimed == old(disks[i].claimed) && disks[i].present == (old(disks[i].present) && old(disks[i].claimed))
    ensures forall i :: 0 <= i < |disks| ==>
      disks[i].pair.releases == old(disks[i].pair.releases) + if old(disks[i].Available()) then 1 else 0
  {
    var k := 0;
    while k < |disks|
      invariant k <= |disks|
      invariant forall i :: 0 <= i < k ==>
        disks[i].claimed == old(disks[i].claimed) && disks[i].present == (old(disks[i].present) && old(disks[i].claimed))
      invariant forall i :: 0 <= i < k ==>
        disks[i].pair.releases == old(disks[i].pair.releases) + if old(disks[i].Available()) then 1 else 0
      invariant forall i :: k <= i < |disks| ==>
          disks[i].claimed == old(disks[i].claimed) && disks[i].present == old(disks[i].present)
      invariant forall i :: k <= i < |disks| ==> disks[i].pair.releases == old(disks[i].pair.releases)
    {
      var r := disks[k].Close();
      k := k + 1;
    }
  }

  /** Every lifetime is open, is new and belongs to the disk at its place. */
  ghost predicate Match(lifetimes: seq<Lifetime>, disks: seq<ManagedDisk>)
    reads lifetimes
  {
    && |lifetimes| <= |disks|
    && forall i :: 0 <= i < |lifetimes| ==> lifetimes[i].pair == disks[i].pair && !lifetimes[i].done
  }

  predicate AllDistinct(lifetimes: seq<Lifetime>) {
    forall i, j :: 0 <= i < j < |lifetimes| ==> lifetimes[i] != lifetimes[j]
  }

  method CloseAll(lifetimes: seq<Lifetime>, ghost disks: seq<ManagedDisk>)
    requires Separate(disks) && Match(lifetimes, disks) && AllDistinct(lifetimes)
    modifies lifetimes, Pairs(disks)
    ensures forall i :: 0 <= i < |lifetimes| ==> lifetimes[i].done
    ensures forall i :: 0 <= i < |disks| ==>
      disks[i].pair.releases == old(disks[i].pair.releases) + if i < |lifetimes| then 1 else 0
  {
    var k := 0;
    while k < |lifetimes|
      invariant k <= |lifetimes|
      invariant forall i :: 0 <= i < k ==> lifetimes[i].done
      invariant forall i :: k <= i < |lifetimes| ==> !lifetimes[i].done
      invariant forall i :: 0 <= i < |disks| ==>
        disks[i].pair.releases == old(disks[i].pair.releases) + if i < k then 1 else 0
    {
      assert lifetimes[k].pair == disks[k].pair;
      lifetimes[k].Close();
      k := k + 1;
    }
  }

  /**
   TakeForStart on a set: all leases move to lifetimes, or none stays moved. first says which
   checks pass when the set is validated, later which pass when the leases are taken.
   */
  method TakeForStart(disks: seq<ManagedDisk>, first: nat -> bool, later: nat -> bool)
    returns (lifetimes: seq<Lifetime>, taken: bool)
    requires Separate(disks)
    modifies Leases(disks), Pairs(disks)
    ensures taken <==>
            (0 < |disks| <= 4 && forall i :: 0 <= i < |disks| ==> old(disks[i].Available()) && first(i) && later(i))
    ensures taken ==> |lifetimes| == |disks| && Match(lifetimes, disks) && AllDistinct(lifetimes) && fresh(lifetimes)
    ensures taken ==> forall i :: 0 <= i < |disks| ==>
      disks[i].claimed && !disks[i].present && disks[i].pair.releases == old(disks[i].pair.releases)
    ensures !taken ==> lifetimes == [] && forall i :: 0 <= i < |disks| ==>
      || (disks[i].claimed == old(disks[i].claimed) && disks[i].present == old(disks[i].present) &&
          disks[i].pair.releases == old(disks[i].pair.releases))
      || (old(disks[i].Available()) && disks[i].claimed && !disks[i].present &&
          disks[i].pair.releases == old(disks[i].pair.releases) + 1)
  {
    lifetimes, taken := [], false;
    if |disks| == 0 || |disks| > 4 { return; }
    for i := 0 to |disks|
      invariant forall j :: 0 <= j < i ==> old(disks[j].Available()) && first(j)
    {
      if !disks[i].Available() || !first(i) { return; }
    }
    lifetimes, taken := TakeEach(disks, later);
  }

  method TakeEach(disks: seq<ManagedDisk>, later: nat -> bool) returns (lifetimes: seq<Lifetime>, taken: bool)
    requires Separate(disks) && forall i :: 0 <= i < |disks| ==> disks[i].Available()
    modifies Leases(disks), Pairs(disks)
    ensures taken <==> forall i :: 0 <= i < |disks| ==> later(i)
    ensures taken ==> |lifetimes| == |disks| && Match(lifetimes, disks) && AllDistinct(lifetimes) && fresh(lifetimes)
    ensures taken ==> forall i :: 0 <= i < |disks| ==>
      disks[i].claimed && !disks[i].present && disks[i].pair.releases == old(disks[i].pair.releases)
    ensures !taken ==> lifetimes == [] && forall i :: 0 <= i < |disks| ==>
      || (disks[i].Available() && disks[i].pair.releases == old(disks[i].pair.releases))
      || (disks[i].claimed && !disks[i].present && disks[i].pair.releases == old(disks[i].pair.releases) + 1)
  {
    lifetimes := TakeWhile(disks, later);
    taken := |lifetimes| == |disks|;
    if !taken {
      CloseAll(lifetimes, disks);
      lifetimes := [];
    }
  }

  /** Takes leases one by one, up to the first that is refused. */
  method TakeWhile(disks: seq<ManagedDisk>, later: nat -> bool) returns (lifetimes: seq<Lifetime>)
    requires Separate(disks) && forall i :: 0 <= i < |disks| ==> disks[i].Available()
    modifies Leases(disks)
    ensures fresh(lifetimes) && Match(lifetimes, disks) && AllDistinct(lifetimes)
    ensures |lifetimes| < |disks| ==> !later(|lifetimes|)
    ensures forall i :: 0 <= i < |lifetimes| ==> later(i) && disks[i].claimed && !disks[i].present
    ensures forall i :: |lifetimes| <= i < |disks| ==> disks[i].Available()
  {
    lifetimes := [];
    var k := 0;
    while k < |disks|
      invariant k <= |disks| && |lifetimes| == k && fresh(lifetimes)
      invariant Match(lifetimes, disks) && AllDistinct(lifetimes)
      invariant forall i :: 0 <= i < k ==> later(i) && disks[i].claimed && !disks[i].present
      invariant forall i :: k <= i < |disks| ==> disks[i].Available()
    {
      var lifetime := disks[k].TakeForStart(later(k));
      if lifetime == null { return; }
      lifetimes := lifetimes + [lifetime];
      k := k + 1;
    }
  }

  /** A failed take followed by CloseUnclaimed gives every fresh lease back exactly once. */
  method TakeOrGiveBack(disks: seq<ManagedDisk>, first: nat -> bool, later: nat -> bool)
    returns (lifetimes: seq<Lifetime>, taken: bool)
    requires Separate(disks) && forall i :: 0 <= i < |disks| ==> disks[i].Available() && disks[i].pair.releases == 0
    modifies Leases(disks), Pairs(disks)
    ensures !taken ==> forall i :: 0 <= i < |disks| ==> disks[i].pair.releases == 1 && !disks[i].present
    ensures taken ==> Match(lifetimes, disks) && forall i :: 0 <= i < |disks| ==> disks[i].pair.releases == 0 && disks[i].claimed
  {
    lifetimes, taken := TakeForStart(disks, first, later);
    CloseUnclaimed(disks);
  }
}
