/**
 * One floor of the lot: a fixed-length array of spots, the first-fit search
 * for a run of free spots, and the batch assign / release of a vehicle.
 * The first part states the floor's behaviour on sequences of spots; the class
 * ParkingFloor implements it in place on its array and is proved against it.
 */
module Floors {
  import opened Wrappers
  import opened Vehicles

  /** Every spot is numbered by its 1-based position and keeps flag and occupant in step. */
  ghost predicate SpotsValid(s: seq<ParkingSpot>) {
    forall j :: 0 <= j < |s| ==> s[j].spotId == j + 1 && s[j].Valid()
  }

  /** The floor as constructed: spot j is numbered j + 1, free and without occupant. */
  ghost predicate AllNew(s: seq<ParkingSpot>) {
    forall j :: 0 <= j < |s| ==> s[j] == NewSpot(j + 1)
  }

  /** Spots i .. i+k-1 all exist and are free. */
  predicate RunFree(s: seq<ParkingSpot>, i: int, k: nat) {
    0 <= i && i + k <= |s| && forall j :: i <= j < i + k ==> !s[j].isOccupied
  }

  /** First-fit search starting at index i. */
  function FirstFitFrom(s: seq<ParkingSpot>, k: nat, i: nat): (r: int)
    ensures -1 <= r
    ensures r != -1 ==> i <= r && RunFree(s, r, k)
    ensures forall j :: i <= j && (r == -1 || j < r) ==> !RunFree(s, j, k)
    decreases |s| - i
  {
    if i + k > |s| then -1
    else if RunFree(s, i, k) then i
    else FirstFitFrom(s, k, i + 1)
  }

  /** The lowest start of a free run of k spots, or -1 when the floor has none
    * (in particular when k exceeds the number of spots). */
  function FirstFit(s: seq<ParkingSpot>, k: nat): (r: int)
    ensures r == -1 <==> forall j :: !RunFree(s, j, k)
    ensures r != -1 ==> RunFree(s, r, k) && forall j :: j < r ==> !RunFree(s, j, k)
  {
    FirstFitFrom(s, k, 0)
  }

  /** The floor after vehicle v has been assigned to spots i .. i+RequiredSpots-1. */
  function Occupy(s: seq<ParkingSpot>, i: int, v: Vehicle): seq<ParkingSpot>
    requires 0 <= i && i + v.RequiredSpots() <= |s|
  {
    seq(|s|, j requires 0 <= j < |s| =>
      if i <= j < i + v.RequiredSpots() then s[j].AssignVehicle(v) else s[j])
  }

  /** The floor after every spot holding the given plate has been released. */
  function Release(s: seq<ParkingSpot>, plate: string): seq<ParkingSpot> {
    seq(|s|, j requires 0 <= j < |s| =>
      if s[j].HoldsPlate(plate) then s[j].RemoveVehicle() else s[j])
  }

  /** Number of free spots. */
  function FreeCount(s: seq<ParkingSpot>): (r: nat)
    ensures r <= |s|
  {
    if s == [] then 0
    else FreeCount(s[..|s| - 1]) + (if s[|s| - 1].isOccupied then 0 else 1)
  }

  /** Occupying a run keeps every spot consistent and numbered; it puts the vehicle
    * on exactly the run and leaves every other spot as it was. */
  lemma OccupyExactly(s: seq<ParkingSpot>, i: int, v: Vehicle)
    requires SpotsValid(s) && 0 <= i && i + v.RequiredSpots() <= |s|
    ensures SpotsValid(Occupy(s, i, v)) && |Occupy(s, i, v)| == |s|
    ensures forall j :: 0 <= j < |s| ==>
      (i <= j < i + v.RequiredSpots() ==> Occupy(s, i, v)[j].vehicle == Some(v) && Occupy(s, i, v)[j].isOccupied) &&
      (!(i <= j < i + v.RequiredSpots()) ==> Occupy(s, i, v)[j] == s[j])
  {
  }

  /** Release frees exactly the spots holding the plate and leaves all others untouched. */
  lemma ReleaseExactly(s: seq<ParkingSpot>, plate: string)
    requires SpotsValid(s)
    ensures SpotsValid(Release(s, plate)) && |Release(s, plate)| == |s|
    ensures forall j :: 0 <= j < |s| ==>
      (s[j].HoldsPlate(plate) ==> !Release(s, plate)[j].isOccupied && Release(s, plate)[j].vehicle == None) &&
      (!s[j].HoldsPlate(plate) ==> Release(s, plate)[j] == s[j])
  {
  }

  /** Removing a plate twice is the same as removing it once. */
  lemma ReleaseIdempotent(s: seq<ParkingSpot>, plate: string)
    ensures Release(Release(s, plate), plate) == Release(s, plate)
  {
    var once := Release(s, plate);
    assert forall j :: 0 <= j < |s| ==> Release(once, plate)[j] == once[j];
  }

  /** Parking a vehicle whose plate is not on the floor and then removing that plate
    * restores the floor exactly. */
  lemma ParkThenRemove(s: seq<ParkingSpot>, v: Vehicle)
    requires SpotsValid(s) && FirstFit(s, v.RequiredSpots()) != -1
    requires forall j :: 0 <= j < |s| ==> !s[j].HoldsPlate(v.plateNumber)
    ensures Release(Occupy(s, FirstFit(s, v.RequiredSpots()), v), v.plateNumber) == s
  {
    var parked := Occupy(s, FirstFit(s, v.RequiredSpots()), v);
    var back := Release(parked, v.plateNumber);
    assert forall j :: 0 <= j < |s| ==> back[j] == s[j];
  }

  class ParkingFloor {
    const floorNumber: int
    const spots: array<ParkingSpot>

    ghost predicate Valid()
      reads spots
    {
      SpotsValid(spots[..])
    }

    /** Floor `number` (0-based) is numbered number + 1; its spots are numbered from 1 and start free. */
    constructor (number: int, spotsPerFloor: int)
      ensures floorNumber == number + 1
      ensures spots.Length == if spotsPerFloor < 0 then 0 else spotsPerFloor
      ensures Valid() && AllNew(spots[..]) && FreeCount(spots[..]) == spots.Length
      ensures fresh(spots)
    {
      floorNumber := number + 1;
      var n := if spotsPerFloor < 0 then 0 else spotsPerFloor;
      var a := new ParkingSpot[n];
      var i := 1;
      while i <= n
        invariant 1 <= i <= n + 1
        invariant forall j :: 0 <= j < i - 1 ==> a[j] == NewSpot(j + 1)
      {
        a[i - 1] := NewSpot(i);
        i := i + 1;
      }
      spots := a;
      new;
      AllFree(spots[..]);
    }

    /** First-fit search for a run of free spots long enough for the vehicle.
      * A vehicle needing more spots than the floor has is reported as not found. */
    method FindAvailableSpot(vehicle: Vehicle) returns (r: int)
      ensures r == FirstFit(spots[..], vehicle.RequiredSpots())
    {
      var needed := vehicle.RequiredSpots();
      if needed > spots.Length {
        return -1;
      }
      var i := 0;
      while i <= spots.Length - needed
        invariant 0 <= i <= spots.Length - needed + 1
        invariant forall h :: h < i ==> !RunFree(spots[..], h, needed)
      {
        var canPark := true;
        var j := 0;
        while j < needed
          invariant 0 <= j <= needed
          invariant canPark
          invariant forall m :: i <= m < i + j ==> !spots[m].isOccupied
        {
          if spots[i + j].isOccupied {
            canPark := false;
            break;
          }
          j := j + 1;
        }
        if canPark {
          assert RunFree(spots[..], i, needed);
          return i;
        }
        assert !RunFree(spots[..], i, needed);
        i := i + 1;
      }
      return -1;
    }

    /** Assigns the vehicle to the first fitting run; when there is none the floor is unchanged. */
    method ParkVehicle(vehicle: Vehicle) returns (ok: bool)
      requires Valid()
      modifies spots
      ensures Valid()
      ensures ok == (FirstFit(old(spots[..]), vehicle.RequiredSpots()) != -1)
      ensures ok ==> spots[..] == Occupy(old(spots[..]), FirstFit(old(spots[..]), vehicle.RequiredSpots()), vehicle)
      ensures !ok ==> spots[..] == old(spots[..])
    {
      var spotIndex := FindAvailableSpot(vehicle);
      if spotIndex == -1 {
        return false;
      }
      var i := 0;
      while i < vehicle.RequiredSpots()
        invariant 0 <= i <= vehicle.RequiredSpots()
        invariant forall j :: 0 <= j < spots.Length ==>
          spots[j] == if spotIndex <= j < spotIndex + i then old(spots[j]).AssignVehicle(vehicle) else old(spots[j])
      {
        spots[spotIndex + i] := spots[spotIndex + i].AssignVehicle(vehicle);
        i := i + 1;
      }
      assert spots[..] == Occupy(old(spots[..]), spotIndex, vehicle);
      OccupyExactly(old(spots[..]), spotIndex, vehicle);
      return true;
    }

    /** Releases every spot whose occupant has the given plate. */
    method RemoveVehicle(plate: string)
      requires Valid()
      modifies spots
      ensures Valid()
      ensures spots[..] == Release(old(spots[..]), plate)
    {
      var i := 0;
      while i < spots.Length
        invariant 0 <= i <= spots.Length
        invariant forall j :: 0 <= j < spots.Length ==>
          spots[j] == if j < i && old(spots[j]).HoldsPlate(plate) then old(spots[j]).RemoveVehicle() else old(spots[j])
      {
        if spots[i].HoldsPlate(plate) {
          spots[i] := spots[i].RemoveVehicle();
        }
        i := i + 1;
      }
      assert spots[..] == Release(old(spots[..]), plate);
      ReleaseExactly(old(spots[..]), plate);
    }

    /** Counts the free spots. */
    method AvailableSpots() returns (count: int)
      ensures count == FreeCount(spots[..])
      ensures 0 <= count <= spots.Length
    {
      count := 0;
      var i := 0;
      while i < spots.Length
        invariant 0 <= i <= spots.Length
        invariant count == FreeCount(spots[..i])
      {
        assert spots[..i + 1][..i] == spots[..i];
        if !spots[i].isOccupied {
          count := count + 1;
        }
        i := i + 1;
      }
      assert spots[..i] == spots[..];
    }
  }

  /** A floor of free spots has all of them available. */
  lemma {:induction false} AllFree(s: seq<ParkingSpot>)
    requires forall j :: 0 <= j < |s| ==> !s[j].isOccupied
    ensures FreeCount(s) == |s|
  {
    if s != [] {
      AllFree(s[..|s| - 1]);
    }
  }

  /** A floor of occupied spots has none available. */
  lemma {:induction false} NoneFree(s: seq<ParkingSpot>)
    requires forall j :: 0 <= j < |s| ==> s[j].isOccupied
    ensures FreeCount(s) == 0
  {
    if s != [] {
      NoneFree(s[..|s| - 1]);
    }
  }

  /** Free spots of two adjacent stretches add up. */
  lemma {:induction false} FreeCountAppend(a: seq<ParkingSpot>, b: seq<ParkingSpot>)
    ensures FreeCount(a + b) == FreeCount(a) + FreeCount(b)
  {
    if b == [] {
      assert a + b == a;
    } else {
      assert (a + b)[..|a + b| - 1] == a + b[..|b| - 1];
      assert (a + b)[|a + b| - 1] == b[|b| - 1];
      FreeCountAppend(a, b[..|b| - 1]);
    }
  }

  /** Splitting a floor around the stretch i .. i+k-1. */
  lemma FreeCountSplit(s: seq<ParkingSpot>, i: int, k: nat)
    requires 0 <= i && i + k <= |s|
    ensures FreeCount(s) == FreeCount(s[..i]) + FreeCount(s[i..i + k]) + FreeCount(s[i + k..])
  {
    assert s == s[..i] + s[i..i + k] + s[i + k..];
    FreeCountAppend(s[..i] + s[i..i + k], s[i + k..]);
    FreeCountAppend(s[..i], s[i..i + k]);
  }

  /** Occupying a run leaves the spots before and after it as they were. */
  lemma OccupyOutsideRun(s: seq<ParkingSpot>, i: int, v: Vehicle)
    requires 0 <= i && i + v.RequiredSpots() <= |s|
    ensures Occupy(s, i, v)[..i] == s[..i]
    ensures Occupy(s, i, v)[i + v.RequiredSpots()..] == s[i + v.RequiredSpots()..]
  {
    var k := v.RequiredSpots();
    var t := Occupy(s, i, v);
    var sl, sr := s[..i], s[i + k..];
    var tl, tr := t[..i], t[i + k..];
    assert forall j :: 0 <= j < |sl| ==> tl[j] == sl[j];
    assert forall j :: 0 <= j < |sr| ==> tr[j] == t[i + k + j] == sr[j];
    assert tl == sl && tr == sr;
  }

  /** Parking in a free run lowers the floor's free count by exactly the vehicle's spots. */
  lemma OccupyFreeCount(s: seq<ParkingSpot>, i: int, v: Vehicle)
    requires RunFree(s, i, v.RequiredSpots())
    ensures FreeCount(Occupy(s, i, v)) == FreeCount(s) - v.RequiredSpots()
  {
    var k := v.RequiredSpots();
    var t := Occupy(s, i, v);
    FreeCountSplit(s, i, k);
    FreeCountSplit(t, i, k);
    OccupyOutsideRun(s, i, v);
    var sm, tm := s[i..i + k], t[i..i + k];
    forall j | 0 <= j < k ensures !sm[j].isOccupied && tm[j].isOccupied {
      assert sm[j] == s[i + j] && tm[j] == t[i + j];
    }
    AllFree(sm);
    NoneFree(tm);
  }

  /** The plate holds exactly the spots i .. i+k-1 of the floor. */
  ghost predicate HoldsExactly(s: seq<ParkingSpot>, plate: string, i: int, k: nat) {
    0 <= i && i + k <= |s| &&
    forall j :: 0 <= j < |s| ==> (s[j].HoldsPlate(plate) <==> i <= j < i + k)
  }

  /** Removing the plate leaves the spots before and after its run as they were. */
  lemma ReleaseOutsideRun(s: seq<ParkingSpot>, plate: string, i: int, k: nat)
    requires HoldsExactly(s, plate, i, k)
    ensures Release(s, plate)[..i] == s[..i]
    ensures Release(s, plate)[i + k..] == s[i + k..]
  {
    var t := Release(s, plate);
    var sl, sr := s[..i], s[i + k..];
    var tl, tr := t[..i], t[i + k..];
    forall j | 0 <= j < |sl| ensures tl[j] == sl[j] {
      assert !s[j].HoldsPlate(plate);
    }
    forall j | 0 <= j < |sr| ensures tr[j] == sr[j] {
      assert !s[i + k + j].HoldsPlate(plate);
    }
    assert tl == sl && tr == sr;
  }

  /** Removing a plate that holds exactly the run i .. i+k-1 raises the free count by k. */
  lemma ReleaseFreeCount(s: seq<ParkingSpot>, plate: string, i: int, k: nat)
    requires HoldsExactly(s, plate, i, k)
    ensures FreeCount(Release(s, plate)) == FreeCount(s) + k
  {
    var t := Release(s, plate);
    FreeCountSplit(s, i, k);
    FreeCountSplit(t, i, k);
    ReleaseOutsideRun(s, plate, i, k);
    var sm, tm := s[i..i + k], t[i..i + k];
    forall j | 0 <= j < |sm| ensures sm[j].isOccupied && !tm[j].isOccupied {
      assert s[i + j].HoldsPlate(plate);
    }
    NoneFree(sm);
    AllFree(tm);
  }

  /** The loop bound of the search as the source evaluates it: `spots.size() - needed`
    * is computed on 64-bit unsigned integers, so it wraps when needed exceeds the size. */
  function AsWrittenLoopBound(size: nat, needed: nat): (b: nat)
    requires size < 0x1_0000_0000_0000_0000 && needed < 0x8000_0000
    ensures needed <= size ==> b == size - needed
    ensures size < needed ==> b == 0x1_0000_0000_0000_0000 - (needed - size)
  {
    (size - needed) % 0x1_0000_0000_0000_0000
  }

  /** Outcome of one pass of the search's inner loop at a start index. */
  datatype InnerOutcome = CanPark | Blocked | InnerReadOutside(index: nat)

  /** Outcome of the search as written: a start, "not found", or the first read of an
    * index outside the floor. */
  datatype SearchOutcome = Found(start: nat) | NotFound | ReadOutside(index: nat)

  /** The inner loop as written, from offset j: it reads spots[i + j] with no bounds check
    * and stops at the first occupied spot. */
  function AsWrittenInner(s: seq<ParkingSpot>, i: nat, needed: nat, j: nat): InnerOutcome
    decreases needed - j
  {
    if j >= needed then CanPark
    else if i + j >= |s| then InnerReadOutside(i + j)
    else if s[i + j].isOccupied then Blocked
    else AsWrittenInner(s, i, needed, j + 1)
  }

  /** The outer loop as written, from start i, bounded by the unsigned loop bound. */
  function AsWrittenSearch(s: seq<ParkingSpot>, needed: nat, i: nat): SearchOutcome
    requires |s| < 0x1_0000_0000_0000_0000 && needed < 0x8000_0000
    decreases AsWrittenLoopBound(|s|, needed) + 1 - i
  {
    if i > AsWrittenLoopBound(|s|, needed) then NotFound
    else match AsWrittenInner(s, i, needed, 0)
      case CanPark => Found(i)
      case Blocked => AsWrittenSearch(s, needed, i + 1)
      case InnerReadOutside(index) => ReadOutside(index)
  }

  /** A start whose run would pass the end either meets an occupied spot first or reads
    * spots[|s|]; at the start |s| itself the very first read is outside. */
  lemma {:induction false} InnerPastEnd(s: seq<ParkingSpot>, i: nat, needed: nat, j: nat)
    requires i + j <= |s| < i + needed
    ensures AsWrittenInner(s, i, needed, j) == Blocked || AsWrittenInner(s, i, needed, j) == InnerReadOutside(|s|)
    ensures i == |s| ==> AsWrittenInner(s, i, needed, j) == InnerReadOutside(|s|)
    decreases needed - j
  {
    if i + j < |s| && !s[i + j].isOccupied {
      InnerPastEnd(s, i, needed, j + 1);
    }
  }

  /** A start whose run lies within the floor reads only in-range spots and can park
    * exactly when spots i+j .. i+needed-1 are free. */
  lemma {:induction false} InnerWithin(s: seq<ParkingSpot>, i: nat, needed: nat, j: nat)
    requires i + needed <= |s| && j <= needed
    ensures AsWrittenInner(s, i, needed, j).CanPark? || AsWrittenInner(s, i, needed, j).Blocked?
    ensures AsWrittenInner(s, i, needed, j).CanPark? <==> forall m :: i + j <= m < i + needed ==> !s[m].isOccupied
    decreases needed - j
  {
    if j < needed && !s[i + j].isOccupied {
      InnerWithin(s, i, needed, j + 1);
    }
  }

  /** From any start up to |s|, the search as written for a vehicle longer than the floor
    * ends by reading spots[|s|]. */
  lemma {:induction false} SearchReadsSize(s: seq<ParkingSpot>, needed: nat, i: nat)
    requires |s| < needed < 0x8000_0000 && i <= |s|
    ensures AsWrittenSearch(s, needed, i) == ReadOutside(|s|)
    decreases |s| - i
  {
    InnerPastEnd(s, i, needed, 0);
    if AsWrittenInner(s, i, needed, 0) == Blocked {
      SearchReadsSize(s, needed, i + 1);
    }
  }

  /** With the loop bound as written, a vehicle needing more spots than the floor has
    * (a truck on a floor of one spot, any vehicle on a floor of none) makes the search
    * read spots[size], one past the end of the floor, before it can report anything. */
  lemma AsWrittenSearchReadsPastEnd(s: seq<ParkingSpot>, needed: nat)
    requires |s| < needed < 0x8000_0000
    ensures AsWrittenSearch(s, needed, 0) == ReadOutside(|s|)
  {
    SearchReadsSize(s, needed, 0);
  }

  /** When the vehicle fits in the floor's length the search as written reads only
    * in-range spots and agrees with the first-fit search from the same start. */
  lemma {:induction false} AsWrittenSearchAgrees(s: seq<ParkingSpot>, needed: nat, i: nat)
    requires needed <= |s| < 0x1_0000_0000_0000_0000 && needed < 0x8000_0000
    ensures AsWrittenSearch(s, needed, i) ==
      if FirstFitFrom(s, needed, i) == -1 then NotFound else Found(FirstFitFrom(s, needed, i))
    decreases |s| + 1 - i
  {
    if i + needed <= |s| {
      InnerWithin(s, i, needed, 0);
      assert AsWrittenInner(s, i, needed, 0).CanPark? <==> RunFree(s, i, needed);
      if !RunFree(s, i, needed) {
        AsWrittenSearchAgrees(s, needed, i + 1);
      }
    }
  }

  /** For a vehicle that fits in the floor's length, the search as written is the
    * first-fit search; only the longer vehicles are affected by the wrapped bound. */
  lemma AsWrittenSearchIsFirstFit(s: seq<ParkingSpot>, needed: nat)
    requires needed <= |s| < 0x1_0000_0000_0000_0000 && needed < 0x8000_0000
    ensures AsWrittenSearch(s, needed, 0) ==
      if FirstFit(s, needed) == -1 then NotFound else Found(FirstFit(s, needed))
  {
    AsWrittenSearchAgrees(s, needed, 0);
  }

  /** The guarded search: a vehicle longer than the floor is simply not found. */
  lemma FirstFitTooLong(s: seq<ParkingSpot>, k: nat)
    requires |s| < k
    ensures FirstFit(s, k) == -1
  {
  }
}
