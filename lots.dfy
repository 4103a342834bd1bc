/**
 * The parking lot: floors tried in ascending order, a plate -> (floor, spot)
 * index and the set of parked plates. The first part states, over plain values,
 * the consistency between the floors' spots and the index, and proves that
 * parking and removal preserve it; the class ParkingLot implements the
 * operations in place and is proved against those definitions.
 */
module Lots {
  import opened Wrappers
  import opened Vehicles
  import opened Floors

  /** Where a vehicle is parked: its floor number and its first spot, both 1-based. */
  datatype Location = Location(floorNumber: int, spotNumber: int)

  /** One line of the per-floor availability report. */
  datatype FloorAvailability = FloorAvailability(floorNumber: int, availableSpots: int)

  /** The spots of every floor, floor by floor. */
  type Grid = seq<seq<ParkingSpot>>

  /** The plate occupies exactly RequiredSpots contiguous spots starting at loc, all on
    * loc's floor and all holding the same vehicle, and no other spot of the lot. */
  ghost predicate OccupiesRun(grid: Grid, plate: string, loc: Location) {
    var f, i := loc.floorNumber - 1, loc.spotNumber - 1;
    && 0 <= f < |grid|
    && 0 <= i < |grid[f]|
    && grid[f][i].HoldsPlate(plate)
    && var v := grid[f][i].vehicle.value;
    && i + v.RequiredSpots() <= |grid[f]|
    && (forall j :: i <= j < i + v.RequiredSpots() ==> grid[f][j].isOccupied && grid[f][j].vehicle == Some(v))
    && (forall g, j :: 0 <= g < |grid| && 0 <= j < |grid[g]| && grid[g][j].HoldsPlate(plate) ==>
          g == f && i <= j < i + v.RequiredSpots())
  }

  /** The lot's global invariant: every spot is consistent, every occupant is indexed,
    * and every indexed plate occupies exactly its run at the recorded location. */
  ghost predicate Consistent(grid: Grid, index: map<string, Location>) {
    && (forall g {:trigger SpotsValid(grid[g])} :: 0 <= g < |grid| ==> SpotsValid(grid[g]))
    && (forall g, j {:trigger Indexed(grid[g][j], index)} ::
          0 <= g < |grid| && 0 <= j < |grid[g]| ==> Indexed(grid[g][j], index))
    && (forall p {:trigger OccupiesRun(grid, p, index[p])} :: p in index ==> OccupiesRun(grid, p, index[p]))
  }

  /** The spot's occupant, if any, is in the index. */
  ghost predicate Indexed(s: ParkingSpot, index: map<string, Location>) {
    s.vehicle.Some? ==> s.vehicle.value.plateNumber in index
  }

  /** No spot of the lot holds the plate. */
  ghost predicate Absent(grid: Grid, plate: string) {
    forall g, j :: 0 <= g < |grid| && 0 <= j < |grid[g]| ==> !grid[g][j].HoldsPlate(plate)
  }

  /** First floor, from floor index g on, with a free run of k spots. */
  function FirstFloorFrom(grid: Grid, k: nat, g: nat): (r: int)
    ensures -1 <= r
    ensures r != -1 ==> g <= r < |grid| && FirstFit(grid[r], k) != -1
    ensures forall h :: g <= h < |grid| && (r == -1 || h < r) ==> FirstFit(grid[h], k) == -1
    decreases |grid| - g
  {
    if g >= |grid| then -1
    else if FirstFit(grid[g], k) != -1 then g
    else FirstFloorFrom(grid, k, g + 1)
  }

  /** The lowest floor index with a free run of k spots, or -1 when the lot is full for k. */
  function FirstFloor(grid: Grid, k: nat): (r: int)
    ensures r == -1 <==> forall h :: 0 <= h < |grid| ==> FirstFit(grid[h], k) == -1
    ensures r != -1 ==> 0 <= r < |grid| && FirstFit(grid[r], k) != -1 &&
                        forall h :: 0 <= h < r ==> FirstFit(grid[h], k) == -1
  {
    FirstFloorFrom(grid, k, 0)
  }

  /** The lot after vehicle v has been parked in the first fitting run of floor g. */
  function ParkOn(grid: Grid, g: int, v: Vehicle): Grid
    requires 0 <= g < |grid| && FirstFit(grid[g], v.RequiredSpots()) != -1
  {
    grid[g := Occupy(grid[g], FirstFit(grid[g], v.RequiredSpots()), v)]
  }

  /** The lot after the plate has been released on floor f. */
  function RemoveFrom(grid: Grid, f: int, plate: string): Grid
    requires 0 <= f < |grid|
  {
    grid[f := Release(grid[f], plate)]
  }

  /** A plate that is not indexed is held by no spot. */
  lemma UnindexedIsAbsent(grid: Grid, index: map<string, Location>, plate: string)
    requires Consistent(grid, index) && plate !in index
    ensures Absent(grid, plate)
  {
    forall g, j | 0 <= g < |grid| && 0 <= j < |grid[g]| ensures !grid[g][j].HoldsPlate(plate) {
      assert Indexed(grid[g][j], index);
    }
  }

  /** After parking, the new plate occupies exactly the run found on floor g. */
  lemma ParkPlacesNew(grid: Grid, index: map<string, Location>, g: int, v: Vehicle)
    requires Consistent(grid, index) && v.plateNumber !in index
    requires 0 <= g < |grid| && FirstFit(grid[g], v.RequiredSpots()) != -1
    ensures OccupiesRun(ParkOn(grid, g, v), v.plateNumber, Location(g + 1, FirstFit(grid[g], v.RequiredSpots()) + 1))
  {
    var i := FirstFit(grid[g], v.RequiredSpots());
    OccupyExactly(grid[g], i, v);
    UnindexedIsAbsent(grid, index, v.plateNumber);
    var grid': Grid := ParkOn(grid, g, v);
    assert grid'[g][i].vehicle == Some(v);
  }

  /** After parking, every plate that was already indexed still occupies its recorded run. */
  lemma ParkKeepsOther(grid: Grid, index: map<string, Location>, g: int, v: Vehicle, p: string)
    requires Consistent(grid, index) && v.plateNumber !in index && p in index
    requires 0 <= g < |grid| && FirstFit(grid[g], v.RequiredSpots()) != -1
    ensures OccupiesRun(ParkOn(grid, g, v), p, index[p])
  {
    var i := FirstFit(grid[g], v.RequiredSpots());
    OccupyExactly(grid[g], i, v);
    var grid': Grid := ParkOn(grid, g, v);
    var loc := index[p];
    assert OccupiesRun(grid, p, loc);
    var f, s := loc.floorNumber - 1, loc.spotNumber - 1;
    var w := grid[f][s].vehicle.value;
    // The run of p is occupied, while the new run was free: the two are disjoint.
    assert forall j :: s <= j < s + w.RequiredSpots() ==> grid'[f][j] == grid[f][j];
    assert grid'[f][s] == grid[f][s];
    assert p != v.plateNumber;
  }

  /** Parking a new plate on floor g, in the first fitting run of that floor, and recording
    * (g + 1, start + 1) keeps the lot consistent. */
  lemma ParkKeepsConsistent(grid: Grid, index: map<string, Location>, g: int, v: Vehicle)
    requires Consistent(grid, index) && v.plateNumber !in index
    requires 0 <= g < |grid| && FirstFit(grid[g], v.RequiredSpots()) != -1
    ensures Consistent(ParkOn(grid, g, v),
                       index[v.plateNumber := Location(g + 1, FirstFit(grid[g], v.RequiredSpots()) + 1)])
  {
    var i := FirstFit(grid[g], v.RequiredSpots());
    var grid': Grid := ParkOn(grid, g, v);
    var index' := index[v.plateNumber := Location(g + 1, i + 1)];
    OccupyExactly(grid[g], i, v);
    ParkPlacesNew(grid, index, g, v);
    forall h | 0 <= h < |grid'| ensures SpotsValid(grid'[h]) {
      assert h != g ==> SpotsValid(grid[h]);
    }
    forall h, j | 0 <= h < |grid'| && 0 <= j < |grid'[h]| ensures Indexed(grid'[h][j], index') {
      assert Indexed(grid[h][j], index);
    }
    forall p | p in index'
      ensures OccupiesRun(grid', p, index'[p])
    {
      if p != v.plateNumber {
        ParkKeepsOther(grid, index, g, v, p);
      }
    }
  }

  /** After removal, no spot holds the removed plate. */
  lemma RemoveClearsPlate(grid: Grid, index: map<string, Location>, plate: string)
    requires Consistent(grid, index) && plate in index
    ensures 0 <= index[plate].floorNumber - 1 < |grid|
    ensures Absent(RemoveFrom(grid, index[plate].floorNumber - 1, plate), plate)
  {
    var f := index[plate].floorNumber - 1;
    assert OccupiesRun(grid, plate, index[plate]);
    ReleaseExactly(grid[f], plate);
  }

  /** Releasing one plate on any floor leaves the run of every other plate in place. */
  lemma RemoveKeepsOther(grid: Grid, f: int, plate: string, p: string, loc: Location)
    requires 0 <= f < |grid| && p != plate && OccupiesRun(grid, p, loc)
    ensures OccupiesRun(RemoveFrom(grid, f, plate), p, loc)
  {
    var grid': Grid := RemoveFrom(grid, f, plate);
    var h, s := loc.floorNumber - 1, loc.spotNumber - 1;
    var w := grid[h][s].vehicle.value;
    assert grid'[h][s] == grid[h][s];
    assert forall j :: s <= j < s + w.RequiredSpots() ==> grid'[h][j] == grid[h][j];
    forall g, j | 0 <= g < |grid'| && 0 <= j < |grid'[g]| && grid'[g][j].HoldsPlate(p)
      ensures g == h && s <= j < s + w.RequiredSpots()
    {
      assert grid'[g][j] == grid[g][j];
    }
  }

  /** Removing an indexed plate from its recorded floor and from the index keeps the lot
    * consistent, and afterwards no spot holds that plate. */
  lemma RemoveKeepsConsistent(grid: Grid, index: map<string, Location>, plate: string)
    requires Consistent(grid, index) && plate in index
    ensures 0 <= index[plate].floorNumber - 1 < |grid|
    ensures Consistent(RemoveFrom(grid, index[plate].floorNumber - 1, plate), index - {plate})
    ensures Absent(RemoveFrom(grid, index[plate].floorNumber - 1, plate), plate)
  {
    var f := index[plate].floorNumber - 1;
    RemoveClearsPlate(grid, index, plate);
    ReleaseExactly(grid[f], plate);
    var grid': Grid := RemoveFrom(grid, f, plate);
    var index' := index - {plate};
    forall h | 0 <= h < |grid'| ensures SpotsValid(grid'[h]) {
      assert h != f ==> SpotsValid(grid[h]);
    }
    forall h, j | 0 <= h < |grid'| && 0 <= j < |grid'[h]| ensures Indexed(grid'[h][j], index') {
      assert Indexed(grid[h][j], index);
    }
    forall p | p in index'
      ensures OccupiesRun(grid', p, index'[p])
    {
      RemoveKeepsOther(grid, f, plate, p, index[p]);
    }
  }

  /** The recorded floor of an indexed plate exists and its spots are valid. */
  lemma RecordedFloor(grid: Grid, index: map<string, Location>, plate: string)
    requires Consistent(grid, index) && plate in index
    ensures 0 <= index[plate].floorNumber - 1 < |grid| && SpotsValid(grid[index[plate].floorNumber - 1])
  {
    assert OccupiesRun(grid, plate, index[plate]);
  }

  /** A grid that differs from another only on floor f is that grid updated at f. */
  lemma UpdatedAt(grid': Grid, grid: Grid, f: int, spots: seq<ParkingSpot>)
    requires 0 <= f < |grid| == |grid'| && grid'[f] == spots
    requires forall h :: 0 <= h < |grid| && h != f ==> grid'[h] == grid[h]
    ensures grid' == grid[f := spots]
  {
  }

  /** A lot whose floors are all as constructed is consistent with the empty index,
    * and every floor has all its spots available. */
  lemma EmptyLot(grid: Grid)
    requires forall g :: 0 <= g < |grid| ==> AllNew(grid[g])
    ensures Consistent(grid, map[])
    ensures forall g :: 0 <= g < |grid| ==> FreeCount(grid[g]) == |grid[g]|
  {
    forall g | 0 <= g < |grid|
      ensures FreeCount(grid[g]) == |grid[g]|
    {
      AllFree(grid[g]);
    }
  }

  /** Parking as the lot performs it: a grid equal to ParkOn on floor g and an index
    * recording the new plate at (g + 1, start + 1) are consistent. */
  lemma ParkedLot(grid': Grid, index': map<string, Location>, grid: Grid, index: map<string, Location>, g: int, v: Vehicle)
    requires Consistent(grid, index) && v.plateNumber !in index
    requires 0 <= g < |grid| && FirstFit(grid[g], v.RequiredSpots()) != -1
    requires grid' == ParkOn(grid, g, v)
    requires index' == index[v.plateNumber := Location(g + 1, FirstFit(grid[g], v.RequiredSpots()) + 1)]
    ensures Consistent(grid', index')
  {
    ParkKeepsConsistent(grid, index, g, v);
  }

  /** Parking on floor g lowers that floor's free count by exactly the vehicle's spots. */
  lemma ParkLowersFreeCount(grid: Grid, g: int, v: Vehicle)
    requires 0 <= g < |grid| && FirstFit(grid[g], v.RequiredSpots()) != -1
    ensures FreeCount(ParkOn(grid, g, v)[g]) == FreeCount(grid[g]) - v.RequiredSpots()
  {
    OccupyFreeCount(grid[g], FirstFit(grid[g], v.RequiredSpots()), v);
  }

  /** Removing a parked plate raises the free count of its floor by exactly the spots its
    * vehicle needs. */
  lemma RemoveRaisesFreeCount(grid: Grid, index: map<string, Location>, plate: string)
    requires Consistent(grid, index) && plate in index
    ensures 0 <= index[plate].floorNumber - 1 < |grid|
    ensures var f, i := index[plate].floorNumber - 1, index[plate].spotNumber - 1;
      0 <= i < |grid[f]| && grid[f][i].vehicle.Some? &&
      FreeCount(RemoveFrom(grid, f, plate)[f]) ==
        FreeCount(grid[f]) + grid[f][i].vehicle.value.RequiredSpots()
  {
    var loc := index[plate];
    assert OccupiesRun(grid, plate, loc);
    var f, i := loc.floorNumber - 1, loc.spotNumber - 1;
    var k := grid[f][i].vehicle.value.RequiredSpots();
    forall j | 0 <= j < |grid[f]| ensures grid[f][j].HoldsPlate(plate) <==> i <= j < i + k {
    }
    ReleaseFreeCount(grid[f], plate, i, k);
  }

  /** Parking a new plate where the lot puts it, then removing that plate from the floor
    * it was recorded on, restores both the spots and the index exactly; so the same plate
    * can be parked again at the same place. */
  lemma LotParkThenRemove(grid: Grid, index: map<string, Location>, v: Vehicle)
    requires Consistent(grid, index) && v.plateNumber !in index
    requires FirstFloor(grid, v.RequiredSpots()) != -1
    ensures var g := FirstFloor(grid, v.RequiredSpots());
      var loc := Location(g + 1, FirstFit(grid[g], v.RequiredSpots()) + 1);
      && RemoveFrom(ParkOn(grid, g, v), loc.floorNumber - 1, v.plateNumber) == grid
      && index[v.plateNumber := loc] - {v.plateNumber} == index
  {
    var g := FirstFloor(grid, v.RequiredSpots());
    UnindexedIsAbsent(grid, index, v.plateNumber);
    assert SpotsValid(grid[g]);
    ParkThenRemove(grid[g], v);
  }

  /** Occupied spots of one floor. */
  function Occupied(s: seq<ParkingSpot>): (r: nat)
    ensures r <= |s|
  {
    |s| - FreeCount(s)
  }

  /** Occupied spots of the whole lot, summed floor by floor. */
  function TotalOccupied(grid: Grid): nat {
    if grid == [] then 0
    else TotalOccupied(grid[..|grid| - 1]) + Occupied(grid[|grid| - 1])
  }

  /** The spots needed by the vehicle whose run starts at loc (0 when there is none). */
  ghost function UnitsAt(grid: Grid, loc: Location): nat {
    var f, i := loc.floorNumber - 1, loc.spotNumber - 1;
    if 0 <= f < |grid| && 0 <= i < |grid[f]| && grid[f][i].vehicle.Some?
    then grid[f][i].vehicle.value.RequiredSpots()
    else 0
  }

  /** The spots needed by the vehicles of the given parked plates. */
  ghost function ParkedUnits(grid: Grid, index: map<string, Location>, plates: set<string>): nat
    requires plates <= index.Keys
    decreases plates
  {
    if plates == {} then 0
    else
      var p :| p in plates;
      UnitsAt(grid, index[p]) + ParkedUnits(grid, index, plates - {p})
  }

  /** Any one plate can be taken out of the sum first. */
  lemma {:induction false} ParkedUnitsSplit(grid: Grid, index: map<string, Location>, plates: set<string>, p: string)
    requires p in plates && plates <= index.Keys
    ensures ParkedUnits(grid, index, plates) == UnitsAt(grid, index[p]) + ParkedUnits(grid, index, plates - {p})
    decreases plates
  {
    var q :| q in plates && ParkedUnits(grid, index, plates) ==
      UnitsAt(grid, index[q]) + ParkedUnits(grid, index, plates - {q});
    if q != p {
      ParkedUnitsSplit(grid, index, plates - {q}, p);
      ParkedUnitsSplit(grid, index, plates - {p}, q);
      assert plates - {q} - {p} == plates - {p} - {q};
    }
  }

  /** Two sums agree when every plate contributes the same in both. */
  lemma {:induction false} ParkedUnitsSame(grid: Grid, index: map<string, Location>, grid': Grid, index': map<string, Location>, plates: set<string>)
    requires plates <= index.Keys && plates <= index'.Keys
    requires forall q :: q in plates ==> UnitsAt(grid', index'[q]) == UnitsAt(grid, index[q])
    ensures ParkedUnits(grid', index', plates) == ParkedUnits(grid, index, plates)
    decreases plates
  {
    if plates != {} {
      var p :| p in plates;
      ParkedUnitsSplit(grid, index, plates, p);
      ParkedUnitsSplit(grid', index', plates, p);
      ParkedUnitsSame(grid, index, grid', index', plates - {p});
    }
  }

  /** Replacing one floor changes the lot's total by that floor's difference. */
  lemma {:induction false} TotalOccupiedUpdate(grid: Grid, f: int, s: seq<ParkingSpot>)
    requires 0 <= f < |grid|
    ensures TotalOccupied(grid[f := s]) == TotalOccupied(grid) - Occupied(grid[f]) + Occupied(s)
  {
    var n := |grid| - 1;
    if f < n {
      assert grid[f := s][..n] == grid[..n][f := s];
      TotalOccupiedUpdate(grid[..n], f, s);
    } else {
      assert grid[f := s][..n] == grid[..n];
    }
  }

  /** A lot in which no spot holds a vehicle has nothing occupied. */
  lemma {:induction false} NothingOccupied(grid: Grid)
    requires forall g, j :: 0 <= g < |grid| && 0 <= j < |grid[g]| ==> !grid[g][j].isOccupied
    ensures TotalOccupied(grid) == 0
  {
    if grid != [] {
      var n := |grid| - 1;
      AllFree(grid[n]);
      assert forall g, j :: 0 <= g < n && 0 <= j < |grid[..n][g]| ==> grid[..n][g][j] == grid[g][j];
      NothingOccupied(grid[..n]);
    }
  }

  /** A consistent lot with an empty index has nothing occupied. */
  lemma EmptyIndexNothingOccupied(grid: Grid)
    requires Consistent(grid, map[])
    ensures TotalOccupied(grid) == 0
  {
    forall g, j | 0 <= g < |grid| && 0 <= j < |grid[g]| ensures !grid[g][j].isOccupied {
      assert Indexed(grid[g][j], map[]);
      assert SpotsValid(grid[g]);
    }
    NothingOccupied(grid);
  }

  /** Removing one plate leaves the contribution of every other indexed plate as it was. */
  lemma RemoveKeepsUnits(grid: Grid, index: map<string, Location>, p: string, q: string)
    requires Consistent(grid, index) && p in index && q in index && p != q
    requires 0 <= index[p].floorNumber - 1 < |grid|
    ensures UnitsAt(RemoveFrom(grid, index[p].floorNumber - 1, p), index[q]) == UnitsAt(grid, index[q])
  {
    var grid' := RemoveFrom(grid, index[p].floorNumber - 1, p);
    var h, i := index[q].floorNumber - 1, index[q].spotNumber - 1;
    assert OccupiesRun(grid, q, index[q]);
    assert grid'[h][i] == grid[h][i];
  }

  /** In a consistent lot the occupied spots, over all floors, are exactly the spots
    * needed by the parked vehicles: no spot is lost or counted twice. */
  lemma {:induction false} OccupiedIsParkedUnits(grid: Grid, index: map<string, Location>)
    requires Consistent(grid, index)
    ensures TotalOccupied(grid) == ParkedUnits(grid, index, index.Keys)
    decreases |index|
  {
    if index == map[] {
      EmptyIndexNothingOccupied(grid);
    } else {
      var p :| p in index;
      var f := index[p].floorNumber - 1;
      RemoveKeepsConsistent(grid, index, p);
      RemoveRaisesFreeCount(grid, index, p);
      var grid' := RemoveFrom(grid, f, p);
      var index' := index - {p};
      OccupiedIsParkedUnits(grid', index');
      TotalOccupiedUpdate(grid, f, Release(grid[f], p));
      ParkedUnitsSplit(grid, index, index.Keys, p);
      assert index.Keys - {p} == index'.Keys;
      forall q | q in index'.Keys ensures UnitsAt(grid', index'[q]) == UnitsAt(grid, index[q]) {
        RemoveKeepsUnits(grid, index, p, q);
      }
      ParkedUnitsSame(grid, index, grid', index', index'.Keys);
    }
  }

  /** Removal as the lot performs it: a grid equal to RemoveFrom on the recorded floor and
    * an index without the plate are consistent, and no spot holds the plate. */
  lemma RemovedLot(grid': Grid, index': map<string, Location>, grid: Grid, index: map<string, Location>, plate: string)
    requires Consistent(grid, index) && plate in index
    requires 0 <= index[plate].floorNumber - 1 < |grid|
    requires grid' == RemoveFrom(grid, index[plate].floorNumber - 1, plate) && index' == index - {plate}
    ensures Consistent(grid', index') && Absent(grid', plate)
  {
    RemoveKeepsConsistent(grid, index, plate);
  }

  class ParkingLot {
    const floors: seq<ParkingFloor>
    var parkedVehicles: map<string, Location>
    var parkedPlates: set<string>

    /** The spot arrays of all floors: the footprint of the lot's mutable state besides itself. */
    ghost const SpotArrays: set<array<ParkingSpot>>

    /** The current spots of every floor, floor by floor. */
    ghost function Grid(): (grid: Grid)
      requires Footprint()
      reads SpotArrays
      ensures |grid| == |floors|
      ensures forall g :: 0 <= g < |floors| ==> grid[g] == floors[g].spots[..]
    {
      seq(|floors|, g requires 0 <= g < |floors| reads SpotArrays => floors[g].spots[..])
    }

    /** The footprint holds the spot array of every floor. */
    ghost predicate Footprint() {
      forall g :: 0 <= g < |floors| ==> floors[g].spots in SpotArrays
    }

    /** Every floor owns its own spot array, and the footprint holds them all. */
    ghost predicate FloorsDistinct() {
      && Footprint()
      && (forall g, h :: 0 <= g < |floors| && 0 <= h < |floors| && g != h ==> floors[g].spots != floors[h].spots)
    }

    /** Parks the vehicle on floor g alone; every other floor keeps its spots. */
    method ParkOnFloor(g: int, vehicle: Vehicle)
      requires FloorsDistinct() && 0 <= g < |floors| && floors[g].Valid()
      requires FirstFit(Grid()[g], vehicle.RequiredSpots()) != -1
      modifies floors[g].spots
      ensures floors[g].Valid()
      ensures Grid() == ParkOn(old(Grid()), g, vehicle)
    {
      var _ := floors[g].ParkVehicle(vehicle);
      UpdatedAt(Grid(), old(Grid()), g, floors[g].spots[..]);
    }

    /** Releases the plate on floor f alone; every other floor keeps its spots. */
    method RemoveOnFloor(f: int, plate: string)
      requires FloorsDistinct() && 0 <= f < |floors| && floors[f].Valid()
      modifies floors[f].spots
      ensures Grid() == RemoveFrom(old(Grid()), f, plate)
    {
      floors[f].RemoveVehicle(plate);
      UpdatedAt(Grid(), old(Grid()), f, floors[f].spots[..]);
    }

    /** Floors are numbered by position and own distinct arrays; the plate set mirrors
      * the index's keys; the index agrees with the spots of every floor. */
    ghost predicate Valid()
      reads this, SpotArrays
    {
      && (forall g :: 0 <= g < |floors| ==> floors[g].floorNumber == g + 1)
      && FloorsDistinct()
      && parkedVehicles.Keys == parkedPlates
      && Consistent(Grid(), parkedVehicles)
    }

    /** numFloors floors of spotsPerFloor free spots each; nothing parked. */
    constructor (numFloors: int, spotsPerFloor: int)
      ensures Valid()
      ensures |floors| == if numFloors < 0 then 0 else numFloors
      ensures forall g :: 0 <= g < |floors| ==>
                floors[g].spots.Length == (if spotsPerFloor < 0 then 0 else spotsPerFloor) &&
                FreeCount(floors[g].spots[..]) == floors[g].spots.Length
      ensures forall g :: 0 <= g < |floors| ==> AllNew(Grid()[g])
      ensures fresh(SpotArrays)
      ensures parkedVehicles == map[] && parkedPlates == {}
    {
      var fs: seq<ParkingFloor> := [];
      var i := 0;
      while i < numFloors
        invariant 0 <= i <= (if numFloors < 0 then 0 else numFloors) && |fs| == i
        invariant forall g :: 0 <= g < i ==>
                    && fs[g].floorNumber == g + 1 && fresh(fs[g].spots)
                    && fs[g].spots.Length == (if spotsPerFloor < 0 then 0 else spotsPerFloor)
                    && AllNew(fs[g].spots[..])
        invariant forall g, h :: 0 <= g < i && 0 <= h < i && g != h ==> fs[g].spots != fs[h].spots
      {
        var floor := new ParkingFloor(i, spotsPerFloor);
        fs := fs + [floor];
        i := i + 1;
      }
      floors := fs;
      SpotArrays := set f | f in fs :: f.spots;
      parkedVehicles := map[];
      parkedPlates := {};
      new;
      EmptyLot(Grid());
    }

    /** Parks a vehicle on the first floor, in floor order, with a fitting run, and records
      * (floor number, 1-based start spot). A plate already parked, or a lot without a
      * fitting run, is refused with no change. */
    method ParkVehicle(plate: string, vType: VehicleType) returns (ok: bool)
      requires Valid()
      modifies this, SpotArrays
      ensures Valid()
      ensures plate in old(parkedPlates) ==>
                !ok && Grid() == old(Grid()) &&
                parkedVehicles == old(parkedVehicles) && parkedPlates == old(parkedPlates)
      ensures plate !in old(parkedPlates) ==>
                var v := NewVehicle(plate, vType);
                var g := FirstFloor(old(Grid()), v.RequiredSpots());
                && ok == (g != -1)
                && (ok ==> var i := FirstFit(old(Grid())[g], v.RequiredSpots());
                           && Grid() == ParkOn(old(Grid()), g, v)
                           && parkedVehicles == old(parkedVehicles)[plate := Location(g + 1, i + 1)]
                           && parkedPlates == old(parkedPlates) + {plate})
                && (!ok ==> Grid() == old(Grid()) &&
                            parkedVehicles == old(parkedVehicles) && parkedPlates == old(parkedPlates))
    {
      if plate in parkedPlates {
        return false;
      }
      var vehicle := NewVehicle(plate, vType);
      var floorIndex, spotIndex := FirstFittingFloor(vehicle);
      if floorIndex == -1 {
        return false;
      }
      RecordPark(floorIndex, spotIndex, vehicle);
      return true;
    }

    /** The body of parkVehicle once a fitting run is found: occupies the run on floor g
      * starting at spot index i and records the plate at (floor number, i + 1). */
    method RecordPark(g: int, i: int, vehicle: Vehicle)
      requires Valid() && vehicle.plateNumber !in parkedPlates
      requires 0 <= g < |floors| && i == FirstFit(Grid()[g], vehicle.RequiredSpots()) != -1
      modifies this, SpotArrays
      ensures Valid()
      ensures Grid() == ParkOn(old(Grid()), g, vehicle)
      ensures parkedVehicles == old(parkedVehicles)[vehicle.plateNumber := Location(g + 1, i + 1)]
      ensures parkedPlates == old(parkedPlates) + {vehicle.plateNumber}
    {
      ghost var grid := Grid();
      ghost var index := parkedVehicles;
      assert SpotsValid(grid[g]);
      ParkOnFloor(g, vehicle);
      ghost var grid' := Grid();
      parkedVehicles, parkedPlates :=
        parkedVehicles[vehicle.plateNumber := Location(floors[g].floorNumber, i + 1)],
        parkedPlates + {vehicle.plateNumber};
      assert Grid() == grid';
      ParkedLot(grid', parkedVehicles, grid, index, g, vehicle);
    }

    /** The floor loop of parkVehicle: asks each floor in order for a fitting run and stops
      * at the first floor that has one, returning that floor's index and the run's start. */
    method FirstFittingFloor(vehicle: Vehicle) returns (floorIndex: int, spotIndex: int)
      requires Footprint()
      requires forall g :: 0 <= g < |floors| ==> floors[g].floorNumber == g + 1
      ensures floorIndex == FirstFloor(Grid(), vehicle.RequiredSpots())
      ensures floorIndex != -1 ==>
                spotIndex == FirstFit(Grid()[floorIndex], vehicle.RequiredSpots()) &&
                floors[floorIndex].floorNumber == floorIndex + 1
      ensures floorIndex == -1 ==> spotIndex == -1
    {
      var i := 0;
      while i < |floors|
        invariant 0 <= i <= |floors|
        invariant forall h :: 0 <= h < i ==> FirstFit(Grid()[h], vehicle.RequiredSpots()) == -1
      {
        spotIndex := floors[i].FindAvailableSpot(vehicle);
        assert Grid()[i] == floors[i].spots[..];
        if spotIndex != -1 {
          return i, spotIndex;
        }
        i := i + 1;
      }
      return -1, -1;
    }

    /** Releases the plate's spots on its recorded floor and forgets the plate; an unknown
      * plate is refused with no change. */
    method RemoveVehicle(plate: string) returns (ok: bool)
      requires Valid()
      modifies this, SpotArrays
      ensures Valid()
      ensures ok == (plate in old(parkedPlates))
      ensures !ok ==> Grid() == old(Grid()) &&
                      parkedVehicles == old(parkedVehicles) && parkedPlates == old(parkedPlates)
      ensures ok ==> var f := old(parkedVehicles)[plate].floorNumber - 1;
                     && 0 <= f < |floors|
                     && Grid() == RemoveFrom(old(Grid()), f, plate)
                     && parkedVehicles == old(parkedVehicles) - {plate}
                     && parkedPlates == old(parkedPlates) - {plate}
                     && Absent(Grid(), plate)
    {
      if plate !in parkedPlates {
        return false;
      }
      ghost var grid := Grid();
      ghost var index := parkedVehicles;
      var floorNum := parkedVehicles[plate].floorNumber;
      RecordedFloor(grid, index, plate);
      RemoveOnFloor(floorNum - 1, plate);
      ghost var grid' := Grid();
      parkedVehicles, parkedPlates := parkedVehicles - {plate}, parkedPlates - {plate};
      assert Grid() == grid';
      RemovedLot(grid', parkedVehicles, grid, index, plate);
      return true;
    }

    /** (floor number, free spots) for every floor, in floor order. */
    method AvailableSpotsPerFloor() returns (r: seq<FloorAvailability>)
      requires Valid()
      ensures |r| == |floors|
      ensures forall g :: 0 <= g < |floors| ==>
                r[g] == FloorAvailability(g + 1, FreeCount(Grid()[g])) &&
                0 <= r[g].availableSpots <= floors[g].spots.Length
    {
      r := [];
      var i := 0;
      while i < |floors|
        invariant 0 <= i <= |floors| && |r| == i
        invariant forall g :: 0 <= g < i ==>
                    r[g] == FloorAvailability(g + 1, FreeCount(Grid()[g])) &&
                    0 <= r[g].availableSpots <= floors[g].spots.Length
      {
        var count := floors[i].AvailableSpots();
        r := r + [FloorAvailability(floors[i].floorNumber, count)];
        i := i + 1;
      }
    }

    /** The recorded location of a plate. A reported location is where the vehicle really
      * is; a plate reported as not found is held by no spot. */
    method VehicleLocation(plate: string) returns (r: Option<Location>)
      requires Valid()
      ensures r.Some? <==> plate in parkedPlates
      ensures r.Some? ==> r.value == parkedVehicles[plate] && OccupiesRun(Grid(), plate, r.value)
      ensures r.None? ==> Absent(Grid(), plate)
    {
      if plate in parkedVehicles {
        r := Some(parkedVehicles[plate]);
      } else {
        UnindexedIsAbsent(Grid(), parkedVehicles, plate);
        r := None;
      }
    }
  }
}
