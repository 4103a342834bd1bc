/** Clients of the lot: small lots driven through a few arrivals, with the outcome of
  * each arrival determined by the contracts alone. */
module Scenario {
  import opened Wrappers
  import opened Vehicles
  import opened Floors
  import opened Lots

  /** On a fresh floor a vehicle that fits at all is put on the first spot. */
  lemma FreshFloorFitsFirst(s: seq<ParkingSpot>, k: nat)
    requires AllNew(s) && k <= |s|
    ensures FirstFit(s, k) == 0
  {
    assert RunFree(s, 0, k);
  }

  /** On a fresh lot a vehicle that fits on the first floor is put there. */
  lemma FreshLotFirstFloor(grid: Grid, k: nat)
    requires 0 < |grid| && AllNew(grid[0]) && k <= |grid[0]|
    ensures FirstFloor(grid, k) == 0 && FirstFit(grid[0], k) == 0
  {
    FreshFloorFitsFirst(grid[0], k);
  }

  /** After a car on the first spot of a fresh three-spot floor, a truck fits from the
    * second spot. */
  lemma TruckBesideCar(g0: Grid, g1: Grid, car: Vehicle, truck: Vehicle)
    requires 0 < |g0| && AllNew(g0[0]) && |g0[0]| == 3
    requires car.vType == Car && truck.vType == Truck
    requires FirstFit(g0[0], 1) == 0 && g1 == ParkOn(g0, 0, car)
    ensures FirstFloor(g1, truck.RequiredSpots()) == 0 && FirstFit(g1[0], truck.RequiredSpots()) == 1
  {
    assert g1[0][0].isOccupied;
    assert RunFree(g1[0], 1, 2);
  }

  /** A car on a lot of two fresh one-spot floors fills the first; the next car goes to
    * the second floor. */
  lemma NextCarOverflows(grid: Grid, a: Vehicle, c: Vehicle)
    requires |grid| == 2 && forall h :: 0 <= h < 2 ==> |grid[h]| == 1 && AllNew(grid[h])
    requires a.vType == Car && c.vType == Car
    ensures FirstFit(grid[0], a.RequiredSpots()) == 0
    ensures var g1 := ParkOn(grid, 0, a);
      FirstFloor(g1, c.RequiredSpots()) == 1 && FirstFit(g1[1], c.RequiredSpots()) == 0
  {
    FreshFloorFitsFirst(grid[0], 1);
    FreshFloorFitsFirst(grid[1], 1);
    var g1: Grid := ParkOn(grid, 0, a);
    assert g1[0][0].isOccupied;
    assert FirstFit(g1[0], 1) == -1;
    assert g1[1] == grid[1];
  }

  /** A truck on a lot of one-spot floors fits nowhere. */
  lemma TruckFitsNowhere(grid: Grid, truck: Vehicle)
    requires forall h :: 0 <= h < |grid| ==> |grid[h]| == 1
    requires truck.vType == Truck
    ensures FirstFloor(grid, truck.RequiredSpots()) == -1
  {
    forall h | 0 <= h < |grid| ensures FirstFit(grid[h], 2) == -1 {
      FirstFitTooLong(grid[h], 2);
    }
  }

  /** A car, then a truck, on two floors of three spots: both on the first floor. */
  method CarThenTruck() {
    var lot := new ParkingLot(2, 3);
    ghost var car, truck := NewVehicle("A", Car), NewVehicle("B", Truck);
    ghost var g0 := lot.Grid();
    FreshLotFirstFloor(g0, 1);

    var ok := lot.ParkVehicle("A", Car);
    assert ok && lot.parkedVehicles == map["A" := Location(1, 1)];
    TruckBesideCar(g0, lot.Grid(), car, truck);

    // The truck takes spots 2 and 3 of the first floor.
    ok := lot.ParkVehicle("B", Truck);
    var loc := lot.VehicleLocation("B");
    assert ok && loc == Some(Location(1, 2));
  }

  /** Two cars on two floors of one spot: the second goes to the second floor. */
  method CarsOverflow() {
    var lot := new ParkingLot(2, 1);
    ghost var a, c := NewVehicle("A", Car), NewVehicle("C", Car);
    NextCarOverflows(lot.Grid(), a, c);
    FreshLotFirstFloor(lot.Grid(), 1);

    var ok := lot.ParkVehicle("A", Car);
    assert ok;
    ok := lot.ParkVehicle("C", Car);
    assert ok;
    var loc := lot.VehicleLocation("C");
    assert loc == Some(Location(2, 1));
  }

  /** A truck on a lot of one floor of one spot is refused and nothing is recorded. */
  method TruckRefused() {
    var lot := new ParkingLot(1, 1);
    TruckFitsNowhere(lot.Grid(), NewVehicle("B", Truck));
    var ok := lot.ParkVehicle("B", Truck);
    assert !ok;
    var loc := lot.VehicleLocation("B");
    assert loc == None;
  }

  /** A truck fills a floor of two spots; once it leaves, both are available again. */
  method TruckLeaves() {
    var lot := new ParkingLot(1, 2);
    ghost var truck := NewVehicle("B", Truck);
    ghost var g0 := lot.Grid();
    FreshLotFirstFloor(g0, 2);
    ParkLowersFreeCount(g0, 0, truck);

    var ok := lot.ParkVehicle("B", Truck);
    var free := lot.AvailableSpotsPerFloor();
    assert ok && free == [FloorAvailability(1, 0)];

    ghost var g1 := lot.Grid();
    ghost var index := lot.parkedVehicles;
    RemoveRaisesFreeCount(g1, index, "B");
    ok := lot.RemoveVehicle("B");
    free := lot.AvailableSpotsPerFloor();
    assert ok && free == [FloorAvailability(1, 2)];
  }

  /** A car parks, leaves, and parks again: the lot is back as it was, so the second
    * arrival succeeds at the same place. */
  method ParkLeaveParkAgain() {
    var lot := new ParkingLot(1, 1);
    ghost var car := NewVehicle("A", Car);
    ghost var g0 := lot.Grid();
    ghost var index0 := lot.parkedVehicles;
    FreshLotFirstFloor(g0, 1);
    LotParkThenRemove(g0, index0, car);

    var ok := lot.ParkVehicle("A", Car);
    assert ok;
    ok := lot.RemoveVehicle("A");
    assert ok && lot.Grid() == g0;

    ok := lot.ParkVehicle("A", Car);
    var loc := lot.VehicleLocation("A");
    assert ok && loc == Some(Location(1, 1));
  }
}
