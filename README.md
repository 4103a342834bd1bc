# Parking lot allocator

A model of the allocator in `parkinglotsystem.cpp`. A lot has a number of floors, and each floor has a fixed row of numbered spots. A vehicle needs one spot, or two adjacent spots if it is a truck. Parking tries the floors in ascending order. On each floor it takes the lowest-numbered run of free spots that is long enough (first fit). The lot keeps two records of what is parked:
- an index from plate number to (floor number, first spot number), both 1-based;
- a set of the parked plates.

Removing a plate releases every spot its vehicle holds on the recorded floor. The lot can report the free spots of every floor and the recorded location of a plate.

The model has five modules, following the source's classes:

- `Wrappers` (wrappers.dfy): `Option`, which stands for the source's null occupant pointer and for "vehicle not found".
- `Vehicles` (vehicles.dfy): `VehicleType`, `Vehicle` and `ParkingSpot` as values. In the source, a floor keeps its spots by value in a `vector`. The two setters of a spot are functions here, and the floor writes their result back into its array.
- `Floors` (floors.dfy): the first-fit search, occupy, release and free count, stated as functions on `seq<ParkingSpot>`. The class `ParkingFloor` keeps its spots in an `array<ParkingSpot>` and updates them in place with loops. Each of its methods is proved against those functions.
- `Lots` (lots.dfy):
  - the lot's consistency invariant between the spots of all floors and the plate index, stated over plain values (`Grid`, `Consistent`);
  - lemmas showing that parking and removal preserve that invariant, and that it makes the occupied spots equal the spots the parked vehicles need;
  - the class `ParkingLot`, whose methods update the floors' arrays, the index and the plate set in place, and keep `Valid()`.
- `Scenario` (scenario.dfy): small lots driven through a few arrivals and a departure. The outcome of each step follows from the contracts alone.

The spot of a truck is a run of two adjacent spots that hold the same vehicle. A plate's location is the 1-based number of the first spot of its run.

## Model

| member | source | states |
|---|---|---|
| Vehicles.Vehicle.RequiredSpots | parkinglotsystem.cpp:17 | A vehicle needs 1 or 2 spots, and 2 exactly when it is a truck |
| Vehicles.NewVehicle | parkinglotsystem.cpp:16-18 | The constructor keeps plate and type; a truck needs 2 spots, a bike or a car 1 |
| Vehicles.NewSpot | parkinglotsystem.cpp:28 | A new spot has the given number, is free, has no occupant, and its flag agrees with its occupant |
| Vehicles.ParkingSpot.AssignVehicle | parkinglotsystem.cpp:30-33 | Assigning sets the occupant and the occupied flag together; the spot then holds that vehicle's plate and keeps its number |
| Vehicles.ParkingSpot.RemoveVehicle | parkinglotsystem.cpp:35-38 | Removal clears occupant and flag together; afterwards the spot holds no plate and keeps its number |
| Vehicles.RemoveVehicleIdempotent | parkinglotsystem.cpp:35-38 | Releasing a spot twice is the same as releasing it once |
| Vehicles.AssignThenRemove | parkinglotsystem.cpp:30-38 | Assigning a free spot and then releasing it gives back the original spot |
| Floors.FirstFitFrom | parkinglotsystem.cpp:56-65 | A search from start i returns -1 or a start at or after i with a free run of k spots, and no earlier start from i on has one |
| Floors.FirstFit | parkinglotsystem.cpp:54-67 | The result is -1 exactly when no start has a free run of k spots; otherwise it is the lowest start that has one |
| Floors.FreeCount | parkinglotsystem.cpp:90-96 | The number of free spots never exceeds the number of spots |
| Floors.OccupyExactly | parkinglotsystem.cpp:74-76 | Occupying a run puts the vehicle on exactly the run's spots and marks them occupied; every other spot is unchanged and all spots stay numbered and consistent |
| Floors.ReleaseExactly | parkinglotsystem.cpp:81-87 | Release frees, and clears the occupant of, exactly the spots holding the plate; every other spot is unchanged |
| Floors.ReleaseIdempotent | parkinglotsystem.cpp:81-87 | Removing a plate twice from a floor is the same as removing it once |
| Floors.ParkThenRemove | parkinglotsystem.cpp:70-87 | Parking a vehicle whose plate is not on the floor, then removing that plate, restores the floor exactly |
| Floors.AllFree | parkinglotsystem.cpp:90-96 | A floor whose spots are all free has all of them available |
| Floors.OccupyFreeCount | parkinglotsystem.cpp:74-76 | Parking in a free run lowers the floor's free count by exactly the vehicle's spot count |
| Floors.ReleaseFreeCount | parkinglotsystem.cpp:81-87 | Removing a plate that holds exactly a run of k spots raises the free count by exactly k |
| Floors.AsWrittenLoopBound | parkinglotsystem.cpp:56 | The loop bound is evaluated in 64-bit unsigned arithmetic: size - needed when the vehicle fits in the floor's length, 2^64 - (needed - size) when it does not |
| Floors.InnerPastEnd | parkinglotsystem.cpp:58-63 | When the run from start i would pass the floor's end, the inner loop as written either meets an occupied spot or reads spot number size, one past the end; at start size it always reads there |
| Floors.InnerWithin | parkinglotsystem.cpp:58-63 | When the run from start i lies inside the floor, the inner loop as written reads only inside it and reports "can park" exactly when every spot of the run is free |
| Floors.SearchReadsSize | parkinglotsystem.cpp:56-65 | For a vehicle longer than the floor, the search as written, from any start up to the size, ends by reading spot number size, past the end |
| Floors.AsWrittenSearchReadsPastEnd | parkinglotsystem.cpp:56-65 | For a vehicle longer than the floor, the search as written, with its wrapped bound, reads spot number size, one past the end, instead of returning -1 |
| Floors.AsWrittenSearchAgrees | parkinglotsystem.cpp:56-65 | For a vehicle that fits in the floor's length, the search as written from start i returns the same start as the first-fit search from i, or "not found" when that returns -1 |
| Floors.AsWrittenSearchIsFirstFit | parkinglotsystem.cpp:54-67 | For a vehicle that fits in the floor's length, the search as written never reads outside the floor and returns the first-fit start, or "not found" when there is none |
| Floors.FirstFitTooLong | parkinglotsystem.cpp:54-67 | A vehicle needing more spots than the floor has is not found (-1) |
| Floors.ParkingFloor.constructor | parkinglotsystem.cpp:47-51 | Floor index n becomes floor number n + 1; there are max(0, spotsPerFloor) spots, numbered from 1, all free |
| Floors.ParkingFloor.FindAvailableSpot | parkinglotsystem.cpp:54-67 | The nested loops return exactly the first-fit start of a free run of the vehicle's length, or -1 |
| Floors.ParkingFloor.ParkVehicle | parkinglotsystem.cpp:70-78 | Succeeds exactly when a run fits. On success the spots become the old spots with the vehicle on the first-fit run; on failure they are unchanged. The spots stay consistent |
| Floors.ParkingFloor.RemoveVehicle | parkinglotsystem.cpp:81-87 | The new spots are the old spots with every spot holding the plate released |
| Floors.ParkingFloor.AvailableSpots | parkinglotsystem.cpp:90-96 | The count is the number of free spots, between 0 and the floor size |
| Lots.FirstFloorFrom | parkinglotsystem.cpp:126-136 | From floor g on, returns -1 or the first floor at or after g with a fitting run; every floor before it from g on has none |
| Lots.FirstFloor | parkinglotsystem.cpp:126-136 | The result is -1 exactly when no floor has a fitting run; otherwise it is the lowest floor that has one |
| Lots.UnindexedIsAbsent | parkinglotsystem.cpp:167-174 | In a consistent lot, a plate that is not in the index is held by no spot |
| Lots.ParkPlacesNew | parkinglotsystem.cpp:126-131 | After parking on floor g, the new plate occupies exactly its run, which starts at the recorded (g + 1, start + 1) |
| Lots.ParkKeepsOther | parkinglotsystem.cpp:126-131 | Parking a new plate leaves every indexed plate on its recorded run |
| Lots.ParkKeepsConsistent | parkinglotsystem.cpp:126-131 | Parking a new plate on a floor's first-fit run and recording it keeps the spots and the index consistent |
| Lots.RemoveClearsPlate | parkinglotsystem.cpp:150-151 | The recorded floor exists, and after removal no spot of the lot holds the plate |
| Lots.RemoveKeepsOther | parkinglotsystem.cpp:150-151 | Releasing one plate on any floor leaves every other plate on its run |
| Lots.RemoveKeepsConsistent | parkinglotsystem.cpp:150-153 | Releasing the plate on its recorded floor and dropping it from the index keeps the lot consistent and leaves the plate on no spot |
| Lots.RecordedFloor | parkinglotsystem.cpp:150-151 | The floor recorded for a parked plate exists and its spots are consistent |
| Lots.EmptyLot | parkinglotsystem.cpp:108-112 | Floors as constructed are consistent with the empty index and have all their spots free |
| Lots.ParkLowersFreeCount | parkinglotsystem.cpp:129 | Parking on a floor lowers that floor's free count by exactly the vehicle's spot count |
| Lots.RemoveRaisesFreeCount | parkinglotsystem.cpp:150-151 | Removing a parked plate raises its floor's free count by exactly its vehicle's spot count |
| Lots.LotParkThenRemove | parkinglotsystem.cpp:115-156 | Parking a new plate where the lot puts it, then removing it from the floor recorded for it, gives back exactly the same floors and the same index |
| Lots.EmptyIndexNothingOccupied | parkinglotsystem.cpp:108-112 | A consistent lot with nothing indexed has no occupied spot |
| Lots.RemoveKeepsUnits | parkinglotsystem.cpp:150-151 | Removing one plate leaves every other plate's spot count unchanged |
| Lots.OccupiedIsParkedUnits | parkinglotsystem.cpp:115-156 | In a consistent lot, the occupied spots over all floors equal the sum of the parked vehicles' required spots |
| Lots.ParkingLot.constructor | parkinglotsystem.cpp:108-112 | The lot has max(0, numFloors) floors numbered 1.., each with max(0, spotsPerFloor) free spots, and nothing is parked. The lot is valid |
| Lots.ParkingLot.ParkOnFloor | parkinglotsystem.cpp:129 | Parking on floor g changes floor g as the first-fit occupy does and leaves every other floor as it was |
| Lots.ParkingLot.RemoveOnFloor | parkinglotsystem.cpp:151 | Removal on floor f changes floor f as release does and leaves every other floor as it was |
| Lots.ParkingLot.ParkVehicle | parkinglotsystem.cpp:115-139 | An already parked plate is refused with no change. Otherwise it succeeds exactly when some floor has a fitting run; the vehicle goes to the first such floor's first-fit run, and the index and set gain the plate at (floor, start + 1). A full lot changes nothing. Validity is kept |
| Lots.ParkingLot.RecordPark | parkinglotsystem.cpp:129-131 | Occupies the found run and records the plate at (floor number, start + 1); validity is kept |
| Lots.ParkingLot.FirstFittingFloor | parkinglotsystem.cpp:126-128 | The floor loop returns the first floor with a fitting run, with that floor's first-fit start, or -1 |
| Lots.ParkingLot.RemoveVehicle | parkinglotsystem.cpp:142-156 | Succeeds exactly when the plate is parked. On success its recorded floor is released, index and set drop the plate, and no spot holds it; on failure nothing changes. Validity is kept |
| Lots.ParkingLot.AvailableSpotsPerFloor | parkinglotsystem.cpp:159-164 | One (floor number, free spots) entry per floor, in floor order, with the floor's exact free count |
| Lots.ParkingLot.VehicleLocation | parkinglotsystem.cpp:167-175 | A location is reported exactly for parked plates: the recorded one, and the vehicle really occupies its run there. An unreported plate is on no spot |
| Scenario.FreshFloorFitsFirst | parkinglotsystem.cpp:54-67 | On a fresh floor, a vehicle that fits at all gets the first spot |
| Scenario.FreshLotFirstFloor | parkinglotsystem.cpp:126-136 | On a fresh lot, a vehicle that fits the first floor goes to its first spot |
| Scenario.TruckBesideCar | parkinglotsystem.cpp:126-136 | After a car on spot 1 of a fresh three-spot floor, a truck goes to spots 2-3 of that floor |
| Scenario.NextCarOverflows | parkinglotsystem.cpp:126-136 | With the first one-spot floor taken, the next car goes to floor 2, spot 1 |
| Scenario.TruckFitsNowhere | parkinglotsystem.cpp:54-67 | On floors of one spot, a truck fits nowhere |

The methods `Scenario.CarThenTruck`, `Scenario.CarsOverflow`, `Scenario.TruckRefused`, `Scenario.TruckLeaves` and `Scenario.ParkLeaveParkAgain` have no contract of their own. Each drives a lot through a few calls and asserts the outcome: locations, refusals, per-floor availability, and a plate that parks again after leaving.

Where the code differs from what the allocator is meant to do, the model follows the code:
- The vehicle categories are Bike, Car and Truck, and only a truck needs two spots.
- Parking and removal test the plate set, but the location query tests the index. `Valid()` keeps the index's keys equal to the set, so the two tests agree.
- A vehicle longer than the floor should be reported as not found. The code's loop bound wraps instead, as recorded under Findings. The model adds that guard.

## Left out

- Console output (parkinglotsystem.cpp:120, 132-133, 137, 146, 154, 161-162, 169-173). It is not modelled. `AvailableSpotsPerFloor` returns the (floor, free spots) pairs instead of printing them, and `VehicleLocation` returns an `Option<Location>`.
- The mutex (parkinglotsystem.cpp:105, 116, 143). Each operation is one atomic step of the model; concurrent callers are not modelled.
- `shared_ptr` (parkinglotsystem.cpp:26, 124). A spot holds the vehicle as a value. The two spots of a truck hold equal values rather than one shared object, so reference counting and lifetime are not modelled.
- The interactive menu and `main` (parkinglotsystem.cpp:178-241). They are input parsing and printing around the four lot operations that the menu calls (parkinglotsystem.cpp:196-219): `parkVehicle`, `removeVehicle`, `availableSpotsPerFloor` and `vehicleLocation`.
- Integer widths. Spot counts, floor numbers and free counts are unbounded integers, and the source's 32-bit `int` is not modelled. Below `INT_MAX` spots per floor and floors per lot, every number and count the source stores fits in an `int`. The one case at that limit is the next line. The unsigned loop bound of the search is modelled under Findings.
- Floors.ParkingFloor.constructor: does not model the overflow of the spot counter. With `spotsPerFloor` equal to `INT_MAX`, which `main` accepts because it rejects only values up to 0 (parkinglotsystem.cpp:232), `++i` overflows after the last spot (parkinglotsystem.cpp:48). That is undefined behaviour in C++. The model builds a floor of exactly `spotsPerFloor` spots instead.
- The floor loop of `parkVehicle` is split into `FirstFittingFloor` and `RecordPark`. The floor's own `parkVehicle` repeats the search and its result is ignored (parkinglotsystem.cpp:129). The model repeats the search too, and proves that it finds the same run.
- In `removeVehicle` the source reads the floor with `operator[]`, which would insert a default entry for a missing key (parkinglotsystem.cpp:150). Only plates in the set reach that line, and `Valid()` keeps the set equal to the index's keys, so the insertion never happens and is not modelled.
- Spot numbers (`spotID`) are set by the floor constructor and kept by every operation, but no operation reads them.

## Findings

| source | as written | input that shows it | evidently intended | confidence | as-written member | corrected member |
|---|---|---|---|---|---|---|
| parkinglotsystem.cpp:56 | `i <= spots.size() - needed` subtracts in unsigned 64-bit arithmetic, so when `needed > spots.size()` the bound wraps to almost 2^64 | a truck (2 spots) on a floor of 1 spot, or any vehicle on a floor of 0 spots: every start up to the floor size is admitted, none fits, and the inner loop reads `spots[size]`, one past the end | report "not found" (-1) when the vehicle needs more spots than the floor has | high; not executed | Floors.AsWrittenSearchReadsPastEnd | Floors.ParkingFloor.FindAvailableSpot |
