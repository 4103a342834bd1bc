/**
 * Vehicles and parking spots: the two value-level entities of the parking lot.
 * A spot is stored by value in its floor's array; the spot's two setters are
 * modelled as functions whose result is written back into that array element.
 */
module Vehicles {
  import opened Wrappers

  datatype VehicleType = Bike | Car | Truck

  /** An immutable vehicle; the number of spots it needs is derived from its type. */
  datatype Vehicle = Vehicle(plateNumber: string, vType: VehicleType)
  {
    /** A truck needs two adjacent spots, every other vehicle one. */
    function RequiredSpots(): (n: nat)
      ensures 1 <= n <= 2
      ensures n == 2 <==> vType == Truck
    {
      if vType == Truck then 2 else 1
    }
  }

  /** The vehicle constructor: records plate and type; the spot count follows from the type. */
  function NewVehicle(plate: string, vType: VehicleType): (v: Vehicle)
    ensures v.plateNumber == plate && v.vType == vType
    ensures v.RequiredSpots() == 2 <==> vType == Truck
    ensures v.RequiredSpots() == 1 <==> vType in {Bike, Car}
  {
    Vehicle(plate, vType)
  }

  /** One allocatable unit of a floor; `vehicle` stands for the shared pointer to the occupant. */
  datatype ParkingSpot = ParkingSpot(spotId: int, isOccupied: bool, vehicle: Option<Vehicle>)
  {
    /** The occupied flag and the occupant are set and cleared together. */
    predicate Valid() {
      isOccupied <==> vehicle.Some?
    }

    /** The test the floor applies before releasing a spot: occupied by a vehicle with this plate. */
    predicate HoldsPlate(plate: string) {
      isOccupied && vehicle.Some? && vehicle.value.plateNumber == plate
    }

    function AssignVehicle(v: Vehicle): (s: ParkingSpot)
      ensures s.Valid() && s.HoldsPlate(v.plateNumber) && s.vehicle == Some(v)
      ensures s.spotId == spotId
    {
      ParkingSpot(spotId, true, Some(v))
    }

    function RemoveVehicle(): (s: ParkingSpot)
      ensures s.Valid() && !s.isOccupied
      ensures forall p :: !s.HoldsPlate(p)
      ensures s.spotId == spotId
    {
      ParkingSpot(spotId, false, None)
    }
  }

  /** A spot as the floor constructor creates it: numbered, free, without occupant. */
  function NewSpot(id: int): (s: ParkingSpot)
    ensures s.Valid() && !s.isOccupied && s.spotId == id
  {
    ParkingSpot(id, false, None)
  }

  /** Releasing a spot is idempotent. */
  lemma RemoveVehicleIdempotent(s: ParkingSpot)
    ensures s.RemoveVehicle().RemoveVehicle() == s.RemoveVehicle()
  {
  }

  /** Assigning a free, consistent spot and then releasing it gives back the original spot. */
  lemma AssignThenRemove(s: ParkingSpot, v: Vehicle)
    requires s.Valid() && !s.isOccupied
    ensures s.AssignVehicle(v).RemoveVehicle() == s
  {
  }
}
