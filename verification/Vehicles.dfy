/** Canonical vehicle state shared by the mesh and the risk evaluators. */
module Vehicles {
  import opened Basics

  type Id = string

  datatype ActorType = Pedestrian | Bike | Animal | Auto | Car | Bus | Truck | Ambulance | Other

  datatype VehicleState = VehicleState(
    actorId: Id,
    actorType: ActorType,
    ts: int,
    position: Position,
    uncertainty: real,
    speed: real,
    acceleration: Option<real>,
    heading: real,
    segment: Option<string>)
}
