/** Hazards and observations as the hazard service records them. */
module Hazards {
  import opened Basics

  datatype HazardType =
    | Pothole | Bump | Debris | Flood | Landslide | Animal | StalledVehicle | Construction | LaneClosure
    | Accident | LowVisibility | Other

  datatype HazardState = Candidate | Verified | Stale | Expired

  datatype Observation = Observation(
    hazardType: HazardType,
    position: Position,
    observedAt: real,
    source: string,
    confidence: real,
    severity: real,
    roadSegment: Option<string>)

  datatype Hazard = Hazard(
    hazardType: HazardType,
    position: Position,
    severity: real,
    confidence: real,
    firstSeen: real,
    lastSeen: real,
    ttl: int,
    sources: seq<string>,
    evidence: nat,
    contradictions: nat,
    state: HazardState,
    roadSegment: Option<string>)

  /** The hazard objects, by id: the store, the archive and the index all refer to the same object. */
  type Objects = map<string, Hazard>
}
