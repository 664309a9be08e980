/** Alerts as the prioritiser issues them. */
module Alerts {

  datatype Level = Informational | Advisory | Warning | Critical

  datatype Status = Active | Acknowledged | Resolved | Lapsed | Suppressed

  /** `collisionClass` stands for the collision marks looked up in the suppression key and the evidence. */
  datatype Alert = Alert(
    id: string,
    riskId: string,
    level: Level,
    status: Status,
    actors: seq<string>,
    confidence: real,
    issuedAt: real,
    collisionClass: bool)

  function Rank(l: Level): nat {
    match l
    case Informational => 0
    case Advisory => 1
    case Warning => 2
    case Critical => 3
  }
}
