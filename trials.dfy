/** The clinical-trial record (types/ClinicalTrial.ts) and the status list (lib/statuses.ts). */
module Trials {
  import opened Wrappers

  /** One trial as the data loader produces it; optional fields are `Option`s. */
  datatype ClinicalTrial = ClinicalTrial(
    id: string,
    url: Option<string>,
    title: string,
    conditions: seq<string>,
    interventions: seq<string>,
    sponsor: string,
    phase: Option<string>,
    status: Option<string>,
    locations: Option<seq<string>>,
    startDate: Option<string>,
    endDate: Option<string>)

  /** The statuses the table's status filter offers. */
  const STATUSES: seq<string> := [
    "RECRUITING",
    "NOT_YET_RECRUITING",
    "ACTIVE_NOT_RECRUITING",
    "COMPLETED",
    "SUSPENDED",
    "TERMINATED",
    "WITHDRAWN",
    "WITHHELD"
  ]
}
