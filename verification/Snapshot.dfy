/**
 The printer as one `detail` reply shows it, reduced to what the agent decides on.
 */
module Snapshots {
  import opened Sequences

  datatype MachineState =
    | READY
    | BUSY
    | HEATING
    | PRINTING
    | PAUSED
    | COMPLETED
    | ERROR
    | CANCELLED
    | UNKNOWN

  const ACTIVE_STATES: set<MachineState> := {PRINTING, HEATING, BUSY, PAUSED}

  datatype Snapshot = Snapshot(
    state: MachineState,
    fileName: string,
    progress: real,
    durationS: int,
    layer: Option<int>,
    errorCode: string)
  {
    predicate HasJob() {
      fileName != "" && state in ACTIVE_STATES
    }

    predicate IsPaused() {
      state == PAUSED
    }

    /** A job the firmware accepted but has extruded nothing of yet. */
    predicate WarmingUp() {
      HasJob() && !IsPaused() && durationS == 0 && layer.GetOr(0) == 0
    }
  }
}
