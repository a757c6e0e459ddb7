module Common {

  datatype Option<+T> = None | Some(value: T)

  /** The `printer-state-reasons` flags (src/flags.rs); a flag set is a set of them. */
  datatype Reason =
    | Other | CoverOpen | InputTrayMissing | MarkerSupplyEmpty | MarkerSupplyLow
    | MarkerWasteAlmostFull | MarkerWasteFull | MediaEmpty | MediaJam | MediaLow | MediaNeeded
    | Offline | SpoolAreaFull | TonerEmpty | TonerLow | DoorOpen | IdentifyPrinterRequested

  type Reasons = set<Reason>
}
