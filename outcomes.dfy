/** Failure-carrying values shared by every component: the source returns `(value, error)` pairs
    or stops the process with `log.Fatalf`; both become an `Err` here. */
module Outcomes {

  datatype Option<+T> = None | Some(value: T)

  /** The recoverable failures of the core, one per distinct error message of the source. */
  datatype Error =
    | InsufficientData(entries: nat, days: nat)  // not enough price data for the observation period
    | InvalidTradeSize(size: real)               // a trade size outside (0, 100]
    | PriceNotFound(asset: string)               // no price for an asset at the requested date
    | HarvestBeforeStart                         // harvest date not after the farm's start date
    | HarvestBeforeLastHarvest                   // harvest date not after the last harvest date

  datatype Result<+T> = Ok(value: T) | Err(error: Error)
}
