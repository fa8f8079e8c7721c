/** Why a packet is dropped, and what the rate limiter can answer. */
module Verdicts {
  import opened Wrappers

  /** The four answers of the rate limiter (step 5). */
  datatype Verdict =
    | Accept
    | WindowFull   // ten accepts already in the window
    | BanStart     // the third window-full rejection in a row: banned from now on
    | Banned       // dropped because a ban is running

  datatype DropReason =
    | TooSmall | TooLarge                 // step 1
    | Malformed(error: Error)             // parsing
    | TtlExhausted                        // step 2
    | TooOld | TooFarInFuture             // step 3
    | Duplicate                           // step 4
    | RateLimited(verdict: Verdict)       // step 5
    | BadSignature                        // step 6
    | NoTicket | TicketExpired            // step 7
    | SprayInflated                       // step 8
}
