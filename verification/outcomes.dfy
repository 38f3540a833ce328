/** How a ledger call ends: it either commits with a value (usually the new
    state) or reverts as a whole, with the reason it was refused. */
module Outcomes {

  datatype Error =
    // account creation
    | DuplicateOwner
    | TooManyOwners
    | OwnerAccountLimit
    // lookups
    | NoSuchAccount
    | NoSuchRequest
    // authorization
    | NotOwner
    | CreatorCannotApprove
    | NotRequestCreator
    // amounts and request state
    | InvalidAmount
    | InsufficientBalance
    | AlreadyApproved
    | AlreadyExecuted
    | NotApproved

  datatype Result<+T> = Ok(value: T) | Revert(error: Error)
}
