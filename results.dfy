/** The ledger stops with `sys.exit` or an uncaught exception on every error; here each
    error is a value the caller receives. */
module Results {

  datatype Option<+T> = None | Some(value: T)

  /** One constructor per way the ledger gives up. */
  datatype Error =
    | InvalidDate(line: int, date: string)          // parse_first_line, parse_balance_verify
    | InvalidAccount(line: int, account: string)    // parse_posting, parse_balance_verify
    | MalformedVerify(line: int, tokens: nat)       // VERIFY-BALANCE without exactly 4 tokens
    | MissingToken(line: int)                       // `split()[0]` or `split()[1]` on too short a line
    | InvalidAmount(text: string)                   // `float(...)` rejects the text
    | UnknownAccountRoot(account: string)           // KeyError in sign_account
    | NoUnits                                       // `amount['units']` on the nil amount
    | UnknownUnit(units: string)                    // format_amount on a unit other than AUD
    | NotSingleUnit(count: nat)                     // extract_*_unit_amount
    | DifferentUnits(units1: string, units2: string)
    | AccountNotFound(account: string)
    | OutOfOrder(line: int, date: string, description: string)
    | VerificationFailed                            // "Verify balance operation failed."

  datatype Result<+T> = Ok(value: T) | Err(error: Error) {
    predicate IsFailure() {
      Err?
    }

    function PropagateFailure<U>(): Result<U>
      requires Err?
    {
      Err(error)
    }

    function Extract(): T
      requires Ok?
    {
      value
    }
  }

  datatype Outcome = Pass | Fail(error: Error) {
    predicate IsFailure() {
      Fail?
    }

    function PropagateFailure(): Outcome
      requires Fail?
    {
      this
    }
  }
}
