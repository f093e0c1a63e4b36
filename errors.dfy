/** Values shared by every part of the taxonomy client: optional values, the exceptions the
    script can raise, and a failure-compatible result type that stands for "returns or raises". */
module Errors {

  datatype Option<+T> = None | Some(value: T)

  /** Why a ValueError was raised. */
  datatype ValueErrorReason =
    | TooManyIds(count: nat)          // species_to_id: the search returned more than one id
    | EmptyIdList                     // species_to_id: the search returned no id
    | NonDecimalId(id: string)        // species_to_id: the single id is not all decimal digits
    | MalformedTaxId(text: string)    // parse_taxon_element: int() rejected the TaxId text

  /** The exceptions that can leave the modelled functions. */
  datatype Error =
    | ValueError(reason: ValueErrorReason)
    | HttpError                       // requests.HTTPError, raised by raise_for_status or by make_req itself
    | RequestError                    // any other exception of an attempt (connection failure, timeout, ...)
    | AttributeError(element: string) // a child element the parser looked up is absent (find returned None)
    | TypeError                       // int(None): the TaxId element is present but has no text

  /** Either the value returned or the exception raised. */
  datatype Result<+T> = Ok(value: T) | Err(error: Error) {

    predicate IsFailure() {
      Err?
    }

    function PropagateFailure<U>(): Result<U>
      requires Err?
    {
      Err(error)
    }

    function Extract(): T
      requires Ok?
    {
      value
    }
  }
}
