/** Results of operations that may fail: the program returns None or raises, here it returns a value. */
module Wrappers {

  datatype Option<+T> = None | Some(value: T)

  /** The exceptions the modelled code raises on bad input. */
  datatype Error =
    | TooShort          // packet shorter than header plus signature
    | LengthMismatch    // packet length disagrees with its payload_len field
    | FieldOutOfRange   // an integer does not fit its wire field
    | BadKeyLength      // a public key that is not 32 bytes
    | BadTokenLength    // a capability token that is not 98 bytes
    | BadText           // a username or message text outside its size limits, or not decodable
    | BadSeal           // a sealed envelope that does not open
    | BadPayload        // a friend payload with missing, wrong or trailing bytes
    | BadTicket         // an attestation token that is not accepted

  datatype Result<+T> = Ok(value: T) | Err(error: Error) {

    predicate IsFailure() {
      Err?
    }

    function PropagateFailure<U>(): Result<U>
      requires Err?
    {
      Err(error)
    }

    function Extract(): T
      requires Ok?
    {
      value
    }
  }
}
