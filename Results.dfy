/** Tagged outcome types: absence and failure are values, never sentinels. */
module Results {

  /** An optional value: `None` stands for Python's `None`. */
  datatype Option<+T> = None | Some(value: T)

  /** The outcome of a decoding step that can fail with an error of type `E`. */
  datatype Result<+T, +E> = Ok(value: T) | Err(error: E)

  /** Why a source map reference could not be turned into an index. */
  datatype DecodeError =
    | InvalidBase64        // payload is not base64 text (RFC 4648 section 4)
    | NotAscii             // decoded payload holds a byte outside 7-bit ASCII
    | NotDataUri           // reference is not `data:<media type>,<payload>`
    | NotBase64DataUri     // data URI without the `;base64` marker
    | NotJsonMediaType     // data URI media type other than `application/json`
    | InvalidJson          // the document could not be parsed
    | TruncatedVlq         // a VLQ group ends on a continuation digit
    | InvalidVlqDigit      // a segment holds a character outside the base64 alphabet
    | BadFieldCount        // a segment with 2, 3 or more than 5 fields
    | SourceOutOfRange     // a source index outside `sources`
    | NameOutOfRange       // a name index outside `names`
    | NegativePosition     // a generated or original line or column below zero
    | ColumnBackwards      // a generated column smaller than the previous one on its line
}
