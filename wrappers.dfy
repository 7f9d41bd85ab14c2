/** Failure-carrying results shared by every part of the asset-pack codec. */
module Wrappers {

  datatype Option<+T> = None | Some(value: T)

  /** The ways reading or writing an asset pack can fail. */
  datatype Error =
    | UnexpectedEof              // a read_exact that found fewer bytes than it needed
    | InvalidUtf8                // bytes that String::from_utf8 refuses
    | SchemaError(document: string)  // a JSON document that does not parse; carries the text shown to the user
    | MissingPackMeta            // no root json document: the source's `unwrap` panics here
    | SerializeError             // the JSON serializer refused a value

  datatype Result<+T> = Ok(value: T) | Err(error: Error)
}
