/** Values shared by the eligibility filter, the target resolver and the dispatcher. */
module Common {

  datatype Option<+T> = None | Some(value: T)

  datatype Result<+T, +E> = Ok(value: T) | Err(error: E)

  /** A byte of a blob's content. */
  newtype byte = x: int | 0 <= x < 256

  type Bytes = seq<byte>

  /** The exceptions an invocation can raise. Their message text is not modelled. */
  datatype Fault =
    | InputError(url: string)          // the event's URL does not name a blob
    | AccountError(message: string)    // the storage connection string does not parse
    | RenderError(message: string)     // the document library rejects the content
    | StorageError(message: string)    // the storage service refuses the upload
}
