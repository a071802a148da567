/** Go's (value, error) results and the error values the modelled code returns. */
module Results {

  datatype Result<+T> = Ok(value: T) | Err(error: Error)

  datatype Error =
    | NotFound
    | DestinationExists
    | SameNames
    | UniqueConstraint
    | IoFailure
    | NoSuchBucket
    | NoSuchKey
    | NoSuchUpload
    | InvalidPart
    | InvalidPartOrder
    | InvalidArgument
    | InvalidRange
    | EntityTooLarge
    | Forbidden
    | TooManyObjects
    | MissingContentLength
    | EmptySignedHeader
    | DuplicateSignedHeader
    | MissingSignedHeader

  datatype Option<+T> = None | Some(value: T)
}
