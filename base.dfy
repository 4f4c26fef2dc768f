/** Shared vocabulary of the stream model: bytes, optional values and the
    status codes every operation of h2_stream.c returns. */
module Base {

  newtype byte = x: int | 0 <= x < 256

  datatype Option<+T> = None | Some(value: T)

  /** The apr_status_t values the stream operations produce.
      - ENoMem: h2_bucket_alloc could not provide a work bucket.
      - EGeneral: a protocol violation in the header sequence.
      - ENameTooLong: the request-frame encoder's output does not fit the bucket.
      - QueueFailed: the connection's input queue refused an entry (its
        status codes are not part of this model, so they are one value here).
      - NullDeref: the code hands the emptied work slot to a bucket or
        encoder routine; in the source that is a null-pointer dereference,
        here the operation stops and reports it. */
  datatype Status = Success | ENoMem | EGeneral | ENameTooLong | QueueFailed | NullDeref

  /** The header/body separator written by end_headers. */
  const CRLF: seq<byte> := [13, 10]
}
