/** Optional values and results with an error, usable with `:-`. */
module Wrappers {

  /** An optional value; `None` stands for Java's `null` and for an empty `Optional`. */
  datatype Option<+T> = None | Some(value: T) {
    predicate IsFailure() { None? }

    function PropagateFailure<U>(): Option<U>
      requires None?
    {
      None
    }

    function Extract(): T
      requires Some?
    {
      value
    }
  }

  /** The value computed, or the exception that aborted the computation. */
  datatype Result<+R, +E> = Success(value: R) | Failure(error: E) {
    predicate IsFailure() { Failure? }

    function PropagateFailure<U>(): Result<U, E>
      requires Failure?
    {
      Failure(error)
    }

    function Extract(): R
      requires Success?
    {
      value
    }
  }
}

/** The Java exceptions that abort serialising a command or translating a request. */
module Exceptions {

  datatype Failure =
      /** IllegalArgumentException from a regex replacement string: `$` not followed by a group
          number, a named group, or a trailing lone backslash. */
    | IllegalGroupReference
      /** IndexOutOfBoundsException from `$n` naming a group the pattern does not have. */
    | NoSuchGroup
      /** StringIndexOutOfBoundsException from `String.substring`. */
    | StringIndexOutOfBounds
      /** ArrayIndexOutOfBoundsException from indexing past the end of a `split` result. */
    | ArrayIndexOutOfBounds
      /** NullPointerException: serialising a command whose url was never set. */
    | NullUrl
      /** IllegalArgumentException: the original URI is needed but the request is no wrapper. */
    | UnsupportedRequestClass
      /** The original URI cannot be parsed or has no host (IllegalArgumentException or
          NullPointerException). */
    | NoHost
      /** NoSuchElementException: an entity is present but there is no `Content-Type` header. */
    | MissingContentType
      /** IOException while reading the entity. */
    | EntityReadFailed
      /** The reflective access to the multipart parts failed: the entity has no such fields. */
    | NotMultipartEntity
      /** RuntimeException: a part has no `Content-Disposition` field. */
    | MissingContentDisposition
      /** IllegalStateException from `Collectors.toMap`: a disposition key occurs twice. */
    | DuplicateDispositionKey
      /** RuntimeException: the disposition has no `form-data` key. */
    | UnsupportedDisposition
      /** NoSuchElementException: the disposition has no entries at all, so the message of the
          "unsupported type" exception cannot be built. */
    | EmptyDisposition
      /** NullPointerException: the disposition has no `name` key. */
    | MissingPartName
      /** NullPointerException: the part has no `Content-Type` field. */
    | MissingPartContentType
      /** RuntimeException wrapping the IOException of reading a part. */
    | PartReadFailed
      /** IllegalArgumentException from `new ByteArrayOutputStream(-1)`: the part's content
          length is unknown. */
    | UnknownPartLength
      /** IllegalArgumentException from the Base64 decoder. */
    | InvalidBase64
      /** IllegalStateException: more than one `Cookie` header. */
    | MultipleCookieHeaders
}
