/**
 * The parts of the Fetch API that the caching policy looks at. Responses are
 * immutable values, so the `clone()` a cache write needs is the identity here.
 */
module Http {

  /** The `type` attribute of a response. */
  datatype ResponseType = Basic | Cors | Default | Error | Opaque | OpaqueRedirect

  type Byte = b: int | 0 <= b < 256

  datatype Response = Response(status: int, rtype: ResponseType, body: seq<Byte>)

  /**
   * An intercepted request. `url` is the key a cache entry is stored under;
   * `hostname` is the host of that URL, taken as already parsed; `destination` is
   * the Fetch API's request destination ("document" for a top-level navigation).
   */
  datatype Request = Request(url: string, hostname: string, destination: string)

  /** What one network `fetch` settles to: a response (of any status) or a rejection. */
  datatype NetOutcome = Ok(response: Response) | Fail
}
