/** What the model sees of an HTTP exchange with the blob store or an internal route. */
module Http {

  /** The outcome of an awaited `fetch`: it threw (network error), or an answer with a status code. */
  datatype FetchResult = Threw | Answered(status: nat)

  /** `response.ok`: the status is in the 2xx range. */
  predicate IsOk(status: nat)
  {
    200 <= status <= 299
  }

  predicate Succeeded(f: FetchResult)
  {
    f.Answered? && IsOk(f.status)
  }

  /** A request sent to the blob store (Bunny storage or the CDN), by full URL. */
  datatype BlobCall = Get(url: string) | Put(url: string) | Delete(url: string)

  /** A route's reply together with the blob-store requests it issued, in the order issued. */
  datatype Handled<R> = Handled(reply: R, calls: seq<BlobCall>)
}
