/** What the launcher sees of HTTP: a request either raises or yields a
    response, and the world answers the same URL the same way during one run. */
module Http {
  import opened Common
  import opened Dicts
  import opened JsonValue

  /** A response as `requests` exposes it: the status code, the headers, the
      body as text (`res.text`), what `res.json()` gives (an `Err` is the
      decode error it raises), and the body as `iter_content` delivers it,
      chunk by chunk, followed by the error the stream raised, if any. */
  datatype Response = Response(
    status: int,
    headers: Dict<string>,
    text: string,
    json: Result<Json>,
    chunks: seq<seq<byte>>,
    streamError: Option<string>)

  /** The outcome of one request: a response, or the text of the exception
      (timeout, refused connection, bad URL, ...) that `requests` raised. */
  datatype Reply = Replied(response: Response) | Raised(reason: string)

  /** The server side, fixed for one run: `requests.get` and `requests.head`. */
  datatype Network = Network(get: string -> Reply, head: string -> Reply)

  /** `res.headers.get(name)` for the lower-case spelling `lname` of a header
      name: header names compare case-insensitively, and the first matching
      header wins. */
  function HeaderValue(headers: Dict<string>, lname: string): (r: Option<string>)
    ensures r.None? <==> forall i :: 0 <= i < |headers| ==> Lower(headers[i].0) != lname
    ensures r.Some? ==>
      exists i :: 0 <= i < |headers| && Lower(headers[i].0) == lname && headers[i].1 == r.value
  {
    if headers == [] then None
    else if Lower(headers[0].0) == lname then Some(headers[0].1)
    else
      var r := HeaderValue(headers[1..], lname);
      assert forall i :: 0 <= i < |headers| - 1 ==> headers[1..][i] == headers[i + 1];
      r
  }

  /** `res.text[:200]`. */
  function TextHead(res: Response): (t: string)
    ensures |t| <= 200 && t <= res.text
    ensures |res.text| <= 200 ==> t == res.text
  {
    if |res.text| <= 200 then res.text else res.text[..200]
  }
}
