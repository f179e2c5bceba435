/** What travels between the remote store and the backend: a status code and,
    when the response carries one, a body of the expected shape. */
module Http {
  import opened Nullish

  /** `body` is `Absent` when `response.json()` would fail: no content (a 204)
      or text that does not parse. The remote store never reads the body of a
      non-2xx reply, so the backend's error replies carry `Absent` as well. A
      parsed body is typed with the shape the backend's response model fixes. */
  datatype Reply<B> = Reply(status: int, body: Maybe<B>)

  /** What `fetch` settles to: a rejected promise, or a reply. */
  datatype Outcome<B> = NetworkError | Received(reply: Reply<B>)

  const StatusOk: int := 200
  const StatusCreated: int := 201
  const StatusNoContent: int := 204
  const StatusNotFound: int := 404
  const StatusServerError: int := 500

  /** `response.ok`: the status is in the 2xx range. */
  predicate IsOk(status: int)
  {
    200 <= status <= 299
  }

  /** The body the remote store goes on with: present only when the request
      reached the server, the status is 2xx and the body parsed. */
  function OkBody<B>(out: Outcome<B>): (r: Maybe<B>)
    ensures r.Present? <==> out.Received? && IsOk(out.reply.status) && out.reply.body.Present?
    ensures r.Present? ==> r == out.reply.body
  {
    match out
    case NetworkError => Absent
    case Received(reply) => if IsOk(reply.status) then reply.body else Absent
  }
}
