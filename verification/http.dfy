/** What an HTTP handler does to its response, and what reaches the client.

    A handler's response is the sequence of its writes: status headers and
    bodies. Go's net/http keeps the first one (a later WriteHeader is
    ignored as superfluous); a body written first implies status 200, or for
    a served file whatever status byte-range handling picks. A panic that
    escapes a handler is recovered by net/http itself, which closes the
    connection without sending the buffered response. */
module Http {
  import opened Results
  import opened Errors

  const StatusOK := 200
  const StatusNotFound := 404
  const StatusUnprocessableEntity := 422
  const StatusInternalServerError := 500

  datatype Write<+B> = Header(code: int) | Body(body: B)

  /** Everything a handler did: whether it asked the engine to join the
      magnet link, its writes in order, the error it raised (panicked with)
      if any, and whether its own deferred handler recovered that error. */
  datatype Reply<+B> = Reply(
    joinRequested: bool,
    writes: seq<Write<B>>,
    raised: Option<Error>,
    recovered: bool)

  datatype Delivery<+B> = ConnectionClosed | Delivered(first: Write<B>)

  /** What the client receives: nothing when a panic escapes, otherwise
      the first write, or an empty 200 response when nothing was written. */
  function Deliver<B>(r: Reply<B>): (d: Delivery<B>)
    ensures d == ConnectionClosed <==> r.raised.Some? && !r.recovered
    ensures d.Delivered? && r.writes != [] ==> d.first == r.writes[0]
  {
    if r.raised.Some? && !r.recovered then ConnectionClosed
    else if r.writes == [] then Delivered(Header(StatusOK))
    else Delivered(r.writes[0])
  }

  /** First write wins: once something is written, later writes (such as a
      deferred 500) change nothing the client receives. */
  lemma FirstWriteWins<B>(r: Reply<B>, later: seq<Write<B>>)
    requires r.writes != []
    ensures Deliver(r.(writes := r.writes + later)) == Deliver(r)
  {
    assert (r.writes + later)[0] == r.writes[0];
  }
}
