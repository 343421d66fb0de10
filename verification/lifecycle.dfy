/** Gateway.Close and Gateway.Wait (pkg/server/gateway.go), with the
    listener's shutdown, the engine's close errors and the error channel
    given as values. */
module Lifecycle {
  import opened Results
  import opened Errors

  /** A returned error that counts: present and not context.Canceled. */
  predicate Counts(e: Option<Error>)
  {
    e.Some? && e.value != Canceled
  }

  /** The loop over the engine's close errors: the first that counts. */
  function FirstCounting(errs: seq<Option<Error>>): (r: Option<Error>)
    ensures r.None? <==> forall i :: 0 <= i < |errs| ==> !Counts(errs[i])
    ensures r.Some? ==> Counts(r) && exists k :: 0 <= k < |errs| && errs[k] == r && Before(errs, k)
  {
    if errs == [] then None
    else if Counts(errs[0]) then
      assert Before(errs, 0);
      errs[0]
    else
      var r := FirstCounting(errs[1..]);
      assert forall j :: 1 <= j < |errs| ==> errs[1..][j - 1] == errs[j];
      if r.Some? then
        var k :| 0 <= k < |errs[1..]| && errs[1..][k] == r && Before(errs[1..], k);
        assert errs[k + 1] == r && Before(errs, k + 1);
        r
      else r
  }

  /** No error before index k counts. */
  predicate Before(errs: seq<Option<Error>>, k: nat)
    requires k <= |errs|
  {
    forall j :: 0 <= j < k ==> !Counts(errs[j])
  }

  /** What Close did: whether it closed the engine, and what it returned. */
  datatype Closing = Closing(engineClosed: bool, result: Option<Error>)

  /** Gateway.Close: `shutdown` is what shutting the listener down returned
      and `engineErrs` what closing the engine returns. */
  function Close(shutdown: Option<Error>, engineErrs: seq<Option<Error>>): (c: Closing)
    ensures Counts(shutdown) ==> c == Closing(false, shutdown)
    ensures !Counts(shutdown) ==> c.engineClosed
    ensures !Counts(shutdown) ==> (c.result.None? <==> forall i :: 0 <= i < |engineErrs| ==> !Counts(engineErrs[i]))
    ensures !Counts(shutdown) && c.result.Some? ==>
      exists k :: 0 <= k < |engineErrs| && engineErrs[k] == c.result && Before(engineErrs, k)
    ensures c.result.Some? ==> c.result.value != Canceled
  {
    if Counts(shutdown) then Closing(false, shutdown)
    else Closing(true, FirstCounting(engineErrs))
  }

  /** The values received from the error channel, and whether it was then
      closed. */
  datatype Channel = Channel(values: seq<Option<Error>>, closed: bool)

  datatype Waiting = Returned(err: Option<Error>) | Blocked

  /** Gateway.Wait over a finite channel history: the first non-nil value,
      nil once the channel is closed, and still blocked otherwise. */
  function Wait(ch: Channel): (w: Waiting)
    ensures w == Returned(None) <==> ch.closed && forall i :: 0 <= i < |ch.values| ==> ch.values[i].None?
    ensures w == Blocked <==> !ch.closed && forall i :: 0 <= i < |ch.values| ==> ch.values[i].None?
    ensures w.Returned? && w.err.Some? ==>
      exists k :: 0 <= k < |ch.values| && ch.values[k] == w.err && forall j :: 0 <= j < k ==> ch.values[j].None?
    decreases |ch.values|
  {
    if ch.values == [] then
      if ch.closed then Returned(None) else Blocked
    else if ch.values[0].Some? then
      Returned(ch.values[0])
    else
      var w := Wait(Channel(ch.values[1..], ch.closed));
      assert forall j :: 1 <= j < |ch.values| ==> ch.values[1..][j - 1] == ch.values[j];
      if w.Returned? && w.err.Some? then
        var k :| 0 <= k < |ch.values[1..]| && ch.values[1..][k] == w.err && forall j :: 0 <= j < k ==> ch.values[1..][j].None?;
        assert ch.values[k + 1] == w.err;
        w
      else w
  }

  /** The listener goroutine: what it leaves on the channel after
      ListenAndServe returns `served`. A clean shutdown closes the channel,
      any other error is sent on it. */
  function Listener(served: Option<Error>): (ch: Channel)
    ensures ch.closed <==> served == Some(ServerClosed)
    ensures ch.values == (if served.Some? && served.value != ServerClosed then [served] else [])
  {
    if served.None? then Channel([], false)
    else if served.value == ServerClosed then Channel([], true)
    else Channel([served], false)
  }

  /** Wait returns nil after a shutdown, and the listener's error otherwise. */
  lemma WaitAfterListener(served: Option<Error>)
    ensures served == Some(ServerClosed) ==> Wait(Listener(served)) == Returned(None)
    ensures served.Some? && served.value != ServerClosed ==> Wait(Listener(served)) == Returned(served)
    ensures served.None? ==> Wait(Listener(served)) == Blocked
  {
  }
}
