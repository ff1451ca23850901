/**
 The shutdown channel (`globalCloser`) as far as the agent uses it: it is
 only ever closed, and `main` waits for it to be closed. Closing a channel
 that is already closed is a run-time panic in Go; `FireOnce` is the
 closing operation the agent evidently intends, which closes at most once.
 */
module Closer {
  import opened Wrappers

  /** Whether the shutdown channel has been closed. */
  datatype Closer = Closer(closed: bool)

  /** The run-time panic `close` raises on a closed channel. */
  datatype Panic = CloseOfClosedChannel

  /** A channel that has not been closed yet. */
  const Open: Closer := Closer(false)

  /** Go's `close(ch)`: closes an open channel, panics on a closed one. */
  function Close(c: Closer): (r: Result<Closer, Panic>)
    ensures r.Failure? <==> c.closed
    ensures r.Success? ==> r.value.closed
  {
    if c.closed then Failure(CloseOfClosedChannel) else Success(Closer(true))
  }

  /** Closing guarded by a once-flag: the channel ends up closed whatever its state was. */
  function FireOnce(c: Closer): (r: Closer)
    ensures r.closed
  {
    Closer(true)
  }

  /** Firing a fired channel changes nothing, so any number of callers may fire it. */
  lemma FireOnceIdempotent(c: Closer)
    ensures FireOnce(FireOnce(c)) == FireOnce(c)
    ensures c.closed ==> FireOnce(c) == c
  {
  }

  /** On an open channel the guarded close is Go's close; only on a closed one do they part. */
  lemma FireOnceAgrees(c: Closer)
    ensures Close(c).Success? ==> Close(c).value == FireOnce(c)
    ensures Close(c).Failure? ==> FireOnce(c) == c
  {
  }
}
