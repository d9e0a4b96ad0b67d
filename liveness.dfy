/** The liveness status shown for a station, decided against the render time `now`. */
module Liveness {
  import opened Wrappers

  datatype Status = Offline | Stale | Invalid | Ok

  /** `STALE_AFTER_SECONDS`. */
  const StaleAfterSeconds: int := 30

  /**
   * `_status_for`: no message yet is OFFLINE; then silence longer than
   * `staleAfter` is STALE, whatever the last reading's validity; then an
   * invalid last reading is INVALID; otherwise OK.
   */
  function StatusFor(recvAt: Option<int>, valid: bool, now: int, staleAfter: int): (s: Status)
    ensures s == Offline <==> recvAt.None?
    ensures s == Stale <==> recvAt.Some? && now - recvAt.value > staleAfter
    ensures s == Invalid <==> recvAt.Some? && now - recvAt.value <= staleAfter && !valid
    ensures s == Ok <==> recvAt.Some? && now - recvAt.value <= staleAfter && valid
  {
    match recvAt
    case None => Offline
    case Some(last) =>
      if now - last > staleAfter then Stale
      else if !valid then Invalid
      else Ok
  }

  /** Exactly `staleAfter` seconds of silence is not yet stale; one more second is. */
  lemma StaleBoundary(last: int, valid: bool, staleAfter: int)
    ensures StatusFor(Some(last), valid, last + staleAfter, staleAfter) != Stale
    ensures StatusFor(Some(last), valid, last + staleAfter + 1, staleAfter) == Stale
  {
  }
}
