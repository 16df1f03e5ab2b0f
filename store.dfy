/**
 * The store interface the daemon calls (pulsedb.h:20-23) and a recorder of
 * those calls. The recorder stands for the store as the daemon sees it: each
 * call succeeds or fails, and nothing else about the store is visible.
 */
module Store {
  import opened PulseTypes

  /** One call of a store operation, with its timestamp arguments. */
  datatype Call =
    | PulseOn(start: Timeval)
    | PulseOff(start: Timeval, stop: Timeval)
    | PulseOnOff(start: Timeval, stop: Timeval)
    | PulseCancel(start: Timeval)

  /** A call together with the boolean the store returned. */
  datatype Attempt = Attempt(call: Call, ok: bool)

  /** n refused attempts of c. */
  function Refused(c: Call, n: nat): (r: seq<Attempt>)
    ensures |r| == n && forall k :: 0 <= k < n ==> r[k] == Attempt(c, false)
  {
    if n == 0 then [] else Refused(c, n - 1) + [Attempt(c, false)]
  }

  /** n refused attempts of c followed by one accepted attempt. */
  function Retried(c: Call, n: nat): (r: seq<Attempt>)
    ensures |r| == n + 1 && r[n] == Attempt(c, true)
    ensures forall k :: 0 <= k < n ==> r[k] == Attempt(c, false)
  {
    Refused(c, n) + [Attempt(c, true)]
  }

  /** The length of the next outage: how many attempts are refused before the next success. */
  function NextOutage(outages: seq<nat>): nat
  {
    if outages == [] then 0 else outages[0]
  }

  /** The outages left once the next one has passed. */
  function RestOutages(outages: seq<nat>): seq<nat>
  {
    if outages == [] then [] else outages[1..]
  }

  class Recorder {
    /** Every call made so far, in order, with the store's reply. */
    var attempts: seq<Attempt>
    /**
     * The outages ahead: the store refuses outages[0] attempts, accepts the
     * next one, then refuses outages[1] attempts, and so on; once the list
     * is used up it accepts every call.
     */
    var outages: seq<nat>

    constructor (outages: seq<nat>)
      ensures attempts == [] && this.outages == outages
    {
      attempts := [];
      this.outages := outages;
    }

    /** Makes one call and returns the store's reply. */
    method Submit(c: Call) returns (ok: bool)
      modifies this
      ensures ok == (NextOutage(old(outages)) == 0)
      ensures attempts == old(attempts) + [Attempt(c, ok)]
      ensures ok ==> outages == RestOutages(old(outages))
      ensures !ok ==> outages == [old(outages)[0] - 1] + old(outages)[1..]
    {
      ok := NextOutage(outages) == 0;
      attempts := attempts + [Attempt(c, ok)];
      if ok {
        if outages != [] {
          outages := outages[1..];
        }
      } else {
        outages := [outages[0] - 1] + outages[1..];
      }
    }
  }
}
