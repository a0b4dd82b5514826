/** Waiting for a data reply with exponential backoff (peer/impl/dataSharing.go, waitForReplyMsg). */
module Backoff {
  import opened Basics
  import opened Geometric

  const LIMIT: int := 0x8000_0000_0000_0000

  /** The value a signed 64-bit integer keeps of x. */
  function Wrap(x: int): int
  {
    (x + LIMIT) % (2 * LIMIT) - LIMIT
  }

  lemma WrapFits(x: int)
    ensures -LIMIT <= Wrap(x) < LIMIT
    ensures Wrap(x) == x <==> -LIMIT <= x < LIMIT
  {
  }

  /** What ends one wait: a reply, the notice that the node stops, or the timer. */
  datatype Event = Reply | Stopped | Timeout(unicastOk: bool)

  datatype Outcome = Got | NodeStopped | NoReply | UnicastFailed

  /** The k-th wait of a schedule of signed 64-bit durations. */
  function WaitAt(initial: int, factor: int, k: nat): int
  {
    if k == 0 then initial else Wrap(WaitAt(initial, factor, k - 1) * factor)
  }

  /** How the events, one per wait, end the loop. */
  predicate EndsWith(events: seq<Event>, retry: nat, waits: nat, resends: nat, outcome: Outcome)
  {
    && 0 < waits <= |events| && waits <= retry + 1
    && (forall k :: 0 <= k < waits - 1 ==> events[k] == Timeout(true))
    && match outcome {
         case Got => events[waits - 1] == Reply && resends == waits - 1
         case NodeStopped => events[waits - 1] == Stopped && resends == waits - 1
         case NoReply => events[waits - 1].Timeout? && waits == retry + 1 && resends == retry
         case UnicastFailed => events[waits - 1] == Timeout(false) && resends == waits - 1 < retry
       }
  }

  /**
   * The loop: wait, and on a timeout resend unless already done `retry` times. `events` says how each
   * wait ends; the loop never needs more than retry + 1 of them.
   */
  method WaitForReplyMsg(initial: int, factor: int, retry: nat, events: seq<Event>)
    returns (waits: seq<int>, numResend: nat, outcome: Outcome)
    requires |events| > retry
    ensures EndsWith(events, retry, |waits|, numResend, outcome)
    ensures forall k :: 0 <= k < |waits| ==> waits[k] == WaitAt(initial, factor, k)
    ensures numResend <= retry
  {
    waits, numResend := [], 0;
    var waitTime := initial;
    while true
      invariant |waits| == numResend <= retry && waitTime == WaitAt(initial, factor, numResend)
      invariant forall k :: 0 <= k < |waits| ==> waits[k] == WaitAt(initial, factor, k) && events[k] == Timeout(true)
      decreases retry - numResend
    {
      waits := waits + [waitTime];
      match events[|waits| - 1] {
        case Reply => return waits, numResend, Got;
        case Stopped => return waits, numResend, NodeStopped;
        case Timeout(unicastOk) =>
          if numResend >= retry {
            return waits, numResend, NoReply;
          }
          if !unicastOk {
            return waits, numResend, UnicastFailed;
          }
          waitTime := Wrap(waitTime * factor);
          numResend := numResend + 1;
      }
    }
  }

  lemma NextWait(initial: nat, factor: nat, k: nat, wait: int)
    requires k > 0 && wait == WaitAt(initial, factor, k - 1) == initial * Pow(factor, k - 1)
    requires initial * Pow(factor, k) < LIMIT
    ensures WaitAt(initial, factor, k) == initial * Pow(factor, k)
  {
    TermStep(initial, factor, k - 1);
    WrapFits(wait * factor);
  }

  /** While the products fit, the waits are the exact powers. */
  lemma {:induction false} ExactWait(initial: nat, factor: nat, k: nat)
    requires forall j :: 0 <= j <= k ==> initial * Pow(factor, j) < LIMIT
    ensures WaitAt(initial, factor, k) == initial * Pow(factor, k)
  {
    if k == 0 {
      assert Pow(factor, 0) == 1;
    } else {
      ExactWait(initial, factor, k - 1);
      NextWait(initial, factor, k, initial * Pow(factor, k - 1));
    }
  }

  /** A later term that does not fit is not what the wait is. */
  lemma WaitFits(initial: nat, factor: nat, k: nat)
    requires initial < LIMIT
    ensures WaitAt(initial, factor, k) < LIMIT
  {
    if k > 0 {
      WrapFits(WaitAt(initial, factor, k - 1) * factor);
    }
  }

  /**
   * The schedule of a full run of retries is exactly initial * factor^k at every wait if and only if
   * the last of these products fits a signed 64-bit integer.
   */
  lemma ScheduleExact(initial: nat, factor: nat, retry: nat)
    requires initial < LIMIT
    ensures (forall k :: 0 <= k <= retry ==> WaitAt(initial, factor, k) == initial * Pow(factor, k))
            <==> initial * Pow(factor, retry) < LIMIT
  {
    if initial * Pow(factor, retry) < LIMIT {
      forall k: nat | k <= retry
        ensures WaitAt(initial, factor, k) == initial * Pow(factor, k)
      {
        forall j: nat | j <= k
          ensures initial * Pow(factor, j) < LIMIT
        {
          TermsBounded(initial, factor, j, retry);
        }
        ExactWait(initial, factor, k);
      }
    } else {
      WaitFits(initial, factor, retry);
    }
  }

  /** The time waited in n waits of a schedule that fits, with its closed form. */
  lemma {:induction false} TotalWait(initial: nat, factor: nat, waits: seq<int>)
    requires forall k :: 0 <= k < |waits| ==> waits[k] == initial * Pow(factor, k)
    ensures Total(waits) == GeomSum(initial, factor, |waits|)
    ensures (factor - 1) * Total(waits) == initial * Pow(factor, |waits|) - initial
  {
    if waits != [] {
      TotalWait(initial, factor, waits[..|waits| - 1]);
    }
    GeomClosed(initial, factor, |waits|);
  }
}
