/** The poller of the recipient's page: two seconds, then five, until two minutes have passed. */
module Poller {
  import opened Base

  const FAST_INTERVAL_MS: nat := 2000
  const SLOW_INTERVAL_MS: nat := 5000
  const SWITCH_TO_SLOW_AFTER_MS: nat := 30000
  const GIVE_UP_AFTER_MS: nat := 120000

  // The throttler lets this many GETs on one token through in the two minutes the poller runs.
  const DL_TOKEN_LIMIT: nat := 60

  function Interval(elapsed: nat): nat {
    if elapsed < SWITCH_TO_SLOW_AFTER_MS then FAST_INTERVAL_MS else SLOW_INTERVAL_MS
  }

  /** Callbacks still possible from a tick at this time, if no timer is ever late. */
  function Budget(elapsed: nat): nat {
    if elapsed >= GIVE_UP_AFTER_MS then 0
    else if elapsed >= SWITCH_TO_SLOW_AFTER_MS then CeilDiv(GIVE_UP_AFTER_MS - elapsed, SLOW_INTERVAL_MS)
    else
      CeilDiv(SWITCH_TO_SLOW_AFTER_MS - elapsed, FAST_INTERVAL_MS)
      + CeilDiv(GIVE_UP_AFTER_MS - SWITCH_TO_SLOW_AFTER_MS, SLOW_INTERVAL_MS)
  }

  /** Each turn of the loop, however late its timer, spends at least one of them, also across the switch. */
  lemma TickSpendsBudget(elapsed: nat, late: nat)
    requires elapsed < GIVE_UP_AFTER_MS
    ensures Budget(elapsed + Interval(elapsed) + late) < Budget(elapsed)
  {}

  /** Without lateness exactly one is spent before the switch and after it. */
  lemma PunctualTickSpendsOne(elapsed: nat)
    requires elapsed < GIVE_UP_AFTER_MS
    requires elapsed < SWITCH_TO_SLOW_AFTER_MS ==> elapsed % FAST_INTERVAL_MS == 0
    ensures Budget(elapsed + Interval(elapsed)) == Budget(elapsed) - 1
  {}

  class Poll {
    var now: int
    var callbacks: nat
    var timedOut: bool
    var cancelled: bool
    // Requests the page has made: the first load, then one a callback.
    var requests: nat

    constructor (now: int)
      ensures this.now == now && callbacks == 0 && !timedOut && !cancelled && requests == 1
    {
      this.now, callbacks, timedOut, cancelled, requests := now, 0, false, false, 1;
    }

    /** The timer: it fires after its interval or later, unless the page goes away or stops polling first. */
    method SetTimeout(interval: nat, punctual: bool)
      modifies this`now, this`cancelled
      ensures now >= old(now) + interval || cancelled
      ensures punctual ==> now == old(now) + interval && cancelled == old(cancelled)
      ensures now >= old(now)
    {
      var late: nat, leaves: bool := *, *;
      now := now + interval + if punctual then 0 else late;
      cancelled := cancelled || (leaves && !punctual);
    }

    /** The chain of ticks. It always ends; it calls back at most 33 times whatever the lateness of each timer, never
        after cancellation, and exactly 33 times when no timer is late. */
    method Run(punctual: bool)
      requires callbacks == 0 && requests == 1 && !cancelled && !timedOut
      modifies this
      ensures callbacks <= 33
      ensures requests == 1 + callbacks <= 34 <= DL_TOKEN_LIMIT
      ensures timedOut <==> !cancelled
      ensures timedOut ==> now - old(now) >= GIVE_UP_AFTER_MS
      ensures punctual ==> timedOut && callbacks == 33 && now - old(now) == GIVE_UP_AFTER_MS
    {
      var start := now;
      while true
        invariant now >= start && !cancelled && !timedOut
        invariant requests == 1 + callbacks
        invariant callbacks + Budget(now - start) <= 33
        invariant punctual ==>
                    && callbacks + Budget(now - start) == 33 && now - start <= GIVE_UP_AFTER_MS
                    && (now - start < SWITCH_TO_SLOW_AFTER_MS ==> (now - start) % FAST_INTERVAL_MS == 0)
                    && (now - start >= SWITCH_TO_SLOW_AFTER_MS ==> (now - start) % SLOW_INTERVAL_MS == 0)
        decreases Budget(now - start)
      {
        var elapsed := now - start;
        if elapsed >= GIVE_UP_AFTER_MS {
          timedOut := true;
          return;
        }
        SetTimeout(Interval(elapsed), punctual);
        if cancelled {
          return;
        }
        TickSpendsBudget(elapsed, now - start - elapsed - Interval(elapsed));
        if punctual {
          PunctualTickSpendsOne(elapsed);
        }
        callbacks := callbacks + 1;
        requests := requests + 1;
      }
    }
  }
}
