/**
 * The request rate limiter: a request count per client id and one window start
 * shared by every client. The clock is an input (`now`, in milliseconds).
 */
module RateLimiter {

  /** One minute, in milliseconds. */
  const WindowSize: int := 60 * 1000
  const MaxRequests: int := 5

  datatype Window = Window(counts: map<string, int>, windowStart: int)

  datatype Reply = Reply(next: Window, limited: bool)

  /** A client with no entry has made no request. */
  function Count(counts: map<string, int>, ip: string): (r: int)
    ensures ip !in counts ==> r == 0
    ensures Bounded(counts) ==> 0 <= r <= MaxRequests
  {
    if ip in counts then counts[ip] else 0
  }

  /** No client's count is negative or above the limit. */
  predicate Bounded(counts: map<string, int>) {
    forall ip :: ip in counts ==> 0 <= counts[ip] <= MaxRequests
  }

  /** A window has passed since the window start (strictly more than its size). */
  predicate IsNewWindow(w: Window, now: int) {
    now - w.windowStart > WindowSize
  }

  /**
   * One call for ip at time now, as written: a new window resets only the caller's
   * count; the caller is limited when its count has reached the maximum, otherwise
   * its count goes up by one.
   */
  function Step(w: Window, ip: string, now: int): (r: Reply)
    ensures r.next.windowStart == if IsNewWindow(w, now) then now else w.windowStart
    ensures r.limited <==> !IsNewWindow(w, now) && Count(w.counts, ip) >= MaxRequests
    ensures r.limited ==> r.next.counts == w.counts
    ensures !r.limited ==> Count(r.next.counts, ip) == (if IsNewWindow(w, now) then 0 else Count(w.counts, ip)) + 1
    ensures r.next.counts - {ip} == w.counts - {ip}
    ensures Bounded(w.counts) ==> Bounded(r.next.counts)
  {
    var counts := if IsNewWindow(w, now) then w.counts[ip := 0] else w.counts;
    var start := if IsNewWindow(w, now) then now else w.windowStart;
    var current := Count(counts, ip);
    if current >= MaxRequests then Reply(Window(counts, start), true)
    else Reply(Window(counts[ip := current + 1], start), false)
  }

  /** A sequence of calls, each a client id and the time of the call. */
  datatype Call = Call(ip: string, now: int)

  function Run(w: Window, calls: seq<Call>): (r: Window)
    decreases |calls|
  {
    if |calls| == 0 then w else Run(Step(w, calls[0].ip, calls[0].now).next, calls[1..])
  }

  /** How many of the calls by ip are let through. */
  function Accepted(w: Window, calls: seq<Call>, ip: string): (n: nat)
    decreases |calls|
  {
    if |calls| == 0 then 0
    else
      var r := Step(w, calls[0].ip, calls[0].now);
      (if calls[0].ip == ip && !r.limited then 1 else 0) + Accepted(r.next, calls[1..], ip)
  }

  /** No call opens a new window: every call falls within the window current when it is made. */
  predicate SameWindow(w: Window, calls: seq<Call>)
    decreases |calls|
  {
    |calls| == 0 ||
    (!IsNewWindow(w, calls[0].now) && SameWindow(Step(w, calls[0].ip, calls[0].now).next, calls[1..]))
  }

  /** From bounded counts (an empty map included), no sequence of calls takes any count past the maximum. */
  lemma {:induction false} RunBounded(w: Window, calls: seq<Call>)
    requires Bounded(w.counts)
    ensures Bounded(Run(w, calls).counts)
    decreases |calls|
  {
    if |calls| > 0 {
      RunBounded(Step(w, calls[0].ip, calls[0].now).next, calls[1..]);
    }
  }

  /** Within one window a client is let through at most as often as its count leaves room for. */
  lemma {:induction false} AcceptedWithinWindow(w: Window, calls: seq<Call>, ip: string)
    requires Bounded(w.counts) && SameWindow(w, calls)
    ensures Accepted(w, calls, ip) <= MaxRequests - Count(w.counts, ip)
    decreases |calls|
  {
    if |calls| > 0 {
      var r := Step(w, calls[0].ip, calls[0].now);
      AcceptedWithinWindow(r.next, calls[1..], ip);
      if calls[0].ip != ip {
        assert Count(r.next.counts, ip) == Count(w.counts, ip) by {
          assert ip in r.next.counts - {calls[0].ip} <==> ip in w.counts - {calls[0].ip};
        }
      }
    }
  }

  /**
   * As written, a new window forgets only the caller: a client that used up its
   * requests in the last window is still limited in the new one, although it has
   * made no request since the new window began.
   */
  lemma StaleCountAfterNewWindow()
    ensures var w := Window(map["b" := MaxRequests], 0);
            var afterA := Step(w, "a", WindowSize + 1);
            && IsNewWindow(w, WindowSize + 1)
            && afterA.next.windowStart == WindowSize + 1
            && Step(afterA.next, "b", WindowSize + 2).limited
  {
  }

  /** The evident intent: a new window starts every client from zero. */
  function StepPerWindow(w: Window, ip: string, now: int): (r: Reply)
    ensures r.next.windowStart == if IsNewWindow(w, now) then now else w.windowStart
    ensures IsNewWindow(w, now) ==> r.next.counts == map[ip := 1] && !r.limited
    ensures !IsNewWindow(w, now) ==> r == Step(w, ip, now)
    ensures Bounded(w.counts) ==> Bounded(r.next.counts)
  {
    if IsNewWindow(w, now) then Reply(Window(map[ip := 1], now), false)
    else Step(w, ip, now)
  }

  /** With windows that forget every client, the client of the example above is let through. */
  lemma PerWindowForgetsEveryClient()
    ensures var w := Window(map["b" := MaxRequests], 0);
            var afterA := StepPerWindow(w, "a", WindowSize + 1);
            !StepPerWindow(afterA.next, "b", WindowSize + 2).limited
  {
  }

  /** A sequence of calls under the corrected step. */
  function RunPerWindow(w: Window, calls: seq<Call>): (r: Window)
    decreases |calls|
  {
    if |calls| == 0 then w else RunPerWindow(StepPerWindow(w, calls[0].ip, calls[0].now).next, calls[1..])
  }

  /** How many of the calls by ip the corrected step lets through. */
  function AcceptedPerWindow(w: Window, calls: seq<Call>, ip: string): (n: nat)
    decreases |calls|
  {
    if |calls| == 0 then 0
    else
      var r := StepPerWindow(w, calls[0].ip, calls[0].now);
      (if calls[0].ip == ip && !r.limited then 1 else 0) + AcceptedPerWindow(r.next, calls[1..], ip)
  }

  /** Within one window, a client's count grows by exactly the number of its calls let through. */
  lemma {:induction false} CountWithinWindow(w: Window, calls: seq<Call>, ip: string)
    requires SameWindow(w, calls)
    ensures Count(Run(w, calls).counts, ip) == Count(w.counts, ip) + Accepted(w, calls, ip)
    decreases |calls|
  {
    if |calls| > 0 {
      var r := Step(w, calls[0].ip, calls[0].now);
      CountWithinWindow(r.next, calls[1..], ip);
      if calls[0].ip != ip {
        assert Count(r.next.counts, ip) == Count(w.counts, ip) by {
          assert ip in r.next.counts - {calls[0].ip} <==> ip in w.counts - {calls[0].ip};
        }
      }
    }
  }

  /** Within one window the corrected step and the step as written agree on every call. */
  lemma {:induction false} PerWindowAgreesWithinWindow(w: Window, calls: seq<Call>, ip: string)
    requires SameWindow(w, calls)
    ensures RunPerWindow(w, calls) == Run(w, calls)
    ensures AcceptedPerWindow(w, calls, ip) == Accepted(w, calls, ip)
    decreases |calls|
  {
    if |calls| > 0 {
      PerWindowAgreesWithinWindow(Step(w, calls[0].ip, calls[0].now).next, calls[1..], ip);
    }
  }

  /**
   * With per-window reset, once a call opens a window and the calls after it stay in
   * that window, every client's count is the number of its calls let through since
   * the window opened.
   */
  lemma PerWindowCountsCallsSinceWindowOpened(w: Window, calls: seq<Call>, ip: string)
    requires |calls| > 0 && IsNewWindow(w, calls[0].now)
    requires SameWindow(StepPerWindow(w, calls[0].ip, calls[0].now).next, calls[1..])
    ensures Count(RunPerWindow(w, calls).counts, ip) == AcceptedPerWindow(w, calls, ip)
  {
    var first := StepPerWindow(w, calls[0].ip, calls[0].now);
    PerWindowAgreesWithinWindow(first.next, calls[1..], ip);
    CountWithinWindow(first.next, calls[1..], ip);
  }

  /**
   * With per-window reset, a client none of whose calls was let through since the
   * current window opened is let through on its next call, whenever it comes.
   */
  lemma PerWindowLetsIdleClientThrough(w: Window, calls: seq<Call>, ip: string, now: int)
    requires |calls| > 0 && IsNewWindow(w, calls[0].now)
    requires SameWindow(StepPerWindow(w, calls[0].ip, calls[0].now).next, calls[1..])
    requires AcceptedPerWindow(w, calls, ip) == 0
    ensures !StepPerWindow(RunPerWindow(w, calls), ip, now).limited
  {
    PerWindowCountsCallsSinceWindowOpened(w, calls, ip);
  }

  /**
   * The limiter's state: module-level in the source, a single object here. The
   * constructor is the module's initialisation at time now.
   */
  class Limiter {
    var idToRequestCount: map<string, int>
    var windowStart: int

    function State(): (w: Window)
      reads this
    {
      Window(idToRequestCount, windowStart)
    }

    ghost predicate Valid()
      reads this
    {
      Bounded(idToRequestCount)
    }

    constructor (now: int)
      ensures Valid() && idToRequestCount == map[] && windowStart == now
    {
      idToRequestCount := map[];
      windowStart := now;
    }

    /** Counts one request from ip at time now; the answer is whether it is refused. */
    method RateLimit(ip: string, now: int) returns (limited: bool)
      requires Valid()
      modifies this
      ensures Valid()
      ensures Reply(State(), limited) == Step(old(State()), ip, now)
    {
      var isNewWindow := now - windowStart > WindowSize;
      if isNewWindow {
        windowStart := now;
        idToRequestCount := idToRequestCount[ip := 0];
      }
      var currentRequestCount := if ip in idToRequestCount then idToRequestCount[ip] else 0;
      if currentRequestCount >= MaxRequests {
        return true;
      }
      idToRequestCount := idToRequestCount[ip := currentRequestCount + 1];
      return false;
    }
  }
}
