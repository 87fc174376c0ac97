// The request quota of LeanTee/Control.lean: a fixed-window rate limit and an in-flight counter.

module Quotas {
  import opened Wrappers

  const WINDOW_MS: nat := 1000

  datatype Limits = Limits(maxRps: Option<nat>, maxInflight: Option<nat>)

  datatype Quota = Quota(windowStart: nat, count: nat, inflight: nat)

  datatype QuotaError = MaxInflight | MaxRps

  /** `checkQuota` as a function of the state and the clock; `now - start` is the truncated difference of naturals. */
  function CheckQuota(l: Limits, q: Quota, now: nat): (Quota, Option<QuotaError>) {
    if l.maxInflight.Some? && q.inflight >= l.maxInflight.value then (q, Some(MaxInflight))
    else if l.maxRps.None? then (q, None)
    else
      var elapsed := if now >= q.windowStart then now - q.windowStart else 0;
      var q' := if elapsed >= WINDOW_MS then q.(windowStart := now, count := 0) else q;
      (q', if q'.count >= l.maxRps.value then Some(MaxRps) else None)
  }

  /** When a request is refused, and what the check does to the window: a second or more after its start a new window opens,
      with nothing counted in it; a limit is reached when the number is at or over it. */
  lemma CheckOutcome(l: Limits, q: Quota, now: nat)
    ensures
      var (q', error) := CheckQuota(l, q, now);
      var full := l.maxInflight.Some? && l.maxInflight.value <= q.inflight;
      var opens := !full && l.maxRps.Some? && now >= q.windowStart + 1000;
      (error == Some(MaxInflight) <==> full) &&
      (error == Some(MaxRps) <==> !full && l.maxRps.Some? && l.maxRps.value <= if opens then 0 else q.count) &&
      q' == if opens then Quota(now, 0, q.inflight) else q
  {
  }

  function BeginRequest(q: Quota): Quota {
    q.(inflight := q.inflight + 1, count := q.count + 1)
  }

  function EndRequest(q: Quota): Quota {
    q.(inflight := if q.inflight == 0 then 0 else q.inflight - 1)
  }

  const FRESH: Quota := Quota(0, 0, 0)

  /** `QuotaState`: three cells updated in place. */
  class QuotaState {
    var windowStartMs: nat
    var countInWindow: nat
    var inflight: nat

    ghost function View(): Quota
      reads this
    {
      Quota(windowStartMs, countInWindow, inflight)
    }

    constructor ()
      ensures View() == FRESH
    {
      windowStartMs, countInWindow, inflight := 0, 0, 0;
    }

    method Check(l: Limits, now: nat) returns (error: Option<QuotaError>)
      modifies this
      ensures (View(), error) == CheckQuota(l, old(View()), now)
    {
      if l.maxInflight.Some? {
        if inflight >= l.maxInflight.value {
          return Some(MaxInflight);
        }
      }
      if l.maxRps.None? {
        return None;
      }
      if now >= windowStartMs && now - windowStartMs >= WINDOW_MS {
        windowStartMs := now;
        countInWindow := 0;
      }
      if countInWindow >= l.maxRps.value {
        return Some(MaxRps);
      }
      return None;
    }

    method Begin()
      modifies this
      ensures View() == BeginRequest(old(View()))
    {
      inflight := inflight + 1;
      countInWindow := countInWindow + 1;
    }

    method End()
      modifies this
      ensures View() == EndRequest(old(View()))
    {
      inflight := if inflight == 0 then 0 else inflight - 1;
    }
  }

  // ---------- The rate limit over whole runs ----------

  /** A request checked and, if allowed, begun in one step; or the end of a request. */
  datatype Event = Request(now: nat) | Finish

  /** The quota after some events, and the times of the requests that were admitted. */
  datatype Trace = Trace(q: Quota, admitted: seq<nat>)

  function StepEvent(l: Limits, t: Trace, e: Event): Trace {
    match e
    case Finish => t.(q := EndRequest(t.q))
    case Request(now) =>
      var (q, error) := CheckQuota(l, t.q, now);
      if error.Some? then t.(q := q) else Trace(BeginRequest(q), t.admitted + [now])
  }

  function RunEvents(l: Limits, t: Trace, es: seq<Event>): Trace
    decreases es
  {
    if es == [] then t else RunEvents(l, StepEvent(l, t, es[0]), es[1..])
  }

  /** The clock never runs backwards. */
  predicate Monotone(es: seq<Event>, clock: nat) {
    es == [] ||
    match es[0]
    case Finish => Monotone(es[1..], clock)
    case Request(now) => clock <= now && Monotone(es[1..], now)
  }

  /** How many of the times lie in the half-open second that starts at `from`. */
  function InSecond(times: seq<nat>, from: nat): nat {
    if times == [] then 0
    else InSecond(times[..|times| - 1], from) + (if from <= times[|times| - 1] < from + WINDOW_MS then 1 else 0)
  }

  /** How many of the times are less than a second before `start`. */
  function Recent(times: seq<nat>, start: nat): nat {
    if times == [] then 0
    else Recent(times[..|times| - 1], start) + (if times[|times| - 1] + WINDOW_MS > start then 1 else 0)
  }

  /** The number of admissions that earlier windows may contribute to a second of the current window.  A window that a
      request opened holds that request at its very start, more than a second before the next window's end. */
  function Carried(late: bool, limit: nat): nat {
    if late && limit > 0 then limit - 1 else limit
  }

  /** Admissions by window: `old` in earlier windows, `cur` in the current one, which began at `start` and takes at most
      `cap`; `late` says that the clock started at a second or more, so that the initial window is never used. */
  ghost predicate Windows(
      cap: nat, late: bool, start: nat, admitted: seq<nat>, old_: seq<nat>, cur: seq<nat>, clock: nat)
  {
    && admitted == old_ + cur
    && |cur| <= cap
    && start <= clock
    && (forall k :: 0 <= k < |old_| ==> old_[k] <= start)
    && (forall k :: 0 <= k < |cur| ==> start <= cur[k] <= clock)
    && Recent(old_, start) <= Carried(late, cap)
    && (late && cap > 0 ==> if cur == [] then old_ == [] && start == 0 else cur[0] == start)
    && (forall from :: InSecond(admitted, from) <= cap + Carried(late, cap))
  }

  lemma {:induction false} RecentNone(times: seq<nat>, start: nat)
    requires forall k :: 0 <= k < |times| ==> times[k] + WINDOW_MS <= start
    ensures Recent(times, start) == 0
  {
    if times != [] {
      RecentNone(times[..|times| - 1], start);
    }
  }

  lemma {:induction false} RecentAtMost(times: seq<nat>, start: nat)
    ensures Recent(times, start) <= |times|
  {
    if times != [] {
      RecentAtMost(times[..|times| - 1], start);
    }
  }

  lemma {:induction false} RecentSkipsFirst(times: seq<nat>, start: nat)
    requires times != [] && times[0] + WINDOW_MS <= start
    ensures Recent(times, start) <= |times| - 1
  {
    if |times| > 1 {
      RecentSkipsFirst(times[..|times| - 1], start);
    }
  }

  lemma {:induction false} RecentAppend(a: seq<nat>, b: seq<nat>, start: nat)
    ensures Recent(a + b, start) == Recent(a, start) + Recent(b, start)
  {
    if b == [] {
      assert a + b == a;
    } else {
      assert (a + b)[..|a + b| - 1] == a + b[..|b| - 1];
      RecentAppend(a, b[..|b| - 1], start);
    }
  }

  lemma {:induction false} InSecondIsRecent(times: seq<nat>, from: nat, start: nat)
    requires start < from + WINDOW_MS
    ensures InSecond(times, from) <= Recent(times, start)
  {
    if times != [] {
      InSecondIsRecent(times[..|times| - 1], from, start);
    }
  }

  lemma {:induction false} InSecondAppend(a: seq<nat>, b: seq<nat>, from: nat)
    ensures InSecond(a + b, from) == InSecond(a, from) + InSecond(b, from)
  {
    if b == [] {
      assert a + b == a;
    } else {
      assert (a + b)[..|a + b| - 1] == a + b[..|b| - 1];
      InSecondAppend(a, b[..|b| - 1], from);
    }
  }

  lemma {:induction false} InSecondAtMost(times: seq<nat>, from: nat)
    ensures InSecond(times, from) <= |times|
  {
    if times != [] {
      InSecondAtMost(times[..|times| - 1], from);
    }
  }

  /** Opening a new window: what the old one carries into it. */
  lemma OpenWindow(
      cap: nat, late: bool, start: nat, admitted: seq<nat>, old_: seq<nat>, cur: seq<nat>, clock: nat, now: nat)
    requires Windows(cap, late, start, admitted, old_, cur, clock)
    requires clock <= now && now - start >= WINDOW_MS
    ensures Recent(old_ + cur, now) <= Carried(late, cap)
    ensures forall k :: 0 <= k < |old_ + cur| ==> (old_ + cur)[k] <= now
  {
    hide InSecond, Recent;
    RecentAppend(old_, cur, now);
    RecentNone(old_, now);
    RecentAtMost(cur, now);
    if late && cap > 0 && cur != [] {
      RecentSkipsFirst(cur, now);
    }
  }

  /** One more admission counts in a second that does not overflow. */
  lemma OneInSecond(cap: nat, late: bool, start: nat, old_: seq<nat>, cur: seq<nat>, now: nat, from: nat)
    requires |cur| < cap && start <= now && Recent(old_, start) <= Carried(late, cap)
    requires InSecond(old_ + cur, from) <= cap + Carried(late, cap)
    ensures InSecond(old_ + cur + [now], from) <= cap + Carried(late, cap)
  {
    hide Recent;
    InSecondAppend(old_ + cur, [now], from);
    assert InSecond([now][..0], from) == 0;
    if from <= now < from + WINDOW_MS {
      hide InSecond;
      InSecondAppend(old_, cur, from);
      InSecondAtMost(cur, from);
      InSecondIsRecent(old_, from, start);
    }
  }

  /** Admitting one more request in the current window. */
  lemma AdmitHere(
      cap: nat, late: bool, start: nat, admitted: seq<nat>, old_: seq<nat>, cur: seq<nat>, clock: nat, now: nat)
    requires Windows(cap, late, start, admitted, old_, cur, clock)
    requires clock <= now && now - start < WINDOW_MS && |cur| < cap && (late ==> now >= WINDOW_MS)
    ensures Windows(cap, late, start, admitted + [now], old_, cur + [now], now)
  {
    hide InSecond, Recent, Carried;
    assert admitted + [now] == old_ + (cur + [now]);
    forall from: nat
      ensures InSecond(admitted + [now], from) <= cap + Carried(late, cap)
    {
      OneInSecond(cap, late, start, old_, cur, now, from);
    }
  }

  /** Admitting the request that opens a window. */
  lemma AdmitNext(
      cap: nat, late: bool, start: nat, admitted: seq<nat>, old_: seq<nat>, cur: seq<nat>, clock: nat, now: nat)
    requires Windows(cap, late, start, admitted, old_, cur, clock)
    requires clock <= now && now - start >= WINDOW_MS && cap > 0
    ensures Windows(cap, late, now, admitted + [now], admitted, [now], now)
  {
    hide InSecond, Recent, Carried;
    OpenWindow(cap, late, start, admitted, old_, cur, clock, now);
    forall from: nat
      ensures InSecond(admitted + [now], from) <= cap + Carried(late, cap)
    {
      assert admitted + [] == admitted;
      OneInSecond(cap, late, now, admitted, [], now, from);
    }
  }

  /** A window that is opened and takes nothing. */
  lemma OpenOnly(
      cap: nat, late: bool, start: nat, admitted: seq<nat>, old_: seq<nat>, cur: seq<nat>, clock: nat, now: nat)
    requires Windows(cap, late, start, admitted, old_, cur, clock)
    requires clock <= now && now - start >= WINDOW_MS && !(late && cap > 0)
    ensures Windows(cap, late, now, admitted, admitted, [], now)
  {
    hide InSecond, Recent, Carried;
    OpenWindow(cap, late, start, admitted, old_, cur, clock, now);
    assert admitted + [] == admitted;
  }

  lemma NoWindows(cap: nat, late: bool)
    ensures Windows(cap, late, 0, [], [], [], 0)
  {
  }

  ghost predicate RateInv(limit: nat, late: bool, t: Trace, old_: seq<nat>, cur: seq<nat>, clock: nat) {
    Windows(limit, late, t.q.windowStart, t.admitted, old_, cur, clock) && |cur| == t.q.count
  }

  lemma LaterClock(
      cap: nat, late: bool, start: nat, admitted: seq<nat>, old_: seq<nat>, cur: seq<nat>, clock: nat, now: nat)
    requires Windows(cap, late, start, admitted, old_, cur, clock) && clock <= now
    ensures Windows(cap, late, start, admitted, old_, cur, now)
  {
    hide InSecond, Recent, Carried;
  }

  /** One event keeps the invariant. */
  lemma StepKeepsRate(
      l: Limits, late: bool, t: Trace, old_: seq<nat>, cur: seq<nat>, clock: nat, e: Event)
    returns (old': seq<nat>, cur': seq<nat>, clock': nat)
    requires l.maxRps.Some?
    requires RateInv(l.maxRps.value, late, t, old_, cur, clock)
    requires e.Request? ==> clock <= e.now && (late ==> e.now >= WINDOW_MS)
    ensures RateInv(l.maxRps.value, late, StepEvent(l, t, e), old', cur', clock')
    ensures clock' == if e.Request? then e.now else clock
  {
    var limit, start := l.maxRps.value, t.q.windowStart;
    assert start <= clock && |cur| <= limit;
    hide Windows;
    old', cur', clock' := old_, cur, clock;
    if e.Request? {
      var now := e.now;
      clock' := now;
      LaterClock(limit, late, start, t.admitted, old_, cur, clock, now);
      if !(l.maxInflight.Some? && t.q.inflight >= l.maxInflight.value) {
        if now - start >= WINDOW_MS && limit > 0 {
          AdmitNext(limit, late, start, t.admitted, old_, cur, clock, now);
          old', cur' := t.admitted, [now];
        } else if now - start >= WINDOW_MS {
          OpenOnly(limit, late, start, t.admitted, old_, cur, clock, now);
          old', cur' := t.admitted, [];
        } else if |cur| < limit {
          AdmitHere(limit, late, start, t.admitted, old_, cur, clock, now);
          cur' := cur + [now];
        }
      }
    }
  }

  predicate AllLate(es: seq<Event>) {
    forall k :: 0 <= k < |es| ==> es[k].Request? ==> es[k].now >= WINDOW_MS
  }

  lemma {:induction false} RunKeepsRate(
      l: Limits, late: bool, t: Trace, old_: seq<nat>, cur: seq<nat>, clock: nat, es: seq<Event>, from: nat)
    requires l.maxRps.Some?
    requires RateInv(l.maxRps.value, late, t, old_, cur, clock)
    requires Monotone(es, clock) && (late ==> AllLate(es))
    ensures InSecond(RunEvents(l, t, es).admitted, from) <= l.maxRps.value + Carried(late, l.maxRps.value)
    decreases es
  {
    hide InSecond, Recent, Carried, StepEvent;
    if es != [] {
      hide RateInv;
      var old', cur', clock' := StepKeepsRate(l, late, t, old_, cur, clock, es[0]);
      RunKeepsRate(l, late, StepEvent(l, t, es[0]), old', cur', clock', es[1..], from);
    }
  }

  /** With a limit of L requests a second, no half-open second of any run admits more than 2·L; and no more than 2·L - 1
      once the clock shows a second or more when the server starts. */
  lemma RateBound(l: Limits, es: seq<Event>, from: nat)
    requires l.maxRps.Some? && Monotone(es, 0)
    ensures
      var n := InSecond(RunEvents(l, Trace(FRESH, []), es).admitted, from);
      var limit := l.maxRps.value;
      n <= 2 * limit && (AllLate(es) && limit > 0 ==> n <= 2 * limit - 1)
  {
    var t := Trace(FRESH, []);
    RunKeepsRate(l, false, t, [], [], 0, es, from);
    if AllLate(es) {
      RunKeepsRate(l, true, t, [], [], 0, es, from);
    }
  }

  // ---------- The bounds are reached ----------

  function Times(now: nat, n: nat): seq<nat> {
    if n == 0 then [] else Times(now, n - 1) + [now]
  }

  function Burst(now: nat, n: nat): seq<Event> {
    if n == 0 then [] else [Request(now)] + Burst(now, n - 1)
  }

  lemma {:induction false} RunAppend(l: Limits, t: Trace, a: seq<Event>, b: seq<Event>)
    ensures RunEvents(l, t, a + b) == RunEvents(l, RunEvents(l, t, a), b)
    decreases a
  {
    hide StepEvent;
    if a == [] {
      assert a + b == b;
    } else {
      assert (a + b)[1..] == a[1..] + b;
      RunAppend(l, StepEvent(l, t, a[0]), a[1..], b);
    }
  }

  /** A burst inside the current window is admitted in full while there is room. */
  lemma {:induction false} BurstAdmitted(l: Limits, t: Trace, now: nat, n: nat)
    requires l.maxRps.Some? && l.maxInflight.None?
    requires t.q.windowStart <= now < t.q.windowStart + WINDOW_MS && t.q.count + n <= l.maxRps.value
    ensures RunEvents(l, t, Burst(now, n)) ==
            Trace(Quota(t.q.windowStart, t.q.count + n, t.q.inflight + n), t.admitted + Times(now, n))
    decreases n
  {
    hide Times;
    if n == 0 {
      assert t.admitted + Times(now, 0) == t.admitted by {
        NoTimes(now);
      }
    } else {
      var u := StepEvent(l, t, Request(now));
      assert u == Trace(Quota(t.q.windowStart, t.q.count + 1, t.q.inflight + 1), t.admitted + [now]);
      BurstAdmitted(l, u, now, n - 1);
      assert Burst(now, n)[1..] == Burst(now, n - 1);
      AppendTimes(t.admitted, now, n);
    }
  }

  lemma {:induction false} TimesCons(now: nat, n: nat)
    requires n > 0
    ensures Times(now, n) == [now] + Times(now, n - 1)
  {
    if n > 1 {
      TimesCons(now, n - 1);
    }
  }

  lemma NoTimes(now: nat)
    ensures Times(now, 0) == []
  {
  }

  lemma AppendTimes(a: seq<nat>, now: nat, n: nat)
    requires n > 0
    ensures a + [now] + Times(now, n - 1) == a + Times(now, n)
  {
    hide Times;
    TimesCons(now, n);
  }

  /** A burst that opens a new window. */
  lemma BurstOpens(l: Limits, t: Trace, now: nat, n: nat)
    requires l.maxRps.Some? && l.maxInflight.None? && 0 < n <= l.maxRps.value
    requires now >= t.q.windowStart + WINDOW_MS
    ensures RunEvents(l, t, Burst(now, n)) == Trace(Quota(now, n, t.q.inflight + n), t.admitted + Times(now, n))
  {
    hide Times;
    var u := StepEvent(l, t, Request(now));
    assert u == Trace(Quota(now, 1, t.q.inflight + 1), t.admitted + [now]);
    assert Burst(now, n)[1..] == Burst(now, n - 1);
    BurstAdmitted(l, u, now, n - 1);
    AppendTimes(t.admitted, now, n);
  }

  lemma {:induction false} CountTimes(now: nat, n: nat, from: nat)
    ensures InSecond(Times(now, n), from) == if from <= now < from + WINDOW_MS then n else 0
  {
    if n != 0 {
      CountTimes(now, n - 1, from);
      assert Times(now, n)[..|Times(now, n)| - 1] == Times(now, n - 1);
    }
  }

  lemma {:induction false} BurstMonotone(now: nat, n: nat, rest: seq<Event>, clock: nat)
    requires clock <= now && Monotone(rest, now)
    ensures Monotone(Burst(now, n) + rest, clock)
    decreases n
  {
    if n == 0 {
      assert Burst(now, 0) + rest == rest;
      MonotoneEarlier(rest, now, clock);
    } else {
      BurstMonotone(now, n - 1, rest, now);
      assert (Burst(now, n) + rest)[1..] == Burst(now, n - 1) + rest;
    }
  }

  lemma {:induction false} MonotoneEarlier(es: seq<Event>, clock: nat, earlier: nat)
    requires Monotone(es, clock) && earlier <= clock
    ensures Monotone(es, earlier)
    decreases es
  {
    if es != [] && es[0].Finish? {
      MonotoneEarlier(es[1..], clock, earlier);
    }
  }

  /** For every limit L > 0 some run admits 2·L requests within one second: a limit per rolling second is not kept. */
  lemma RateBoundReached(limit: nat)
    requires limit > 0
    ensures
      var es := Burst(999, limit) + Burst(1000, limit);
      Monotone(es, 0) &&
      InSecond(RunEvents(Limits(Some(limit), None), Trace(FRESH, []), es).admitted, 999) == 2 * limit
  {
    hide InSecond, Times, RunEvents, Monotone, Burst;
    var l, t := Limits(Some(limit), None), Trace(FRESH, []);
    RunAppend(l, t, Burst(999, limit), Burst(1000, limit));
    BurstAdmitted(l, t, 999, limit);
    assert [] + Times(999, limit) == Times(999, limit);
    BurstOpens(l, Trace(Quota(0, limit, limit), Times(999, limit)), 1000, limit);
    InSecondAppend(Times(999, limit), Times(1000, limit), 999);
    CountTimes(999, limit, 999);
    CountTimes(1000, limit, 999);
    OneBurstMonotone(1000, limit, 999);
    BurstMonotone(999, limit, Burst(1000, limit), 0);
  }

  /** So is the smaller bound for a clock that starts at a second or more. */
  lemma LateRateBoundReached(limit: nat)
    requires limit > 0
    ensures
      var es := Burst(1000, 1) + (Burst(1999, limit - 1) + Burst(2000, limit));
      Monotone(es, 0) && AllLate(es) &&
      InSecond(RunEvents(Limits(Some(limit), None), Trace(FRESH, []), es).admitted, 1001) == 2 * limit - 1
  {
    hide InSecond, Times, RunEvents, Monotone, Burst, AllLate;
    var l, t := Limits(Some(limit), None), Trace(FRESH, []);
    var a, b, c := Burst(1000, 1), Burst(1999, limit - 1), Burst(2000, limit);
    RunAppend(l, t, a, b + c);
    BurstOpens(l, t, 1000, 1);
    var u := Trace(Quota(1000, 1, 1), Times(1000, 1));
    assert [] + Times(1000, 1) == Times(1000, 1);
    RunAppend(l, u, b, c);
    BurstAdmitted(l, u, 1999, limit - 1);
    var v := Trace(Quota(1000, limit, limit), Times(1000, 1) + Times(1999, limit - 1));
    BurstOpens(l, v, 2000, limit);
    InSecondAppend(v.admitted, Times(2000, limit), 1001);
    InSecondAppend(Times(1000, 1), Times(1999, limit - 1), 1001);
    CountTimes(1000, 1, 1001);
    CountTimes(1999, limit - 1, 1001);
    CountTimes(2000, limit, 1001);
    OneBurstMonotone(2000, limit, 1999);
    BurstMonotone(1999, limit - 1, c, 1000);
    BurstMonotone(1000, 1, b + c, 0);
    BurstLate(1000, 1);
    BurstLate(1999, limit - 1);
    BurstLate(2000, limit);
    LateAppend(b, c);
    LateAppend(a, b + c);
  }

  lemma {:induction false} BurstLate(now: nat, n: nat)
    requires now >= WINDOW_MS
    ensures AllLate(Burst(now, n))
  {
    if n > 0 {
      BurstLate(now, n - 1);
    }
  }

  lemma LateAppend(a: seq<Event>, b: seq<Event>)
    requires AllLate(a) && AllLate(b)
    ensures AllLate(a + b)
  {
  }

  lemma OneBurstMonotone(now: nat, n: nat, clock: nat)
    requires clock <= now
    ensures Monotone(Burst(now, n), clock)
  {
    BurstMonotone(now, n, [], clock);
    assert Burst(now, n) + [] == Burst(now, n);
  }

  // ---------- Requests in flight, in every interleaving ----------

  /** Handlers that have passed the check but not yet begun, and handlers that have begun and not yet ended. */
  datatype Flight = Flight(q: Quota, pending: set<nat>, active: set<nat>)

  datatype Move = Checked(id: nat, now: nat) | Begun(id: nat) | Ended(id: nat)

  /** One move of one handler.  The check and the begin are separate accesses to the cells, so other handlers may move in
      between.  A handler ends once, whether it succeeds or fails. */
  ghost predicate Moves(l: Limits, s: Flight, m: Move, s': Flight) {
    match m
    case Checked(id, now) =>
      var (q, error) := CheckQuota(l, s.q, now);
      id !in s.pending && id !in s.active &&
      s' == s.(q := q, pending := if error.None? then s.pending + {id} else s.pending)
    case Begun(id) =>
      id in s.pending && s' == Flight(BeginRequest(s.q), s.pending - {id}, s.active + {id})
    case Ended(id) =>
      id in s.active && s' == s.(q := EndRequest(s.q), active := s.active - {id})
  }

  /** A run: the states before and after each move. */
  ghost predicate IsRun(l: Limits, ss: seq<Flight>, ms: seq<Move>) {
    && |ss| == |ms| + 1
    && ss[0] == Flight(FRESH, {}, {})
    && forall k :: 0 <= k < |ms| ==> Moves(l, ss[k], ms[k], ss[k + 1])
  }

  ghost predicate Conserved(s: Flight) {
    s.q.inflight == |s.active| && s.pending !! s.active
  }

  lemma MoveConserves(l: Limits, s: Flight, m: Move, s': Flight)
    requires Conserved(s) && Moves(l, s, m, s')
    ensures Conserved(s')
    ensures m.Ended? ==> s.q.inflight > 0
  {
  }

  /** In every interleaving the counter is the number of requests begun and not ended, so the saturating decrement never
      saturates. */
  lemma {:induction false} InflightConserved(l: Limits, ss: seq<Flight>, ms: seq<Move>, k: nat)
    requires IsRun(l, ss, ms) && k < |ss|
    ensures Conserved(ss[k])
    ensures k < |ms| && ms[k].Ended? ==> ss[k].q.inflight > 0
  {
    hide Conserved, Moves;
    if k == 0 {
      assert Conserved(ss[0]) by { FreshConserved(); }
    } else {
      InflightConserved(l, ss, ms, k - 1);
      MoveConserves(l, ss[k - 1], ms[k - 1], ss[k]);
    }
    if k < |ms| {
      MoveConserves(l, ss[k], ms[k], ss[k + 1]);
    }
  }

  lemma FreshConserved()
    ensures Conserved(Flight(FRESH, {}, {}))
  {
  }

  /** At most `width` handlers are between their check and their begin at any time; 1 means that the two are one step. */
  ghost predicate Width(ss: seq<Flight>, width: nat) {
    forall k :: 0 <= k < |ss| ==> |ss[k].pending| <= width
  }

  lemma MoveBounded(l: Limits, s: Flight, m: Move, s': Flight, width: nat)
    requires l.maxInflight.Some? && Conserved(s) && Moves(l, s, m, s')
    requires width > 0 && |s'.pending| <= width
    requires s.q.inflight + |s.pending| < l.maxInflight.value + width
    ensures s'.q.inflight + |s'.pending| < l.maxInflight.value + width
  {
  }

  /** With at most `width` handlers between check and begin, fewer than max_inflight + width requests are in flight; in
      particular the limit itself holds when check and begin are one step. */
  lemma {:induction false} InflightBounded(l: Limits, ss: seq<Flight>, ms: seq<Move>, width: nat, k: nat)
    requires l.maxInflight.Some? && width > 0
    requires IsRun(l, ss, ms) && Width(ss, width) && k < |ss|
    ensures |ss[k].active| + |ss[k].pending| < l.maxInflight.value + width
  {
    hide Conserved, Moves;
    InflightConserved(l, ss, ms, k);
    assert Conserved(ss[k]) ==> ss[k].q.inflight == |ss[k].active| by { ConservedMeans(ss[k]); }
    if k > 0 {
      InflightBounded(l, ss, ms, width, k - 1);
      InflightConserved(l, ss, ms, k - 1);
      ConservedMeans(ss[k - 1]);
      MoveBounded(l, ss[k - 1], ms[k - 1], ss[k], width);
    }
  }

  lemma ConservedMeans(s: Flight)
    ensures Conserved(s) ==> s.q.inflight == |s.active|
  {
  }

  // ---------- The rate limit when checks and begins interleave ----------

  /** The times of the checks passed in the first `k` moves; every one of them leads to one Execute. */
  function Passed(ss: seq<Flight>, ms: seq<Move>, k: nat): seq<nat>
    requires k <= |ms| && |ss| == |ms| + 1
    decreases k
  {
    if k == 0 then []
    else
      Passed(ss, ms, k - 1) +
      (if ms[k - 1].Checked? && ms[k - 1].id in ss[k].pending then [ms[k - 1].now] else [])
  }

  /** The clock never runs backwards. */
  ghost predicate Ordered(ms: seq<Move>) {
    forall i, j :: 0 <= i < j < |ms| && ms[i].Checked? && ms[j].Checked? ==> ms[i].now <= ms[j].now
  }

  ghost predicate AllLateChecks(ms: seq<Move>) {
    forall k :: 0 <= k < |ms| && ms[k].Checked? ==> ms[k].now >= WINDOW_MS
  }

  /** A check that passes comes while the window has room, so that with at most `width` handlers waiting a window takes at
      most limit + width - 1. */
  ghost predicate WideInv(cap: nat, late: bool, s: Flight, passed: seq<nat>, old_: seq<nat>, cur: seq<nat>, clock: nat) {
    Windows(cap, late, s.q.windowStart, passed, old_, cur, clock) && |cur| <= s.q.count + |s.pending|
  }

  lemma MoveKeepsRate(
      l: Limits, width: nat, late: bool, s: Flight, m: Move, s': Flight, passed: seq<nat>, old_: seq<nat>, cur: seq<nat>,
      clock: nat)
    returns (old': seq<nat>, cur': seq<nat>, clock': nat)
    requires l.maxRps.Some? && l.maxRps.value > 0 && width > 0 && Moves(l, s, m, s') && |s'.pending| <= width
    requires WideInv(l.maxRps.value + width - 1, late, s, passed, old_, cur, clock)
    requires m.Checked? ==> clock <= m.now && (late ==> m.now >= WINDOW_MS)
    ensures
      var more := if m.Checked? && m.id in s'.pending then [m.now] else [];
      WideInv(l.maxRps.value + width - 1, late, s', passed + more, old', cur', clock')
    ensures clock' == if m.Checked? then m.now else clock
  {
    var cap, start := l.maxRps.value + width - 1, s.q.windowStart;
    assert start <= clock;
    hide Windows;
    old', cur', clock' := old_, cur, clock;
    assert passed + [] == passed;
    if m.Checked? {
      var now := m.now;
      clock' := now;
      LaterClock(cap, late, start, passed, old_, cur, clock, now);
      if m.id in s'.pending {
        assert s'.pending == s.pending + {m.id} && |s'.pending| == |s.pending| + 1;
        if now - start >= WINDOW_MS {
          AdmitNext(cap, late, start, passed, old_, cur, clock, now);
          old', cur' := passed, [now];
        } else {
          AdmitHere(cap, late, start, passed, old_, cur, clock, now);
          cur' := cur + [now];
        }
      }
    }
  }

  lemma {:induction false} RunKeepsWideRate(
      l: Limits, width: nat, late: bool, ss: seq<Flight>, ms: seq<Move>, k: nat)
    returns (old_: seq<nat>, cur: seq<nat>, clock: nat)
    requires l.maxRps.Some? && l.maxRps.value > 0 && width > 0
    requires IsRun(l, ss, ms) && Width(ss, width) && Ordered(ms) && (late ==> AllLateChecks(ms)) && k <= |ms|
    ensures WideInv(l.maxRps.value + width - 1, late, ss[k], Passed(ss, ms, k), old_, cur, clock)
    ensures forall j :: k <= j < |ms| && ms[j].Checked? ==> clock <= ms[j].now
    decreases k
  {
    hide Moves, WideInv;
    if k == 0 {
      old_, cur, clock := [], [], 0;
      NothingPassed(l.maxRps.value + width - 1, late);
    } else {
      old_, cur, clock := RunKeepsWideRate(l, width, late, ss, ms, k - 1);
      old_, cur, clock := MoveKeepsRate(l, width, late, ss[k - 1], ms[k - 1], ss[k], Passed(ss, ms, k - 1), old_, cur, clock);
    }
  }

  lemma NothingPassed(cap: nat, late: bool)
    ensures WideInv(cap, late, Flight(FRESH, {}, {}), [], [], [], 0)
  {
    NoWindows(cap, late);
  }

  lemma WideInvBounds(cap: nat, late: bool, s: Flight, passed: seq<nat>, old_: seq<nat>, cur: seq<nat>, clock: nat, from: nat)
    requires WideInv(cap, late, s, passed, old_, cur, clock)
    ensures InSecond(passed, from) <= cap + Carried(late, cap)
  {
  }

  lemma {:induction false} ZeroAdmitsNothing(l: Limits, ss: seq<Flight>, ms: seq<Move>, k: nat)
    requires l.maxRps == Some(0) && IsRun(l, ss, ms) && k <= |ms|
    ensures ss[k].pending == {} && Passed(ss, ms, k) == []
    decreases k
  {
    hide Moves;
    if k > 0 {
      ZeroAdmitsNothing(l, ss, ms, k - 1);
      ZeroRefuses(l, ss[k - 1], ms[k - 1], ss[k]);
    }
  }

  lemma ZeroRefuses(l: Limits, s: Flight, m: Move, s': Flight)
    requires l.maxRps == Some(0) && s.pending == {} && Moves(l, s, m, s')
    ensures s'.pending == {}
  {
  }

  /** With a limit of L > 0 and at most w handlers between check and begin, no half-open second of any run admits more than
      2·(L + w - 1), and no more than one less on a clock from a second on.  With w = 1 this is the bound above; with L = 0
      nothing is admitted. */
  lemma WideRateBound(l: Limits, width: nat, ss: seq<Flight>, ms: seq<Move>, k: nat, from: nat)
    requires l.maxRps.Some? && width > 0
    requires IsRun(l, ss, ms) && Width(ss, width) && Ordered(ms) && k <= |ms|
    ensures
      var n, limit := InSecond(Passed(ss, ms, k), from), l.maxRps.value;
      if limit == 0 then n == 0
      else n <= 2 * (limit + width - 1) && (AllLateChecks(ms) ==> n <= 2 * (limit + width - 1) - 1)
  {
    hide IsRun, Width, Ordered, WideInv, AllLateChecks;
    var limit := l.maxRps.value;
    RunNotEmpty(l, ss, ms);
    if limit == 0 {
      ZeroAdmitsNothing(l, ss, ms, k);
    } else {
      var old_, cur, clock := RunKeepsWideRate(l, width, false, ss, ms, k);
      WideInvBounds(limit + width - 1, false, ss[k], Passed(ss, ms, k), old_, cur, clock, from);
      if AllLateChecks(ms) {
        old_, cur, clock := RunKeepsWideRate(l, width, true, ss, ms, k);
        WideInvBounds(limit + width - 1, true, ss[k], Passed(ss, ms, k), old_, cur, clock, from);
      }
    }
  }

  lemma RunNotEmpty(l: Limits, ss: seq<Flight>, ms: seq<Move>)
    ensures IsRun(l, ss, ms) ==> |ss| == |ms| + 1
  {
  }

  // ---------- Both bounds are reached ----------

  function Ids(from: nat, end: nat): (r: set<nat>)
    ensures forall i :: i in r <==> from <= i < end
    ensures |r| == if from < end then end - from else 0
    decreases end
  {
    if from >= end then {} else Ids(from, end - 1) + {end - 1}
  }

  lemma IdsSnoc(from: nat, end: nat)
    requires from <= end
    ensures Ids(from, end + 1) == Ids(from, end) + {end} && end !in Ids(from, end)
  {
  }

  lemma IdsTail(from: nat, end: nat)
    requires from < end
    ensures Ids(from + 1, end) == Ids(from, end) - {from} && from in Ids(from, end)
  {
  }

  /** Handlers 0, 1, ... in order: `active` have begun, the next `waiting` have passed the check. */
  function Queue(start: nat, count: nat, active: nat, waiting: nat): Flight {
    Flight(Quota(start, count, active), Ids(active, active + waiting), Ids(0, active))
  }

  /** A check passes in this state and, at most, opens a window. */
  predicate Room(l: Limits, now: nat, start: nat, count: nat, active: nat, start': nat, count': nat) {
    CheckQuota(l, Quota(start, count, active), now) == (Quota(start', count', active), None)
  }

  lemma RoomBefore(l: Limits, now: nat, start: nat, count: nat, active: nat, c: nat, a: nat)
    requires Room(l, now, start, count, active, start, count) && c <= count && a <= active
    ensures Room(l, now, start, c, a, start, c)
  {
  }

  lemma InflightRoom(l: Limits, count: nat, active: nat)
    requires l.maxRps.None? && l.maxInflight.Some? && active < l.maxInflight.value
    ensures Room(l, 0, 0, count, active, 0, count)
  {
  }

  lemma RateRoom(l: Limits, now: nat, start: nat, count: nat, active: nat)
    requires l.maxRps.Some? && l.maxInflight.None? && count < l.maxRps.value && start <= now < start + WINDOW_MS
    ensures Room(l, now, start, count, active, start, count)
  {
  }

  lemma OpeningRoom(l: Limits, now: nat, start: nat, count: nat, active: nat)
    requires l.maxRps.Some? && l.maxInflight.None? && l.maxRps.value > 0
    requires now - start >= WINDOW_MS || (start <= now && count == 0)
    ensures Room(l, now, start, count, active, if now - start >= WINDOW_MS then now else start, 0)
  {
  }

  lemma QueueCheck(
      l: Limits, now: nat, start: nat, count: nat, active: nat, waiting: nat, start': nat, count': nat)
    requires Room(l, now, start, count, active, start', count')
    ensures Moves(l, Queue(start, count, active, waiting), Checked(active + waiting, now),
                  Queue(start', count', active, waiting + 1))
  {
    hide CheckQuota, Ids;
    IdsSnoc(active, active + waiting);
    Outside(active, active + waiting);
  }

  lemma Outside(active: nat, id: nat)
    requires active <= id
    ensures id !in Ids(0, active)
  {
  }

  lemma BeginOne(l: Limits, s: Flight, id: nat)
    requires id in s.pending
    ensures Moves(l, s, Begun(id), Flight(BeginRequest(s.q), s.pending - {id}, s.active + {id}))
  {
  }

  lemma QueueBegin(l: Limits, start: nat, count: nat, active: nat, waiting: nat)
    requires waiting > 0
    ensures Moves(l, Queue(start, count, active, waiting), Begun(active), Queue(start, count + 1, active + 1, waiting - 1))
  {
    hide Moves, Ids;
    var q := Quota(start, count, active);
    var pending, begun := Ids(active, active + waiting), Ids(0, active);
    IdsTail(active, active + waiting);
    IdsSnoc(0, active);
    BeginOne(l, Flight(q, pending, begun), active);
    assert active + 1 + (waiting - 1) == active + waiting;
    assert Queue(start, count + 1, active + 1, waiting - 1) ==
           Flight(BeginRequest(q), pending - {active}, begun + {active});
  }

  /** A run of at most the given width that ends in a given state, with the checks it passed, none of them later than
      `clock`. */
  ghost predicate RunTo(
      l: Limits, ss: seq<Flight>, ms: seq<Move>, width: nat, last: Flight, passed: seq<nat>, clock: nat)
  {
    |ss| == |ms| + 1 && IsRun(l, ss, ms) && Width(ss, width) && ss[|ms|] == last &&
    Passed(ss, ms, |ms|) == passed && Ordered(ms) &&
    forall k :: 0 <= k < |ms| && ms[k].Checked? ==> ms[k].now <= clock
  }

  lemma OneMove(
      l: Limits, ss: seq<Flight>, ms: seq<Move>, width: nat, last: Flight, passed: seq<nat>, clock: nat, m: Move,
      next: Flight, later: nat)
    requires RunTo(l, ss, ms, width, last, passed, clock) && Moves(l, last, m, next) && |next.pending| <= width
    requires clock <= later && (m.Checked? ==> m.now == later)
    ensures RunTo(l, ss + [next], ms + [m], width, next,
                  passed + (if m.Checked? && m.id in next.pending then [m.now] else []), later)
  {
    hide Moves;
    var ss', ms' := ss + [next], ms + [m];
    forall k | 0 <= k < |ms'|
      ensures Moves(l, ss'[k], ms'[k], ss'[k + 1])
    {
      if k < |ms| {
        assert ss'[k] == ss[k] && ss'[k + 1] == ss[k + 1] && ms'[k] == ms[k];
      }
    }
    PassedPrefix(ss, ms, [next], [m], |ms|);
  }

  lemma {:induction false} PassedPrefix(ss: seq<Flight>, ms: seq<Move>, ts: seq<Flight>, ns: seq<Move>, k: nat)
    requires |ss| == |ms| + 1 && |ts| == |ns| && k <= |ms|
    ensures Passed(ss + ts, ms + ns, k) == Passed(ss, ms, k)
    decreases k
  {
    if k > 0 {
      PassedPrefix(ss, ms, ts, ns, k - 1);
    }
  }

  lemma EmptyQueue(l: Limits, width: nat)
    ensures RunTo(l, [Queue(0, 0, 0, 0)], [], width, Queue(0, 0, 0, 0), [], 0)
  {
    assert Ids(0, 0) == {};
  }

  lemma QueueSize(start: nat, count: nat, active: nat, waiting: nat)
    ensures |Queue(start, count, active, waiting).pending| == waiting
  {
  }

  lemma InQueue(start: nat, count: nat, active: nat, waiting: nat)
    requires waiting > 0
    ensures active + waiting - 1 in Queue(start, count, active, waiting).pending
  {
  }

  /** One more handler passes the check. */
  lemma CheckMove(
      l: Limits, ss: seq<Flight>, ms: seq<Move>, width: nat, passed: seq<nat>, clock: nat, now: nat,
      start: nat, count: nat, active: nat, waiting: nat, start': nat, count': nat)
    returns (ss': seq<Flight>, ms': seq<Move>)
    requires RunTo(l, ss, ms, width, Queue(start, count, active, waiting), passed, clock)
    requires Room(l, now, start, count, active, start', count') && waiting < width && clock <= now
    ensures RunTo(l, ss', ms', width, Queue(start', count', active, waiting + 1), passed + [now], now)
  {
    hide Moves, Queue, RunTo, Room;
    var m, next := Checked(active + waiting, now), Queue(start', count', active, waiting + 1);
    QueueCheck(l, now, start, count, active, waiting, start', count');
    QueueSize(start', count', active, waiting + 1);
    InQueue(start', count', active, waiting + 1);
    OneMove(l, ss, ms, width, Queue(start, count, active, waiting), passed, clock, m, next, now);
    ss', ms' := ss + [next], ms + [m];
  }

  /** One more handler begins. */
  lemma BeginMove(
      l: Limits, ss: seq<Flight>, ms: seq<Move>, width: nat, passed: seq<nat>, clock: nat,
      start: nat, count: nat, active: nat, waiting: nat)
    returns (ss': seq<Flight>, ms': seq<Move>)
    requires RunTo(l, ss, ms, width, Queue(start, count, active, waiting), passed, clock) && 0 < waiting <= width
    ensures RunTo(l, ss', ms', width, Queue(start, count + 1, active + 1, waiting - 1), passed, clock)
  {
    hide Moves, Queue, RunTo;
    var next := Queue(start, count + 1, active + 1, waiting - 1);
    QueueBegin(l, start, count, active, waiting);
    QueueSize(start, count + 1, active + 1, waiting - 1);
    OneMove(l, ss, ms, width, Queue(start, count, active, waiting), passed, clock, Begun(active), next, clock);
    assert passed + [] == passed;
    ss', ms' := ss + [next], ms + [Begun(active)];
  }

  /** Handlers that check and begin one after the other, `n` of them at one time in one window. */
  lemma {:induction false} OneByOne(
      l: Limits, ss: seq<Flight>, ms: seq<Move>, width: nat, passed: seq<nat>, now: nat,
      start: nat, count: nat, active: nat, n: nat)
    returns (ss': seq<Flight>, ms': seq<Move>)
    requires RunTo(l, ss, ms, width, Queue(start, count, active, 0), passed, now) && width > 0
    requires n > 0 ==> Room(l, now, start, count + n - 1, active + n - 1, start, count + n - 1)
    ensures RunTo(l, ss', ms', width, Queue(start, count + n, active + n, 0), passed + Times(now, n), now)
    decreases n
  {
    hide RunTo, Queue, Room;
    if n == 0 {
      assert passed + Times(now, 0) == passed;
      ss', ms' := ss, ms;
    } else {
      var i: nat := n - 1;
      if i > 0 {
        RoomBefore(l, now, start, count + i, active + i, count + i - 1, active + i - 1);
      }
      ss', ms' := OneByOne(l, ss, ms, width, passed, now, start, count, active, i);
      ss', ms' := CheckMove(l, ss', ms', width, passed + Times(now, i), now, now, start, count + i, active + i, 0,
                            start, count + i);
      ss', ms' := BeginMove(l, ss', ms', width, passed + Times(now, i) + [now], now, start, count + i, active + i, 1);
      assert passed + Times(now, i) + [now] == passed + Times(now, n);
      assert count + i + 1 == count + n && active + i + 1 == active + n;
    }
  }

  /** Handlers that all pass the check while there is room for one. */
  lemma {:induction false} AllCheck(
      l: Limits, ss: seq<Flight>, ms: seq<Move>, width: nat, passed: seq<nat>, now: nat,
      start: nat, count: nat, active: nat, waiting: nat, n: nat)
    returns (ss': seq<Flight>, ms': seq<Move>)
    requires RunTo(l, ss, ms, width, Queue(start, count, active, waiting), passed, now) && waiting + n <= width
    requires Room(l, now, start, count, active, start, count)
    ensures RunTo(l, ss', ms', width, Queue(start, count, active, waiting + n), passed + Times(now, n), now)
    decreases n
  {
    hide RunTo, Queue, Room;
    if n == 0 {
      assert passed + Times(now, 0) == passed;
      ss', ms' := ss, ms;
    } else {
      ss', ms' := AllCheck(l, ss, ms, width, passed, now, start, count, active, waiting, n - 1);
      ss', ms' := CheckMove(l, ss', ms', width, passed + Times(now, n - 1), now, now, start, count, active,
                            waiting + (n - 1), start, count);
      assert passed + Times(now, n - 1) + [now] == passed + Times(now, n);
      assert waiting + (n - 1) + 1 == waiting + n;
    }
  }

  /** Then they all begin; no check stands in their way any more. */
  lemma {:induction false} AllBegin(
      l: Limits, ss: seq<Flight>, ms: seq<Move>, width: nat, passed: seq<nat>, clock: nat,
      start: nat, count: nat, active: nat, waiting: nat)
    returns (ss': seq<Flight>, ms': seq<Move>)
    requires RunTo(l, ss, ms, width, Queue(start, count, active, waiting), passed, clock) && waiting <= width
    ensures RunTo(l, ss', ms', width, Queue(start, count + waiting, active + waiting, 0), passed, clock)
    decreases waiting
  {
    hide RunTo, Queue;
    if waiting == 0 {
      ss', ms' := ss, ms;
    } else {
      ss', ms' := BeginMove(l, ss, ms, width, passed, clock, start, count, active, waiting);
      ss', ms' := AllBegin(l, ss', ms', width, passed, clock, start, count + 1, active + 1, waiting - 1);
      assert count + 1 + (waiting - 1) == count + waiting && active + 1 + (waiting - 1) == active + waiting;
    }
  }

  /** The in-flight bound is reached for every limit and every width: some run lets limit + width - 1 requests be in flight.
      So the limit is kept by all runs of a width exactly when that width is one. */
  lemma InflightBoundReached(limit: nat, width: nat) returns (ss: seq<Flight>, ms: seq<Move>)
    requires limit > 0 && width > 0
    ensures IsRun(Limits(None, Some(limit)), ss, ms) && Width(ss, width)
    ensures ss[|ss| - 1].q.inflight == |ss[|ss| - 1].active| == limit + width - 1
  {
    var l := Limits(None, Some(limit));
    var n := limit - 1;
    hide Room, RunTo, Queue, Times, IsRun, Width;
    InflightRoom(l, n, n);
    EmptyQueue(l, width);
    ss, ms := [Queue(0, 0, 0, 0)], [];
    if n > 0 {
      InflightRoom(l, 0 + n - 1, 0 + n - 1);
    }
    ss, ms := OneByOne(l, ss, ms, width, [], 0, 0, 0, 0, n);
    ss, ms := AllCheck(l, ss, ms, width, [] + Times(0, n), 0, 0, 0 + n, 0 + n, 0, width);
    ss, ms := AllBegin(l, ss, ms, width, [] + Times(0, n) + Times(0, width), 0, 0, 0 + n, 0 + n, 0 + width);
    EndOfRun(l, ss, ms, width, 0, 0 + n + (0 + width), 0 + n + (0 + width), [] + Times(0, n) + Times(0, width), 0);
  }

  lemma EndOfRun(
      l: Limits, ss: seq<Flight>, ms: seq<Move>, width: nat, start: nat, count: nat, active: nat, passed: seq<nat>,
      clock: nat)
    requires RunTo(l, ss, ms, width, Queue(start, count, active, 0), passed, clock)
    ensures |ss| == |ms| + 1 && IsRun(l, ss, ms) && Width(ss, width) && Ordered(ms) && Passed(ss, ms, |ms|) == passed
    ensures ss[|ss| - 1].q.inflight == |ss[|ss| - 1].active| == active
  {
  }

  /** What follows the check that opens or begins a window, when that window has one place. */
  lemma FillOne(
      l: Limits, ss: seq<Flight>, ms: seq<Move>, width: nat, passed: seq<nat>, now: nat, begin: nat, active: nat)
    returns (ss': seq<Flight>, ms': seq<Move>)
    requires l.maxRps == Some(1) && l.maxInflight.None? && width > 0 && begin <= now < begin + WINDOW_MS
    requires RunTo(l, ss, ms, width, Queue(begin, 0, active, 1), passed, now)
    ensures RunTo(l, ss', ms', width, Queue(begin, width, active + width, 0), passed + Times(now, width - 1), now)
  {
    hide Room, RunTo, Queue, Times;
    RateRoom(l, now, begin, 0, active);
    ss', ms' := AllCheck(l, ss, ms, width, passed, now, begin, 0, active, 1, width - 1);
    assert 1 + (width - 1) == width && 0 + width == width;
    ss', ms' := AllBegin(l, ss', ms', width, passed + Times(now, width - 1), now, begin, 0, active, width);
  }

  /** The same when it has more. */
  lemma FillMany(
      l: Limits, ss: seq<Flight>, ms: seq<Move>, width: nat, passed: seq<nat>, now: nat, begin: nat, active: nat)
    returns (ss': seq<Flight>, ms': seq<Move>)
    requires l.maxRps.Some? && l.maxRps.value > 1 && l.maxInflight.None? && width > 0 && begin <= now < begin + WINDOW_MS
    requires RunTo(l, ss, ms, width, Queue(begin, 0, active, 1), passed, now)
    ensures
      var cap := l.maxRps.value + width - 1;
      RunTo(l, ss', ms', width, Queue(begin, cap, active + cap, 0), passed + Times(now, cap - 1), now)
  {
    hide Room, RunTo, Queue, Times;
    var n := l.maxRps.value - 2;
    ss', ms' := BeginMove(l, ss, ms, width, passed, now, begin, 0, active, 1);
    if n > 0 {
      RateRoom(l, now, begin, 1 + n - 1, active + 1 + n - 1);
    }
    ss', ms' := OneByOne(l, ss', ms', width, passed, now, begin, 1, active + 1, n);
    RateRoom(l, now, begin, 1 + n, active + 1 + n);
    ss', ms' := AllCheck(l, ss', ms', width, passed + Times(now, n), now, begin, 1 + n, active + 1 + n, 0, width);
    TimesAppend(passed, now, n, width);
    assert 0 + width == width;
    ss', ms' := AllBegin(l, ss', ms', width, passed + Times(now, n + width), now, begin, 1 + n, active + 1 + n, width);
    var cap := l.maxRps.value + width - 1;
    assert 1 + n + width == cap && active + 1 + n + width == active + cap && n + width == cap - 1;
  }

  /** A full window at one time: all but one place are taken one by one, then `width` handlers check and begin together. */
  lemma FullWindow(
      l: Limits, ss: seq<Flight>, ms: seq<Move>, width: nat, passed: seq<nat>, clock: nat, now: nat, start: nat,
      count: nat, active: nat)
    returns (ss': seq<Flight>, ms': seq<Move>)
    requires l.maxRps.Some? && l.maxInflight.None? && l.maxRps.value > 0 && width > 0 && clock <= now
    requires RunTo(l, ss, ms, width, Queue(start, count, active, 0), passed, clock)
    requires now - start >= WINDOW_MS || (start <= now && count == 0)
    ensures
      var cap := l.maxRps.value + width - 1;
      var start' := if now - start >= WINDOW_MS then now else start;
      RunTo(l, ss', ms', width, Queue(start', cap, active + cap, 0), passed + Times(now, cap), now)
  {
    var begin := if now - start >= WINDOW_MS then now else start;
    hide Room, RunTo, Queue, Times;
    OpeningRoom(l, now, start, count, active);
    ss', ms' := CheckMove(l, ss, ms, width, passed, clock, now, start, count, active, 0, begin, 0);
    assert 0 + 1 == 1;
    if l.maxRps.value == 1 {
      ss', ms' := FillOne(l, ss', ms', width, passed + [now], now, begin, active);
    } else {
      ss', ms' := FillMany(l, ss', ms', width, passed + [now], now, begin, active);
    }
    AppendTimes(passed, now, l.maxRps.value + width - 1);
  }

  lemma {:induction false} TimesAppend(passed: seq<nat>, now: nat, a: nat, b: nat)
    ensures passed + Times(now, a) + Times(now, b) == passed + Times(now, a + b)
    decreases b
  {
    if b == 0 {
      assert Times(now, 0) == [];
    } else {
      TimesAppend(passed, now, a, b - 1);
      assert passed + Times(now, a) + Times(now, b) == passed + Times(now, a) + Times(now, b - 1) + [now];
    }
  }

  /** The rate bound is reached too: for every limit and every width some run admits 2·(limit + width - 1) Executes within
      one second. */
  lemma WideRateBoundReached(limit: nat, width: nat) returns (ss: seq<Flight>, ms: seq<Move>)
    requires limit > 0 && width > 0
    ensures IsRun(Limits(Some(limit), None), ss, ms) && Width(ss, width) && Ordered(ms)
    ensures InSecond(Passed(ss, ms, |ms|), 999) == 2 * (limit + width - 1)
  {
    var l, cap := Limits(Some(limit), None), limit + width - 1;
    hide RunTo, Queue, Times, InSecond, IsRun, Width, Ordered, Passed;
    EmptyQueue(l, width);
    ss, ms := [Queue(0, 0, 0, 0)], [];
    ss, ms := FullWindow(l, ss, ms, width, [], 0, 999, 0, 0, 0);
    ss, ms := FullWindow(l, ss, ms, width, [] + Times(999, cap), 999, 1000, 0, cap, 0 + cap);
    EndOfRun(l, ss, ms, width, 1000, cap, 0 + cap + cap, [] + Times(999, cap) + Times(1000, cap), 1000);
    TwoFull(cap);
  }

  lemma TwoFull(cap: nat)
    ensures InSecond([] + Times(999, cap) + Times(1000, cap), 999) == 2 * cap
  {
    hide Times, InSecond;
    assert [] + Times(999, cap) == Times(999, cap);
    InSecondAppend(Times(999, cap), Times(1000, cap), 999);
    CountTimes(999, cap, 999);
    CountTimes(1000, cap, 999);
  }
}
