/** The Musixmatch request pacer (internal/musixmatch/client.go): slots are reserved under the lock,
    slept for outside it, and handed back when the wait is cancelled. */
module Pacer {
  import opened Prelude
  import opened Backoff

  const ADAPTIVE_MAX_LEVEL := 3
  const ADAPTIVE_SUCCESS_THRESHOLD := 5

  /** The interval in force at a level: minInterval << level. */
  function Interval(minInterval: int, level: nat): int {
    minInterval * Pow2(level)
  }

  /** The slot a caller gets at `now` when `last` is the latest reservation. */
  function Slot(minInterval: int, level: nat, last: int, now: int): (next: int) {
    var next := last + Interval(minInterval, level);
    if next < now then now else next
  }

  /** What the lock guards. */
  datatype Pace = Pace(last: int, level: nat, successes: nat)

  function Reserved(minInterval: int, p: Pace, now: int): Pace {
    p.(last := Slot(minInterval, p.level, p.last, now))
  }

  function RolledBack(p: Pace, prev: int, next: int): Pace {
    if p.last == next then p.(last := prev) else p
  }

  function Slowed(p: Pace): Pace {
    Pace(p.last, if p.level < ADAPTIVE_MAX_LEVEL then p.level + 1 else p.level, 0)
  }

  function Eased(p: Pace): Pace {
    if p.successes + 1 < ADAPTIVE_SUCCESS_THRESHOLD then p.(successes := p.successes + 1)
    else Pace(p.last, if p.level > 0 then p.level - 1 else 0, 0)
  }

  class RequestPacer {
    const minInterval: int
    var lastRequest: int
    var adaptiveLevel: nat
    var consecutiveSuccesses: nat

    function View(): Pace
      reads this
    {
      Pace(lastRequest, adaptiveLevel, consecutiveSuccesses)
    }

    constructor (minInterval: int, start: int)
      ensures this.minInterval == minInterval && View() == Pace(start, 0, 0)
    {
      this.minInterval := minInterval;
      lastRequest, adaptiveLevel, consecutiveSuccesses := start, 0, 0;
    }

    /** The locked part of pace: claim the next slot. */
    method Reserve(now: int) returns (prev: int, next: int, wait: int)
      requires minInterval > 0
      modifies `lastRequest
      ensures View() == Reserved(minInterval, old(View()), now)
      ensures prev == old(lastRequest) && next == lastRequest && wait == next - now >= 0
      ensures next == Max(prev + minInterval * Pow2(adaptiveLevel), now)
    {
      prev := lastRequest;
      next := prev + minInterval * Pow2(adaptiveLevel);
      if next < now {
        next := now;
      }
      lastRequest := next;
      wait := next - now;
    }

    /** The cancelled branch of pace: give the slot back unless a later caller has moved on. */
    method Rollback(prev: int, next: int)
      modifies `lastRequest
      ensures View() == RolledBack(old(View()), prev, next)
    {
      if lastRequest == next {
        lastRequest := prev;
      }
    }

    method OnThrottle()
      modifies `adaptiveLevel, `consecutiveSuccesses
      ensures View() == Slowed(old(View()))
    {
      if adaptiveLevel < ADAPTIVE_MAX_LEVEL {
        adaptiveLevel := adaptiveLevel + 1;
      }
      consecutiveSuccesses := 0;
    }

    method OnSuccess()
      modifies `adaptiveLevel, `consecutiveSuccesses
      ensures View() == Eased(old(View()))
    {
      consecutiveSuccesses := consecutiveSuccesses + 1;
      if consecutiveSuccesses >= ADAPTIVE_SUCCESS_THRESHOLD {
        if adaptiveLevel > 0 {
          adaptiveLevel := adaptiveLevel - 1;
        }
        consecutiveSuccesses := 0;
      }
    }
  }

  // ----- Any number of callers, in any interleaving -----

  datatype Phase = Waiting | Proceeded(at: int) | Cancelled

  /** One call of pace: the reservation it made and where it stands. */
  datatype Call = Call(prev: int, next: int, phase: Phase)

  datatype World = World(pace: Pace, calls: seq<Call>)

  datatype Event =
    | Reserve(now: int)
    | Wake(call: nat, at: int)
    | Cancel(call: nat)
    | Throttle
    | Succeed

  /** The clock never reads before t0; a sleep never ends early; only a waiting caller moves. */
  predicate Enabled(w: World, t0: int, e: Event) {
    match e
    case Reserve(now) => t0 <= now
    case Wake(i, at) => i < |w.calls| && w.calls[i].phase.Waiting? && w.calls[i].next <= at
    case Cancel(i) => i < |w.calls| && w.calls[i].phase.Waiting?
    case Throttle => true
    case Succeed => true
  }

  function Next(minInterval: int, w: World, t0: int, e: Event): World
    requires Enabled(w, t0, e)
  {
    match e
    case Reserve(now) =>
      var pace := Reserved(minInterval, w.pace, now);
      World(pace, w.calls + [Call(w.pace.last, pace.last, if pace.last > now then Waiting else Proceeded(now))])
    case Wake(i, at) => w.(calls := w.calls[i := w.calls[i].(phase := Proceeded(at))])
    case Cancel(i) =>
      World(RolledBack(w.pace, w.calls[i].prev, w.calls[i].next), w.calls[i := w.calls[i].(phase := Cancelled)])
    case Throttle => w.(pace := Slowed(w.pace))
    case Succeed => w.(pace := Eased(w.pace))
  }

  ghost predicate IsRun(minInterval: int, t0: int, start: int, run: seq<World>, events: seq<Event>) {
    && |run| == |events| + 1
    && run[0] == World(Pace(start, 0, 0), [])
    && forall k :: 0 <= k < |events| ==> StepAt(minInterval, t0, run, events, k)
  }

  ghost predicate StepAt(minInterval: int, t0: int, run: seq<World>, events: seq<Event>, k: nat)
    requires k < |events| && |run| == |events| + 1
  {
    Enabled(run[k], t0, events[k]) && run[k + 1] == Next(minInterval, run[k], t0, events[k])
  }

  /** Two calls do not overlap: one's slot is at or before the value the other reserved from. */
  predicate Apart(a: Call, b: Call) {
    a.next <= b.prev || b.next <= a.prev
  }

  ghost predicate Inv(minInterval: int, t0: int, w: World) {
    && w.pace.level <= ADAPTIVE_MAX_LEVEL && w.pace.successes < ADAPTIVE_SUCCESS_THRESHOLD
    && (forall i :: 0 <= i < |w.calls| ==> Proper(minInterval, t0, w.calls[i]))
    && (forall i :: 0 <= i < |w.calls| && !w.calls[i].phase.Cancelled? ==> w.calls[i].next <= w.pace.last)
    && (forall i, j :: 0 <= i < j < |w.calls| && !w.calls[i].phase.Cancelled? && !w.calls[j].phase.Cancelled? ==>
          Apart(w.calls[i], w.calls[j]))
  }

  predicate Proper(minInterval: int, t0: int, c: Call) {
    && c.prev + minInterval <= c.next && t0 <= c.next
    && (c.phase.Proceeded? ==> c.next <= c.phase.at)
  }

  lemma IntervalAtLeastFloor(minInterval: int, level: nat)
    requires minInterval > 0
    ensures Interval(minInterval, level) >= minInterval
  {
    Scale(minInterval, 1, Pow2(level));
  }

  lemma StepKeepsInv(minInterval: int, t0: int, w: World, e: Event)
    requires minInterval > 0 && Inv(minInterval, t0, w) && Enabled(w, t0, e)
    ensures Inv(minInterval, t0, Next(minInterval, w, t0, e))
  {
    match e
    case Reserve(now) => IntervalAtLeastFloor(minInterval, w.pace.level);
    case Wake(_, _) =>
    case Cancel(_) =>
    case Throttle =>
    case Succeed =>
  }

  lemma {:induction false} ReachableInv(minInterval: int, t0: int, start: int, run: seq<World>, events: seq<Event>,
                                        k: nat)
    requires minInterval > 0 && IsRun(minInterval, t0, start, run, events) && k < |run|
    ensures Inv(minInterval, t0, run[k])
  {
    if k > 0 {
      ReachableInv(minInterval, t0, start, run, events, k - 1);
      assert StepAt(minInterval, t0, run, events, k - 1);
      StepKeepsInv(minInterval, t0, run[k - 1], events[k - 1]);
    }
  }

  /** Two calls that were not cancelled hold slots at least minInterval apart, whatever was reserved,
      cancelled, rolled back or re-levelled around them. */
  lemma SlotsAreSpaced(minInterval: int, t0: int, start: int, run: seq<World>, events: seq<Event>, k: nat, i: nat,
                       j: nat)
    requires minInterval > 0 && IsRun(minInterval, t0, start, run, events) && k < |run|
    requires i < j < |run[k].calls| && !run[k].calls[i].phase.Cancelled? && !run[k].calls[j].phase.Cancelled?
    ensures Apart(run[k].calls[i], run[k].calls[j])
    ensures run[k].calls[i].next - run[k].calls[j].next >= minInterval
            || run[k].calls[j].next - run[k].calls[i].next >= minInterval
  {
    ReachableInv(minInterval, t0, start, run, events, k);
    assert Proper(minInterval, t0, run[k].calls[i]) && Proper(minInterval, t0, run[k].calls[j]);
  }

  ghost predicate Spaced(minInterval: int, calls: seq<Call>, s: set<nat>) {
    && (forall i :: i in s ==> i < |calls|)
    && forall i, j :: i in s && j in s && i < j ==>
         calls[i].next - calls[j].next >= minInterval || calls[j].next - calls[i].next >= minInterval
  }

  /** At most one member of a spaced family per interval. */
  lemma {:induction false} SpacedCount(minInterval: int, lo: int, hi: int, calls: seq<Call>, s: set<nat>)
    requires minInterval > 0 && lo <= hi && Spaced(minInterval, calls, s)
    requires forall i :: i in s ==> lo <= calls[i].next <= hi
    ensures (|s| - 1) * minInterval <= hi - lo
    decreases hi - lo
  {
    var mid := lo + minInterval;
    if hi < mid {
      AtMostOne(minInterval, lo, calls, s);
      NoGap(|s|, minInterval);
    } else {
      var first := set i | i in s && calls[i].next < mid;
      AtMostOne(minInterval, lo, calls, first);
      SpacedCount(minInterval, mid, hi, calls, s - first);
      OneMoreGap(|s|, |s - first|, minInterval, hi - lo);
    }
  }

  lemma OneMoreGap(n: int, rest: int, m: int, span: int)
    requires n <= rest + 1 && m > 0 && (rest - 1) * m <= span - m
    ensures (n - 1) * m <= span
  {
    assert (rest - 1) * m == rest * m - m;
    assert (n - 1) * m <= rest * m by { Scale(m, n - 1, rest); }
  }

  lemma NoGap(n: int, m: int)
    requires 0 <= n <= 1 && m > 0
    ensures (n - 1) * m <= 0
  {
    if n == 0 { assert (n - 1) * m == -m; }
  }

  lemma AtMostOne(minInterval: int, lo: int, calls: seq<Call>, s: set<nat>)
    requires Spaced(minInterval, calls, s)
    requires forall i :: i in s ==> lo <= calls[i].next < lo + minInterval
    ensures |s| <= 1
  {
    if i :| i in s {
      assert s == {i} by {
        forall j | j in s
          ensures j == i
        {
        }
      }
    }
  }

  /** The calls that had gone ahead by `time`. */
  function Issued(w: World, time: int): set<nat> {
    set i | 0 <= i < |w.calls| && w.calls[i].phase.Proceeded? && w.calls[i].phase.at <= time
  }

  /** By any time T at most 1 + (T - t0) / minInterval requests have been let through. */
  lemma RateIsBounded(minInterval: int, t0: int, start: int, run: seq<World>, events: seq<Event>, k: nat, time: int)
    requires minInterval > 0 && t0 <= time && IsRun(minInterval, t0, start, run, events) && k < |run|
    ensures (|Issued(run[k], time)| - 1) * minInterval <= time - t0
  {
    ReachableInv(minInterval, t0, start, run, events, k);
    var calls, s := run[k].calls, Issued(run[k], time);
    forall i | i in s
      ensures t0 <= calls[i].next <= time
    {
      assert Proper(minInterval, t0, calls[i]);
    }
    forall i, j | i in s && j in s && i < j
      ensures calls[i].next - calls[j].next >= minInterval || calls[j].next - calls[i].next >= minInterval
    {
      assert Apart(calls[i], calls[j]) && Proper(minInterval, t0, calls[i]) && Proper(minInterval, t0, calls[j]);
    }
    SpacedCount(minInterval, t0, time, calls, s);
  }

  // ----- What the adaptive level does to the slots -----

  function ThrottlesIn(events: seq<Event>, j: nat, k: nat): nat
    requires j <= k <= |events|
  {
    if j == k then 0 else ThrottlesIn(events, j, k - 1) + (if events[k - 1].Throttle? then 1 else 0)
  }

  function SuccessesIn(events: seq<Event>, j: nat, k: nat): nat
    requires j <= k <= |events|
  {
    if j == k then 0 else SuccessesIn(events, j, k - 1) + (if events[k - 1].Succeed? then 1 else 0)
  }

  /** Throttles with no success between them raise the level one by one, up to three. */
  lemma {:induction false} ThrottlesRaiseTheLevel(minInterval: int, t0: int, start: int, run: seq<World>,
                                                  events: seq<Event>, j: nat, k: nat)
    requires minInterval > 0 && IsRun(minInterval, t0, start, run, events) && j <= k < |run|
    requires SuccessesIn(events, j, k) == 0
    ensures run[k].pace.level == Min(run[j].pace.level + ThrottlesIn(events, j, k), 3)
    ensures ThrottlesIn(events, j, k) > 0 ==> run[k].pace.successes == 0
  {
    ReachableInv(minInterval, t0, start, run, events, j);
    if j < k {
      ThrottlesRaiseTheLevel(minInterval, t0, start, run, events, j, k - 1);
      assert StepAt(minInterval, t0, run, events, k - 1);
    }
  }

  /** Successes with no throttle between them lower the level by one for every fifth, down to zero. */
  lemma {:induction false} SuccessesLowerTheLevel(minInterval: int, t0: int, start: int, run: seq<World>,
                                                  events: seq<Event>, j: nat, k: nat)
    requires minInterval > 0 && IsRun(minInterval, t0, start, run, events) && j <= k < |run|
    requires ThrottlesIn(events, j, k) == 0
    ensures var n := run[j].pace.successes + SuccessesIn(events, j, k);
      run[k].pace.level == Max(run[j].pace.level - n / 5, 0) && run[k].pace.successes == n % 5
  {
    ReachableInv(minInterval, t0, start, run, events, j);
    if j < k {
      SuccessesLowerTheLevel(minInterval, t0, start, run, events, j, k - 1);
      assert StepAt(minInterval, t0, run, events, k - 1);
    }
  }

  /** The reservation made at event k: it was made from the latest slot, and lies the interval of the
      level after it, or at the caller's own time if that is later. */
  lemma ReservedSlot(minInterval: int, t0: int, start: int, run: seq<World>, events: seq<Event>, k: nat)
    requires IsRun(minInterval, t0, start, run, events) && k < |events| && events[k].Reserve?
    ensures |run[k + 1].calls| == |run[k].calls| + 1
    ensures var call := run[k + 1].calls[|run[k].calls|];
      && call.prev == run[k].pace.last && run[k + 1].pace.last == call.next
      && call.next == Max(call.prev + minInterval * Pow2(run[k].pace.level), events[k].now)
  {
    assert StepAt(minInterval, t0, run, events, k);
  }

  /** After k throttles with no success since, a caller is held at least 2^min(k, 3) base intervals
      behind the slot before its own. */
  lemma ThrottledCallersWait(minInterval: int, t0: int, start: int, run: seq<World>, events: seq<Event>, j: nat, k: nat)
    requires minInterval > 0 && IsRun(minInterval, t0, start, run, events) && j <= k < |events| && events[k].Reserve?
    requires SuccessesIn(events, j, k) == 0
    ensures |run[k + 1].calls| == |run[k].calls| + 1
    ensures var call := run[k + 1].calls[|run[k].calls|];
      call.next - call.prev >= minInterval * Pow2(Min(ThrottlesIn(events, j, k), 3))
  {
    ReservedSlot(minInterval, t0, start, run, events, k);
    ThrottlesRaiseTheLevel(minInterval, t0, start, run, events, j, k);
    var n := Min(ThrottlesIn(events, j, k), 3);
    Pow2Monotone(n, run[k].pace.level);
    Scale(minInterval, Pow2(n), Pow2(run[k].pace.level));
  }

  /** Five successes with no throttle between them halve the interval in force, unless it is the base
      interval already; fewer than five after a throttle leave it alone. */
  lemma FiveSuccessesHalve(minInterval: int, t0: int, start: int, run: seq<World>, events: seq<Event>, j: nat, k: nat)
    requires minInterval > 0 && IsRun(minInterval, t0, start, run, events) && j <= k < |run|
    requires ThrottlesIn(events, j, k) == 0
    ensures SuccessesIn(events, j, k) == 5 && run[j].pace.level > 0 ==>
              2 * (minInterval * Pow2(run[k].pace.level)) == minInterval * Pow2(run[j].pace.level)
    ensures SuccessesIn(events, j, k) == 5 && run[j].pace.level == 0 ==> run[k].pace.level == 0
    ensures run[j].pace.successes == 0 && SuccessesIn(events, j, k) < 5 ==> run[k].pace.level == run[j].pace.level
  {
    SuccessesLowerTheLevel(minInterval, t0, start, run, events, j, k);
    ReachableInv(minInterval, t0, start, run, events, j);
    if SuccessesIn(events, j, k) == 5 && run[j].pace.level > 0 { Doubles(minInterval, run[k].pace.level); }
  }

  lemma Doubles(minInterval: int, level: nat)
    ensures 2 * (minInterval * Pow2(level)) == minInterval * Pow2(level + 1)
  {
    assert Pow2(level + 1) == 2 * Pow2(level);
  }

  // ----- What a cancellation gives back -----

  /** Reservations between two events. */
  ghost predicate NoReservation(events: seq<Event>, j: nat, k: nat)
    requires j <= k <= |events|
  {
    forall i :: j <= i < k ==> !events[i].Reserve?
  }

  /** While no later caller reserves, and the call itself is not cancelled, the slot stays the latest. */
  lemma {:induction false} SlotStaysLatest(minInterval: int, t0: int, start: int, run: seq<World>,
                                           events: seq<Event>, j: nat, k: nat)
    requires minInterval > 0 && IsRun(minInterval, t0, start, run, events) && j < k <= |events| && events[j].Reserve?
    requires NoReservation(events, j + 1, k)
    requires forall i :: j < i < k ==> events[i] != Cancel(|run[j].calls|)
    ensures |run[k].calls| == |run[j].calls| + 1
    ensures run[k].pace.last == run[k].calls[|run[j].calls|].next
            && run[k].calls[|run[j].calls|].prev == run[j].pace.last
    ensures forall i :: 0 <= i < |run[j].calls| && !run[k].calls[i].phase.Cancelled? ==>
              run[k].calls[i].next <= run[j].pace.last
  {
    ReachableInv(minInterval, t0, start, run, events, j);
    ReachableInv(minInterval, t0, start, run, events, k);
    assert StepAt(minInterval, t0, run, events, k - 1);
    if k == j + 1 {
      ReservedSlot(minInterval, t0, start, run, events, j);
    } else {
      SlotStaysLatest(minInterval, t0, start, run, events, j, k - 1);
      ReachableInv(minInterval, t0, start, run, events, k - 1);
      assert Proper(minInterval, t0, run[k - 1].calls[|run[j].calls|]);
    }
  }

  /** A caller cancelled before anyone reserved after it leaves no trace: the next caller reserves from
      the value it had reserved from. */
  lemma CancelledSlotIsReused(minInterval: int, t0: int, start: int, run: seq<World>, events: seq<Event>, j: nat,
                              k: nat)
    requires minInterval > 0 && IsRun(minInterval, t0, start, run, events) && j < k < |events| && events[j].Reserve?
    requires NoReservation(events, j + 1, k) && events[k] == Cancel(|run[j].calls|)
    requires forall i :: j < i < k ==> events[i] != Cancel(|run[j].calls|)
    ensures run[k + 1].pace.last == run[j].pace.last
  {
    SlotStaysLatest(minInterval, t0, start, run, events, j, k);
    assert StepAt(minInterval, t0, run, events, k);
  }

  /** A caller cancelled after someone else's live reservation changes nothing for those to come. */
  lemma LaterSlotStands(minInterval: int, t0: int, start: int, run: seq<World>, events: seq<Event>, k: nat, i: nat,
                        j: nat)
    requires minInterval > 0 && IsRun(minInterval, t0, start, run, events) && k < |events| && events[k] == Cancel(i)
    requires i < |run[k].calls| && j < |run[k].calls| && i != j
    requires !run[k].calls[j].phase.Cancelled? && run[k].calls[j].next > run[k].calls[i].next
    ensures run[k + 1].pace.last == run[k].pace.last
  {
    ReachableInv(minInterval, t0, start, run, events, k);
    assert StepAt(minInterval, t0, run, events, k);
  }
}
