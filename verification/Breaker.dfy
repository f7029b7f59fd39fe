/** The per-lane circuit breaker (internal/circuit/breaker.go). Every method is one atomic step: the
    source runs each under the breaker's mutex. Times are instants in nanoseconds; a zero
    openUntil is `None`. */
module Breaker {
  import opened Prelude
  import opened Backoff

  datatype Gate = Closed | Open | HalfOpen

  datatype Circuit = Circuit(base: Duration, cap: Duration, openUntil: Option<int>, trips: int,
                             probing: bool, everSucceeded: bool)

  datatype Step =
    | Allow(now: int)
    | Trip(now: int)
    | TripRenewal(now: int)
    | RecordSuccess
    | RecordBenignMiss
    | SetBackoff(base: Duration, cap: Duration)

  function Fresh(base: Duration, cap: Duration): Circuit {
    Circuit(base, cap, None, 0, false, false)
  }

  function GateOf(c: Circuit, now: int): Gate {
    if c.openUntil.Some? && now < c.openUntil.value then Open
    else if c.openUntil.Some? || c.probing then HalfOpen
    else Closed
  }

  function Window(c: Circuit): int {
    Delay(c.trips, c.base as int, c.cap as int)
  }

  function After(c: Circuit, step: Step): Circuit {
    match step
    case Allow(now) =>
      if c.openUntil.Some? && now >= c.openUntil.value then c.(probing := true, openUntil := None) else c
    case Trip(now) =>
      var c' := c.(trips := c.trips + 1);
      c'.(openUntil := Some(now + Window(c')), probing := false)
    case TripRenewal(now) => c.(openUntil := Some(now + c.cap as int), probing := false)
    case RecordSuccess => c.(everSucceeded := true, trips := 0, probing := false)
    case RecordBenignMiss => c.(trips := 0, probing := false)
    case SetBackoff(base, cap) =>
      c.(base := if base > 0 then base else c.base, cap := if cap > 0 then cap else c.cap)
  }

  class CircuitBreaker {
    var backoffBase: Duration
    var openDuration: Duration
    var openUntil: Option<int>
    var consecutiveTrips: int
    var probing: bool
    var everProviderSuccess: bool

    function View(): Circuit
      reads this
    {
      Circuit(backoffBase, openDuration, openUntil, consecutiveTrips, probing, everProviderSuccess)
    }

    constructor (backoffBase: Duration, openDuration: Duration)
      ensures View() == Fresh(backoffBase, openDuration)
    {
      this.backoffBase, this.openDuration := backoffBase, openDuration;
      openUntil, consecutiveTrips, probing, everProviderSuccess := None, 0, false, false;
    }

    method SetBackoff(base: Duration, cap: Duration)
      modifies this
      ensures View() == After(old(View()), Step.SetBackoff(base, cap))
    {
      if base > 0 { backoffBase := base; }
      if cap > 0 { openDuration := cap; }
    }

    method Allow(now: int) returns (gate: Gate)
      modifies this
      ensures gate == GateOf(old(View()), now)
      ensures View() == After(old(View()), Step.Allow(now))
    {
      if openUntil.Some? {
        if now < openUntil.value {
          return Open;
        }
        probing := true;
        openUntil := None;
      }
      return if probing then HalfOpen else Closed;
    }

    method Trip(now: int) returns (trips: int, window: int, until: int)
      modifies this
      ensures View() == After(old(View()), Step.Trip(now))
      ensures trips == consecutiveTrips && openUntil == Some(until) && until == now + window
    {
      consecutiveTrips := consecutiveTrips + 1;
      var w := Geometric(consecutiveTrips, backoffBase, openDuration);
      openUntil := Some(now + w as int);
      probing := false;
      return consecutiveTrips, w as int, openUntil.value;
    }

    /** Reports the current trip count, not zero as the comment on TripResult.Trips has it. */
    method TripRenewal(now: int) returns (trips: int, window: int, until: int)
      modifies this
      ensures View() == After(old(View()), Step.TripRenewal(now))
      ensures trips == old(consecutiveTrips) && openUntil == Some(until) && until == now + window
    {
      openUntil := Some(now + openDuration as int);
      probing := false;
      return consecutiveTrips, openDuration as int, openUntil.value;
    }

    method RecordSuccess() returns (recovered: bool)
      modifies this
      ensures View() == After(old(View()), Step.RecordSuccess) && recovered == old(probing)
    {
      everProviderSuccess := true;
      consecutiveTrips := 0;
      recovered := probing;
      probing := false;
    }

    method RecordBenignMiss() returns (recovered: bool)
      modifies this
      ensures View() == After(old(View()), Step.RecordBenignMiss) && recovered == old(probing)
    {
      consecutiveTrips := 0;
      recovered := probing;
      probing := false;
    }
  }

  // ----- Over runs: any interleaving of atomic steps by any number of callers -----

  /** New settings govern the next window from where the ramp stands; a setting that is not positive
      leaves the one in force, and an open window stands. */
  lemma SettingsGovernTheNextTrip(c: Circuit, base: Duration, cap: Duration, now: int)
    ensures var c' := After(c, SetBackoff(base, cap));
            && (base > 0 && cap > 0 ==> After(c', Trip(now)) == After(c.(base := base, cap := cap), Trip(now)))
            && (base > 0 >= cap ==> After(c', Trip(now)) == After(c.(base := base), Trip(now)))
            && (cap > 0 >= base ==> After(c', Trip(now)) == After(c.(cap := cap), Trip(now)))
            && (base <= 0 && cap <= 0 ==> c' == c)
            && (c.base > 0 && c.cap > 0 ==> c'.base > 0 && c'.cap > 0)
            && GateOf(c', now) == GateOf(c, now)
  {
  }

  function Run(c: Circuit, steps: seq<Step>): Circuit {
    if steps == [] then c else After(Run(c, steps[..|steps| - 1]), steps[|steps| - 1])
  }

  /** Trips since the last reset, read off the history. */
  function TripsSinceReset(steps: seq<Step>): nat {
    if steps == [] then 0
    else
      match steps[|steps| - 1]
      case Trip(_) => TripsSinceReset(steps[..|steps| - 1]) + 1
      case RecordSuccess => 0
      case RecordBenignMiss => 0
      case _ => TripsSinceReset(steps[..|steps| - 1])
  }

  /** The ramp is exactly the throttles since the last reset, a probe is never also open, and a
      success once recorded stays recorded. */
  lemma {:induction false} BreakerInvariant(base: Duration, cap: Duration, steps: seq<Step>)
    ensures var c := Run(Fresh(base, cap), steps);
      && c.trips == TripsSinceReset(steps)
      && (c.probing ==> c.openUntil.None?)
      && (c.everSucceeded <==> Step.RecordSuccess in steps)
  {
    if steps != [] {
      BreakerInvariant(base, cap, steps[..|steps| - 1]);
      assert steps == steps[..|steps| - 1] + [steps[|steps| - 1]];
    }
  }

  /** A breaker that is open refuses every caller until its window ends. Recorded successes and misses
      and changes of settings do not close it early; only a trip or a renewal sets another deadline. */
  lemma {:induction false} OpenHolds(c: Circuit, steps: seq<Step>, now: int)
    requires c.openUntil.Some? && now < c.openUntil.value
    requires forall i :: 0 <= i < |steps| ==>
               match steps[i]
               case Allow(t) => t <= now
               case Trip(_) => false
               case TripRenewal(_) => false
               case _ => true
    ensures Run(c, steps).openUntil == c.openUntil && GateOf(Run(c, steps), now) == Open
  {
    if steps != [] {
      OpenHolds(c, steps[..|steps| - 1], now);
    }
  }

  // ----- When a trip brings the deadline forward -----

  function TimeOf(step: Step): Option<int> {
    match step
    case Allow(now) => Some(now)
    case Trip(now) => Some(now)
    case TripRenewal(now) => Some(now)
    case _ => None
  }

  /** The clock never runs backwards over the steps, nor past `now`. */
  ghost predicate Clocked(steps: seq<Step>, now: int) {
    && (forall i :: 0 <= i < |steps| && TimeOf(steps[i]).Some? ==> TimeOf(steps[i]).value <= now)
    && forall i, j :: 0 <= i < j < |steps| && TimeOf(steps[i]).Some? && TimeOf(steps[j]).Some? ==>
         TimeOf(steps[i]).value <= TimeOf(steps[j]).value
  }

  /** When a deadline was set, and how far ahead. */
  datatype Setting = Setting(at: int, window: int)

  function LastSetting(c: Circuit, steps: seq<Step>): Option<Setting> {
    if steps == [] then None
    else
      match steps[|steps| - 1]
      case Trip(now) => Some(Setting(now, Window(Run(c, steps))))
      case TripRenewal(now) => Some(Setting(now, Run(c, steps).cap as int))
      case _ => LastSetting(c, steps[..|steps| - 1])
  }

  lemma {:induction false} DeadlineIsLastSetting(c: Circuit, steps: seq<Step>)
    requires c.openUntil.None? && Run(c, steps).openUntil.Some?
    ensures LastSetting(c, steps).Some?
    ensures Run(c, steps).openUntil.value == LastSetting(c, steps).value.at + LastSetting(c, steps).value.window
  {
    var last := steps[|steps| - 1];
    if !last.Trip? && !last.TripRenewal? { DeadlineIsLastSetting(c, steps[..|steps| - 1]); }
  }

  /** openUntil is not monotone. A trip brings it forward exactly when the window it opens is shorter
      than what is left of the one standing. */
  lemma TripShortensIff(base: Duration, cap: Duration, steps: seq<Step>, now: int)
    requires Run(Fresh(base, cap), steps).openUntil.Some?
    ensures LastSetting(Fresh(base, cap), steps).Some?
    ensures var c, s := Run(Fresh(base, cap), steps), LastSetting(Fresh(base, cap), steps).value;
      After(c, Trip(now)).openUntil.value < c.openUntil.value
      <==> Delay(TripsSinceReset(steps) + 1, c.base as int, c.cap as int) < s.window - (now - s.at)
  {
    DeadlineIsLastSetting(Fresh(base, cap), steps);
    BreakerInvariant(base, cap, steps);
  }

  /** What can leave a standing window longer than the next one. */
  predicate IsCause(step: Step) {
    step.TripRenewal? || step.RecordSuccess? || step.RecordBenignMiss? || step.SetBackoff?
  }

  /** Some cause came after the last trip. */
  predicate Disturbed(steps: seq<Step>) {
    steps != [] && !steps[|steps| - 1].Trip? && (IsCause(steps[|steps| - 1]) || Disturbed(steps[..|steps| - 1]))
  }

  lemma {:induction false} RampDeadline(base: Duration, cap: Duration, steps: seq<Step>, now: int)
    requires Clocked(steps, now) && !Disturbed(steps) && Run(Fresh(base, cap), steps).openUntil.Some?
    ensures Run(Fresh(base, cap), steps).openUntil.value <= now + Window(Run(Fresh(base, cap), steps))
  {
    var last := steps[|steps| - 1];
    assert TimeOf(last).Some? ==> TimeOf(last).value <= now;
    if last.Allow? { RampDeadline(base, cap, steps[..|steps| - 1], now); }
  }

  /** Trips alone never shorten the window, however they and the gate checks interleave. If one does,
      a renewal, a reset of the ramp or a change of settings came after the last trip. */
  lemma ShorteningHasACause(base: Duration, cap: Duration, steps: seq<Step>, now: int)
    requires Clocked(steps, now)
    ensures var c := Run(Fresh(base, cap), steps);
      c.openUntil.Some? && After(c, Trip(now)).openUntil.value < c.openUntil.value ==> Disturbed(steps)
  {
    var c := Run(Fresh(base, cap), steps);
    if c.openUntil.Some? && !Disturbed(steps) {
      RampDeadline(base, cap, steps, now);
      DelayMonotone(c.trips, c.trips + 1, c.base as int, c.cap as int);
    }
  }

  /** A renewal sets the full window, so it brings the deadline forward only when that is less than
      what is left, which takes a change of settings since the deadline was set (or a negative cap). */
  lemma RenewalShortensIff(base: Duration, cap: Duration, steps: seq<Step>, now: int)
    requires Run(Fresh(base, cap), steps).openUntil.Some?
    ensures LastSetting(Fresh(base, cap), steps).Some?
    ensures var c, s := Run(Fresh(base, cap), steps), LastSetting(Fresh(base, cap), steps).value;
      After(c, TripRenewal(now)).openUntil.value < c.openUntil.value <==> c.cap as int < s.window - (now - s.at)
  {
    DeadlineIsLastSetting(Fresh(base, cap), steps);
  }

  /** It does happen: a full window, a change to smaller settings, and a second renewal. */
  lemma RenewalCanShorten()
    ensures var before := Run(Fresh(1, 100), [TripRenewal(0), Step.SetBackoff(1, 1)]);
      before.openUntil == Some(100) && After(before, TripRenewal(0)).openUntil == Some(1)
  {
    var c, r, b := Fresh(1, 100), TripRenewal(0), Step.SetBackoff(1, 1);
    assert [r] == [] + [r] && [r, b] == [r] + [b];
    RunOne(c, [], r);
    RunOne(c, [r], b);
  }

  predicate Reconfigured(steps: seq<Step>) {
    && steps != [] && !steps[|steps| - 1].Trip? && !steps[|steps| - 1].TripRenewal?
    && (steps[|steps| - 1].SetBackoff? || Reconfigured(steps[..|steps| - 1]))
  }

  lemma {:induction false} RenewalShorteningHasACause(base: Duration, cap: Duration, steps: seq<Step>, now: int)
    requires Clocked(steps, now)
    ensures var c := Run(Fresh(base, cap), steps);
      c.openUntil.Some? && After(c, TripRenewal(now)).openUntil.value < c.openUntil.value ==>
        Reconfigured(steps) || c.cap < 0
  {
    if steps != [] {
      var c, last := Run(Fresh(base, cap), steps), steps[|steps| - 1];
      assert TimeOf(last).Some? ==> TimeOf(last).value <= now;
      if last.Trip? {
        DelayMonotone(c.trips, c.trips, c.base as int, c.cap as int);
      } else {
        RenewalShorteningHasACause(base, cap, steps[..|steps| - 1], now);
      }
    }
  }

  lemma RunOne(c: Circuit, steps: seq<Step>, step: Step)
    ensures Run(c, steps + [step]) == After(Run(c, steps), step)
  {
    assert (steps + [step])[..|steps|] == steps;
  }

  /** Each of the causes does it: n trips open a window of 2^(n-1), a cause follows at once, and the
      next trip sets a deadline before the one standing. */
  lemma EveryCauseShortens(cause: Step)
    requires IsCause(cause) && (cause.TripRenewal? ==> cause.now == 0)
             && (cause.SetBackoff? ==> cause.base == 1 && cause.cap == 1)
    ensures var before := Run(Fresh(1, 100), [Trip(0), Trip(0), Trip(0), cause]);
      before.openUntil.Some? && After(before, Trip(0)).openUntil.Some?
      && After(before, Trip(0)).openUntil.value < before.openUntil.value
  {
    var c, t := Fresh(1, 100), Trip(0);
    assert Pow2(3) == 2 * Pow2(2) == 4 * Pow2(1) == 8 * Pow2(0);
    assert [t] == [] + [t] && [t, t] == [t] + [t] && [t, t, t] == [t, t] + [t]
      && [t, t, t, cause] == [t, t, t] + [cause];
    RunOne(c, [], t);
    RunOne(c, [t], t);
    RunOne(c, [t, t], t);
    RunOne(c, [t, t, t], cause);
  }

  // ----- The gate, from the history -----

  /** Since the last trip or renewal some gate check found its window elapsed. */
  predicate Observed(c: Circuit, steps: seq<Step>) {
    steps != [] &&
    match steps[|steps| - 1]
    case Trip(_) => false
    case TripRenewal(_) => false
    case Allow(now) =>
      var init := steps[..|steps| - 1];
      Observed(c, init)
      || (LastSetting(c, init).Some? && now >= LastSetting(c, init).value.at + LastSetting(c, init).value.window)
    case _ => Observed(c, steps[..|steps| - 1])
  }

  /** And after it an outcome reset the ramp. */
  predicate Recovered(c: Circuit, steps: seq<Step>) {
    steps != [] &&
    match steps[|steps| - 1]
    case Trip(_) => false
    case TripRenewal(_) => false
    case RecordSuccess => Observed(c, steps[..|steps| - 1])
    case RecordBenignMiss => Observed(c, steps[..|steps| - 1])
    case _ => Recovered(c, steps[..|steps| - 1])
  }

  lemma {:induction false} FieldsFromHistory(base: Duration, cap: Duration, steps: seq<Step>)
    ensures var f, c := Fresh(base, cap), Run(Fresh(base, cap), steps);
      && (c.openUntil.Some? <==> LastSetting(f, steps).Some? && !Observed(f, steps))
      && (c.probing <==> Observed(f, steps) && !Recovered(f, steps))
      && (Recovered(f, steps) ==> Observed(f, steps)) && (Observed(f, steps) ==> LastSetting(f, steps).Some?)
  {
    if steps != [] {
      var init := steps[..|steps| - 1];
      FieldsFromHistory(base, cap, init);
      if Run(Fresh(base, cap), init).openUntil.Some? { DeadlineIsLastSetting(Fresh(base, cap), init); }
    }
  }

  lemma {:induction false} ObservedIsPast(c: Circuit, steps: seq<Step>, now: int)
    requires Clocked(steps, now) && Observed(c, steps)
    ensures LastSetting(c, steps).Some?
    ensures now >= LastSetting(c, steps).value.at + LastSetting(c, steps).value.window
  {
    var init, last := steps[..|steps| - 1], steps[|steps| - 1];
    assert TimeOf(last).Some? ==> TimeOf(last).value <= now;
    if Observed(c, init) { ObservedIsPast(c, init, now); }
  }

  /** What a caller at `now` meets after any steps under a clock that never runs back. It is refused
      exactly while the window of the last trip or renewal lasts: no outcome shortens it, and half-open
      refuses no one. A success or a miss closes the breaker only if it comes after a gate check
      that found the window elapsed. */
  lemma GateIsExact(base: Duration, cap: Duration, steps: seq<Step>, now: int)
    requires Clocked(steps, now)
    ensures var s := LastSetting(Fresh(base, cap), steps);
      GateOf(Run(Fresh(base, cap), steps), now)
      == if s.None? || Recovered(Fresh(base, cap), steps) then Closed
         else if now < s.value.at + s.value.window then Open
         else HalfOpen
    ensures var s := LastSetting(Fresh(base, cap), steps);
      GateOf(Run(Fresh(base, cap), steps), now) == Open <==> s.Some? && now < s.value.at + s.value.window
  {
    var c := Fresh(base, cap);
    FieldsFromHistory(base, cap, steps);
    if Run(c, steps).openUntil.Some? { DeadlineIsLastSetting(c, steps); }
    if Observed(c, steps) { ObservedIsPast(c, steps, now); }
  }

  /** Half-open is not exclusive: once the window has elapsed, and while only gate checks happen, every
      caller is let through as a probe. */
  lemma {:induction false} HalfOpenAdmitsAll(c: Circuit, nows: seq<int>, now: int)
    requires c.openUntil.Some? && c.openUntil.value <= now
    requires forall i :: 0 <= i < |nows| ==> c.openUntil.value <= nows[i]
    ensures GateOf(Run(c, seq(|nows|, i requires 0 <= i < |nows| => Allow(nows[i]))), now) == HalfOpen
  {
    if nows != [] {
      var init := nows[..|nows| - 1];
      HalfOpenAdmitsAll(c, init, now);
      var steps := seq(|nows|, i requires 0 <= i < |nows| => Allow(nows[i]));
      assert steps[..|nows| - 1] == seq(|init|, i requires 0 <= i < |init| => Allow(init[i]));
    }
  }
}
