/** One provider lane: its breaker, and what each provider outcome does to it
    (internal/orchestrator/lane.go). */
module Lane {
  import opened Prelude
  import opened Outcome
  import opened Backoff
  import opened Breaker
  import Pacer

  /** What happens at a lane, as the breaker sees it: a caller asks to pass, or a call comes back. */
  datatype LaneEvent = Ask(now: int) | Return(err: Option<Error>, now: int)

  predicate IsThrottle(err: Error) {
    Is(err, RateLimited) || Is(err, Unauthorized) || Is(err, TruncatedResponse)
  }

  /** FindLyrics and classify, reduced to their effect on the breaker. A renewal is tested first
      because it also answers to Unauthorized. */
  function Observe(c: Circuit, e: LaneEvent): Circuit {
    match e
    case Ask(now) => After(c, Allow(now))
    case Return(None, _) => After(c, RecordSuccess)
    case Return(Some(err), now) =>
      if Is(err, TokenRenewalRequired) then After(c, TripRenewal(now))
      else if IsThrottle(err) then After(c, Trip(now))
      else if IsBenignMiss(err) then After(c, RecordBenignMiss)
      else c
  }

  /** The pacer is told about a 401 only once the token has been seen to work. */
  predicate Ratchets(err: Error, everSucceeded: bool) {
    && !Is(err, TokenRenewalRequired)
    && (Is(err, RateLimited) || Is(err, TruncatedResponse) || (Is(err, Unauthorized) && everSucceeded))
  }

  class ProviderLane {
    const name: string
    const breaker: CircuitBreaker
    const pacer: Pacer.RequestPacer?

    constructor (name: string, breaker: CircuitBreaker, pacer: Pacer.RequestPacer?)
      ensures this.name == name && this.breaker == breaker && this.pacer == pacer
    {
      this.name, this.breaker, this.pacer := name, breaker, pacer;
    }

    /** `song` and `err` are what the provider answers when it is called; `askedAt` and `doneAt` are
        the breaker's clock at the gate and at classification. */
    method FindLyrics(song: Song, err: Option<Error>, askedAt: int, doneAt: int)
      returns (song': Song, err': Option<Error>, ghost called: bool)
      modifies breaker, pacer
      ensures called <==> GateOf(old(breaker.View()), askedAt) != Open
      ensures !called ==>
                && song' == NO_SONG && err' == Some(Base(LaneUnavailable))
                && breaker.View() == old(breaker.View())
                && (pacer != null ==> unchanged(pacer))
      ensures called ==>
                && breaker.View() == Observe(Observe(old(breaker.View()), Ask(askedAt)), Return(err, doneAt))
                && song' == (if err.None? then song else NO_SONG)
                && ClassifyOutcome(err') == ClassifyOutcome(err) && (err'.Some? ==> err'.value.chain == err.value.chain)
      ensures called && pacer != null ==>
                pacer.View() ==
                if err.None? then Pacer.Eased(old(pacer.View()))
                else if Ratchets(err.value, old(breaker.everProviderSuccess)) then Pacer.Slowed(old(pacer.View()))
                else old(pacer.View())
    {
      var gate := breaker.Allow(askedAt);
      called := gate != Open;
      if gate == Open {
        return NO_SONG, Some(Base(LaneUnavailable)), called;
      }
      if err.Some? {
        var e := Classify(err.value, doneAt);
        return NO_SONG, Some(e), called;
      }
      var recovered := breaker.RecordSuccess();
      if pacer != null {
        pacer.OnSuccess();
      }
      return song, None, called;
    }

    method Classify(err: Error, now: int) returns (err': Error)
      modifies breaker, pacer
      ensures breaker.View() == Observe(old(breaker.View()), Return(Some(err), now))
      ensures err'.chain == err.chain
      ensures pacer != null ==>
                pacer.View() ==
                if Ratchets(err, old(breaker.everProviderSuccess)) then Pacer.Slowed(old(pacer.View()))
                else old(pacer.View())
    {
      if Is(err, TokenRenewalRequired) {
        var _, _, _ := breaker.TripRenewal(now);
        return err;
      }
      if IsThrottle(err) {
        var _, _, _ := breaker.Trip(now);
        if Is(err, RateLimited) || Is(err, TruncatedResponse)
          || (Is(err, Unauthorized) && breaker.everProviderSuccess) {
          if pacer != null {
            pacer.OnThrottle();
          }
        }
        return err;
      }
      if IsBenignMiss(err) {
        var _ := breaker.RecordBenignMiss();
        return err;
      }
      return Wrap("lane " + name + ": find lyrics: ", err);
    }
  }

  // ----- The ramp counts throttles -----

  function LaneRun(c: Circuit, events: seq<LaneEvent>): Circuit {
    if events == [] then c else Observe(LaneRun(c, events[..|events| - 1]), events[|events| - 1])
  }

  /** Outcomes ranked AuthRateLimit, renewals aside, since the last success or benign miss. */
  function ThrottlesSinceReset(events: seq<LaneEvent>): nat {
    if events == [] then 0
    else
      var before := ThrottlesSinceReset(events[..|events| - 1]);
      match events[|events| - 1]
      case Ask(_) => before
      case Return(err, _) =>
        match ClassifyOutcome(err)
        case Success => 0
        case BenignMiss => 0
        case AuthRateLimit => if Is(err.value, TokenRenewalRequired) then before else before + 1
        case _ => before
  }

  ghost predicate SomeSuccess(events: seq<LaneEvent>) {
    exists i :: 0 <= i < |events| && events[i].Return? && events[i].err.None?
  }

  /** Whatever else happened, a renewal shuts the lane for one full cap, to the nanosecond, and neither
      moves the ramp nor vouches for the token. */
  lemma RenewalHoldsFullCap(base: Duration, cap: Duration, events: seq<LaneEvent>, err: Error, now: int, later: int)
    requires TokenRenewalRequired in err.chain
    ensures var before, after := LaneRun(Fresh(base, cap), events),
                                 LaneRun(Fresh(base, cap), events + [Return(Some(err), now)]);
            && (GateOf(after, later) == Open <==> later < now + cap as int)
            && after.trips == before.trips && after.everSucceeded == before.everSucceeded
  {
    var e := Return(Some(err), now);
    assert (events + [e])[..|events|] == events;
    SettingsStay(base, cap, events);
  }

  lemma {:induction false} SettingsStay(base: Duration, cap: Duration, events: seq<LaneEvent>)
    ensures LaneRun(Fresh(base, cap), events).base == base && LaneRun(Fresh(base, cap), events).cap == cap
    ensures LaneRun(Fresh(base, cap), events).everSucceeded <==> SomeSuccess(events)
  {
    if events != [] {
      var n := |events| - 1;
      SettingsStay(base, cap, events[..n]);
      assert forall i :: 0 <= i < n ==> events[..n][i] == events[i];
      assert SomeSuccess(events) <==> SomeSuccess(events[..n]) || (events[n].Return? && events[n].err.None?);
    }
  }

  /** After any run an error slows the pacer exactly when it is no renewal and is a rate limit, a
      truncation, or a 401 on a token that has worked before. */
  lemma PacerSlowsIff(base: Duration, cap: Duration, events: seq<LaneEvent>, err: Error)
    ensures Ratchets(err, LaneRun(Fresh(base, cap), events).everSucceeded) <==>
            && TokenRenewalRequired !in err.chain
            && (RateLimited in err.chain || TruncatedResponse in err.chain
                || (Unauthorized in err.chain && SomeSuccess(events)))
  {
    SettingsStay(base, cap, events);
  }

  /** The lane's own sentinel, wrapped together with a throttle or a miss: the breaker acts on the one,
      the classification on the other. */
  predicate Forged(err: Error) {
    LaneUnavailable in err.chain && !Is(err, TokenRenewalRequired) && (IsThrottle(err) || IsBenignMiss(err))
  }

  /** No provider returns such an error. */
  ghost predicate NoneForged(events: seq<LaneEvent>) {
    forall i :: 0 <= i < |events| && events[i].Return? && events[i].err.Some? ==> !Forged(events[i].err.value)
  }

  /** Any interleaving of callers: the ramp position is the number of throttles since the last reset
      as the orchestrator's own classification counts them, as long as no error is forged. */
  lemma {:induction false} RampCountsThrottles(base: Duration, cap: Duration, events: seq<LaneEvent>)
    requires NoneForged(events)
    ensures LaneRun(Fresh(base, cap), events).trips == ThrottlesSinceReset(events)
    ensures var c := LaneRun(Fresh(base, cap), events); c.probing ==> c.openUntil.None?
  {
    if events != [] {
      RampCountsThrottles(base, cap, events[..|events| - 1]);
    }
  }

  /** The condition is needed for every such error: after one throttle it moves the ramp, up or to zero,
      and the classification counts nothing. */
  lemma ForgedMiscounts(base: Duration, cap: Duration, err: Error)
    requires Forged(err)
    ensures var events := [Return(Some(Base(RateLimited)), 0), Return(Some(err), 0)];
      LaneRun(Fresh(base, cap), events).trips != ThrottlesSinceReset(events)
  {
    var first, second := Return(Some(Base(RateLimited)), 0), Return(Some(err), 0);
    var c := Fresh(base, cap);
    assert [first, second][..1] == [first] && [first][..0] == [];
    assert LaneRun(c, []) == c && ThrottlesSinceReset([]) == 0;
    assert ClassifyOutcome(first.err) == AuthRateLimit && !Is(first.err.value, TokenRenewalRequired);
    assert LaneRun(c, [first]) == Observe(c, first) && ThrottlesSinceReset([first]) == 1;
  }

  /** The two classifications part exactly on errors that wrap the lane's own sentinel: one that is
      also a throttle or a miss moves the breaker although it ranks as Unavailable. */
  lemma ClassificationsAgreeIff(err: Error)
    ensures (Is(err, TokenRenewalRequired) || IsThrottle(err) <==> ClassifyOutcome(Some(err)) == AuthRateLimit)
            && (IsBenignMiss(err) && !Is(err, TokenRenewalRequired) && !IsThrottle(err) <==>
              ClassifyOutcome(Some(err)) == BenignMiss)
            <==>
            !(LaneUnavailable in err.chain && (Is(err, TokenRenewalRequired) || IsThrottle(err) || IsBenignMiss(err)))
  {
  }

  // ----- Sequential throttling backs off geometrically -----

  /** One FindLyrics of a lane whose provider throttles every call: the gate is read at `asked`, the
      provider, if called, starts at `started`, and the trip is recorded at `failed`. */
  datatype Attempt = Attempt(asked: int, started: int, failed: int)

  ghost predicate Sequential(attempts: seq<Attempt>) {
    && (forall i :: 0 <= i < |attempts| ==> attempts[i].asked <= attempts[i].started <= attempts[i].failed)
    && (forall i, j :: 0 <= i < j < |attempts| ==> attempts[i].failed <= attempts[j].asked)
  }

  /** The breaker after a series of throttled attempts, and when the provider calls started. */
  function Throttled(base: Duration, cap: Duration, attempts: seq<Attempt>): (Circuit, seq<int>) {
    if attempts == [] then (Fresh(base, cap), [])
    else
      var (c, starts) := Throttled(base, cap, attempts[..|attempts| - 1]);
      var a := attempts[|attempts| - 1];
      if GateOf(c, a.asked) == Open then (c, starts)
      else (After(After(c, Allow(a.asked)), Trip(a.failed)), starts + [a.started])
  }

  /** The waits imposed by the first n throttles. */
  function TotalDelay(n: nat, base: int, cap: int): int {
    if n == 0 then 0 else TotalDelay(n - 1, base, cap) + Delay(n, base, cap)
  }

  lemma {:induction false} ThrottledState(base: Duration, cap: Duration, attempts: seq<Attempt>)
    requires Sequential(attempts)
    ensures var (c, starts) := Throttled(base, cap, attempts);
      && c.base == base && c.cap == cap && c.trips == |starts|
      && (starts == [] ==> c.openUntil.None?)
      && (starts != [] ==>
        c.openUntil.Some? && c.openUntil.value >= starts[|starts| - 1] + Delay(|starts|, base as int, cap as int))
      && (forall k :: 0 < k < |starts| ==> starts[k] >= starts[k - 1] + Delay(k, base as int, cap as int))
  {
    if attempts != [] {
      ThrottledState(base, cap, attempts[..|attempts| - 1]);
    }
  }

  /** Call n+1 starts no earlier than the sum of the first n windows after call 1, each of them
      min(base * 2^(i-1), cap). */
  lemma {:induction false} ThrottledCallsBackOff(base: Duration, cap: Duration, attempts: seq<Attempt>, n: nat)
    requires Sequential(attempts) && n < |Throttled(base, cap, attempts).1|
    ensures Throttled(base, cap, attempts).1[n] >= Throttled(base, cap, attempts).1[0]
            + TotalDelay(n, base as int, cap as int)
  {
    if n > 0 {
      ThrottledCallsBackOff(base, cap, attempts, n - 1);
      ThrottledState(base, cap, attempts);
    }
  }
}
