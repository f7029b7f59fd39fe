/** The watcher's debounce machine (internal/watcher/watcher.go, dispatch). Timers belong to the
    runtime: an armed timer may expire at any time, its callback is then in flight until the loop
    receives it, and Stop may come too late to prevent that. */
module Watcher {
  import opened Prelude

  datatype Pending = Pending(lib: int, timer: nat)

  /** `owner[t]` is the path timer t was created for. */
  datatype World = World(timers: map<string, Pending>, owner: seq<string>, armed: set<nat>, inFlight: multiset<string>)

  datatype Event =
    | Accept(lib: int, path: string)
    | Expire(timer: nat)
    | Deliver(path: string)

  const IDLE := World(map[], [], {}, multiset{})

  predicate Enabled(w: World, e: Event) {
    match e
    case Accept(_, _) => true
    case Expire(t) => t in w.armed && t < |w.owner|
    case Deliver(p) => p in w.inFlight
  }

  function Next(w: World, e: Event): World
    requires Enabled(w, e)
  {
    match e
    case Accept(lib, p) =>
      if p in w.timers then
        w.(timers := w.timers[p := w.timers[p].(lib := lib)], armed := w.armed + {w.timers[p].timer})
      else
        w.(timers := w.timers[p := Pending(lib, |w.owner|)], owner := w.owner + [p], armed := w.armed + {|w.owner|})
    case Expire(t) => w.(armed := w.armed - {t}, inFlight := w.inFlight + multiset{w.owner[t]})
    case Deliver(p) => w.(timers := w.timers - {p}, inFlight := w.inFlight - multiset{p})
  }

  /** The scan a turn starts, if any: a delivery for a path that is still pending. */
  function Scan(w: World, e: Event): Option<(int, string)> {
    if e.Deliver? && e.path in w.timers then Some((w.timers[e.path].lib, e.path)) else None
  }

  /** The dispatch loop's state together with the runtime timers it drives. */
  class Dispatcher {
    var timers: map<string, Pending>
    var owner: seq<string>
    var armed: set<nat>
    var inFlight: multiset<string>

    function View(): World
      reads this
    {
      World(timers, owner, armed, inFlight)
    }

    constructor ()
      ensures View() == IDLE
    {
      timers, owner, armed, inFlight := map[], [], {}, multiset{};
    }

    /** `case ev := <-events`. Stop is best effort; Reset arms the timer whatever Stop achieved. */
    method OnEvent(lib: int, path: string)
      modifies this
      ensures View() == Next(old(View()), Accept(lib, path))
    {
      if path in timers {
        var p := timers[path];
        timers := timers[path := p.(lib := lib)];
        armed := armed - {p.timer};
        armed := armed + {p.timer};
        assert armed == old(armed) + {p.timer};
        return;
      }
      timers := timers[path := Pending(lib, |owner|)];
      armed := armed + {|owner|};
      owner := owner + [path];
    }

    /** The runtime runs an armed timer's callback. */
    method OnExpiry(timer: nat)
      requires Enabled(View(), Expire(timer))
      modifies this
      ensures View() == Next(old(View()), Expire(timer))
    {
      armed := armed - {timer};
      inFlight := inFlight + multiset{owner[timer]};
    }

    /** `case path := <-fired`. */
    method OnFired(path: string) returns (scan: Option<(int, string)>)
      requires Enabled(View(), Deliver(path))
      modifies this
      ensures View() == Next(old(View()), Deliver(path)) && scan == Scan(old(View()), Deliver(path))
    {
      inFlight := inFlight - multiset{path};
      if path !in timers {
        assert timers == timers - {path};
        return None;
      }
      scan := Some((timers[path].lib, path));
      timers := timers - {path};
    }
  }

  // ----- Over runs -----

  ghost predicate StepAt(run: seq<World>, events: seq<Event>, k: nat)
    requires k < |events| && |run| == |events| + 1
  {
    Enabled(run[k], events[k]) && run[k + 1] == Next(run[k], events[k])
  }

  ghost predicate IsRun(run: seq<World>, events: seq<Event>) {
    && |run| == |events| + 1 && run[0] == IDLE
    && forall k :: 0 <= k < |events| ==> StepAt(run, events, k)
  }

  /** Every pending path has its timer armed or a callback for it in flight. */
  ghost predicate Covered(w: World) {
    forall p :: p in w.timers ==>
      && w.timers[p].timer < |w.owner| && w.owner[w.timers[p].timer] == p
      && (w.timers[p].timer in w.armed || p in w.inFlight)
  }

  lemma StepKeepsCovered(w: World, e: Event)
    requires Covered(w) && Enabled(w, e)
    ensures Covered(Next(w, e))
  {
    match e
    case Accept(_, _) =>
    case Expire(_) =>
    case Deliver(_) =>
  }

  lemma {:induction false} AlwaysCovered(run: seq<World>, events: seq<Event>, k: nat)
    requires IsRun(run, events) && k < |run|
    ensures Covered(run[k])
  {
    if k > 0 {
      AlwaysCovered(run, events, k - 1);
      assert StepAt(run, events, k - 1);
      StepKeepsCovered(run[k - 1], events[k - 1]);
    }
  }

  ghost predicate ScannedAt(run: seq<World>, events: seq<Event>, j: nat, path: string)
    requires |run| == |events| + 1 && j < |events|
  {
    events[j].Deliver? && events[j].path == path && Scan(run[j], events[j]).Some?
  }

  /** An accepted event's path stays pending until it is scanned. */
  lemma {:induction false} PendingOrScanned(run: seq<World>, events: seq<Event>, i: nat, n: nat)
    requires IsRun(run, events) && i < n < |run| && events[i].Accept?
    ensures events[i].path in run[n].timers || exists j :: i < j < n && ScannedAt(run, events, j, events[i].path)
  {
    assert StepAt(run, events, n - 1);
    if i < n - 1 {
      PendingOrScanned(run, events, i, n - 1);
      var path := events[i].path;
      if path in run[n - 1].timers && path !in run[n].timers {
        assert ScannedAt(run, events, n - 1, path);
      }
    }
  }

  /** Once no timer is armed and no callback is in flight, every accepted event has been followed by
      a scan of its directory. */
  lemma NothingIsLost(run: seq<World>, events: seq<Event>, i: nat)
    requires IsRun(run, events) && i < |events| && events[i].Accept?
    requires run[|events|].armed == {} && run[|events|].inFlight == multiset{}
    ensures exists j :: i < j < |events| && ScannedAt(run, events, j, events[i].path)
  {
    AlwaysCovered(run, events, |events|);
    PendingOrScanned(run, events, i, |events|);
  }

  /** A scan runs for the library of the latest event accepted for its path. */
  lemma {:induction false} ScanUsesLatestLibrary(run: seq<World>, events: seq<Event>, k: nat, path: string)
    returns (i: nat)
    requires IsRun(run, events) && k < |run| && path in run[k].timers
    ensures i < k && events[i] == Accept(run[k].timers[path].lib, path)
    ensures forall j :: i < j < k ==> !(events[j].Accept? && events[j].path == path)
  {
    assert k > 0;
    assert StepAt(run, events, k - 1);
    if events[k - 1].Accept? && events[k - 1].path == path {
      i := k - 1;
    } else {
      i := ScanUsesLatestLibrary(run, events, k - 1, path);
    }
  }

  function Accepts(events: seq<Event>, n: nat): nat
    requires n <= |events|
  {
    if n == 0 then 0 else Accepts(events, n - 1) + (if events[n - 1].Accept? then 1 else 0)
  }

  function Scans(run: seq<World>, events: seq<Event>, n: nat): nat
    requires |run| == |events| + 1 && n <= |events|
  {
    if n == 0 then 0 else Scans(run, events, n - 1) + (if Scan(run[n - 1], events[n - 1]).Some? then 1 else 0)
  }

  lemma MapSizes(m: map<string, Pending>, p: string, v: Pending)
    ensures |m[p := v]| == |m| + (if p in m then 0 else 1)
    ensures |m - {p}| == |m| - (if p in m then 1 else 0)
  {
    assert m[p := v].Keys == m.Keys + {p} && (m - {p}).Keys == m.Keys - {p};
    assert |m[p := v].Keys| == |m.Keys| + (if p in m then 0 else 1);
    assert |(m - {p}).Keys| == |m.Keys| - (if p in m then 1 else 0);
  }

  /** Scans never outnumber accepted events, even with stale callbacks: each one uses up a pending
      entry, and each entry was made by an event. */
  lemma {:induction false} ScansNeverOutnumberEvents(run: seq<World>, events: seq<Event>, n: nat)
    requires IsRun(run, events) && n <= |events|
    ensures Scans(run, events, n) + |run[n].timers| <= Accepts(events, n)
  {
    if n > 0 {
      ScansNeverOutnumberEvents(run, events, n - 1);
      assert StepAt(run, events, n - 1);
      var w, e := run[n - 1], events[n - 1];
      match e
      case Accept(lib, p) =>
        MapSizes(w.timers, p, Pending(lib, |w.owner|));
        if p in w.timers { MapSizes(w.timers, p, w.timers[p].(lib := lib)); }
      case Expire(_) =>
      case Deliver(p) => MapSizes(w.timers, p, Pending(0, 0));
    }
  }

  function StaleEvents(lib: int, path: string): seq<Event> {
    [Accept(lib, path), Expire(0), Accept(lib, path), Deliver(path), Expire(0), Deliver(path)]
  }

  function StaleRun(lib: int, path: string): seq<World> {
    var pending := map[path := Pending(lib, 0)];
    [IDLE, World(pending, [path], {0}, multiset{}), World(pending, [path], {}, multiset{path}),
     World(pending, [path], {0}, multiset{path}), World(map[], [path], {0}, multiset{}),
     World(map[], [path], {}, multiset{path}), World(map[], [path], {}, multiset{})]
  }

  lemma StaleAccepts(lib: int, path: string)
    ensures StepAt(StaleRun(lib, path), StaleEvents(lib, path), 0)
            && StepAt(StaleRun(lib, path), StaleEvents(lib, path), 2)
  {
  }

  lemma StaleExpiries(lib: int, path: string)
    ensures StepAt(StaleRun(lib, path), StaleEvents(lib, path), 1)
            && StepAt(StaleRun(lib, path), StaleEvents(lib, path), 4)
  {
    assert multiset{} + multiset{path} == multiset{path};
  }

  lemma StaleDeliveries(lib: int, path: string)
    ensures StepAt(StaleRun(lib, path), StaleEvents(lib, path), 3)
            && StepAt(StaleRun(lib, path), StaleEvents(lib, path), 5)
  {
    assert map[path := Pending(lib, 0)] - {path} == map[];
  }

  /** A stale callback is real: an event that arrives after its path's timer expired re-arms the
      timer, is served early by the callback already in flight, and leaves an orphan callback that
      the loop then ignores. */
  lemma StaleCallbackIsHarmless(lib: int, path: string)
    ensures IsRun(StaleRun(lib, path), StaleEvents(lib, path))
    ensures Scan(StaleRun(lib, path)[3], Deliver(path)) == Some((lib, path))
    ensures Scan(StaleRun(lib, path)[5], Deliver(path)) == None
    ensures StaleRun(lib, path)[6] == World(map[], [path], {}, multiset{})
  {
    StaleAccepts(lib, path);
    StaleExpiries(lib, path);
    StaleDeliveries(lib, path);
  }
}
