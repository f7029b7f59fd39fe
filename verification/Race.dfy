/** Parallel dispatch: every lane at once, results, upgrade timer and cancellation in any order
    (internal/orchestrator/parallel.go).

    A schedule lists which select branch fires at each turn of the loop. What the loop may answer is
    a relation over the schedule; the loop itself is proved to meet it for every legal schedule. */
module Race {
  import opened Prelude
  import opened Outcome
  import opened Dispatch

  /** One turn of the select. */
  datatype Event = Receive(lane: nat) | WindowElapsed | ParentDone

  /** A lane that reports context.Canceled carries no catalog signal. */
  predicate Heard(reply: LaneReply) {
    !(reply.err.Some? && Is(reply.err.value, ContextCanceled))
  }

  predicate SuitableSynced(reply: LaneReply, guard: Option<ScriptGuard>) {
    Suitable(reply, guard) && QualityOf(reply.song) >= QUALITY_SYNCED
  }

  predicate InRange(replies: seq<LaneReply>, schedule: seq<Event>) {
    forall k :: 0 <= k < |schedule| && schedule[k].Receive? ==> schedule[k].lane < |replies|
  }

  /** How many lanes have reported in the first n turns. */
  function ReceiveCount(schedule: seq<Event>, n: nat): (c: nat)
    requires n <= |schedule|
    ensures c <= n
  {
    if n == 0 then 0 else ReceiveCount(schedule, n - 1) + (if schedule[n - 1].Receive? then 1 else 0)
  }

  /** The replies received in the first n turns, in arrival order, cancelled ones dropped. */
  function Got(replies: seq<LaneReply>, schedule: seq<Event>, n: nat): seq<LaneReply>
    requires InRange(replies, schedule) && n <= |schedule|
  {
    if n == 0 then []
    else
      var e := schedule[n - 1];
      Got(replies, schedule, n - 1) + (if e.Receive? && Heard(replies[e.lane]) then [replies[e.lane]] else [])
  }

  /** got[h] is the first suitable reply: the one the loop holds. */
  ghost predicate FirstSuitable(got: seq<LaneReply>, guard: Option<ScriptGuard>, h: int) {
    0 <= h < |got| && Suitable(got[h], guard) && forall j :: 0 <= j < h ==> !Suitable(got[j], guard)
  }

  /** The held reply after `got`, or -1 while there is none. */
  function HeldOf(got: seq<LaneReply>, guard: Option<ScriptGuard>): (h: int)
    ensures -1 <= h < |got|
  {
    if got == [] then -1
    else
      var h := HeldOf(got[..|got| - 1], guard);
      if h < 0 && Suitable(got[|got| - 1], guard) then |got| - 1 else h
  }

  lemma {:induction false} HeldIsFirst(got: seq<LaneReply>, guard: Option<ScriptGuard>)
    ensures if HasSuitable(got, guard) then FirstSuitable(got, guard, HeldOf(got, guard)) else HeldOf(got, guard) == -1
  {
    if got != [] {
      var init := got[..|got| - 1];
      HeldIsFirst(init, guard);
      assert forall j :: 0 <= j < |init| ==> got[j] == init[j];
      if HasSuitable(got, guard) && HeldOf(init, guard) < 0 {
        var j :| 0 <= j < |got| && Suitable(got[j], guard);
        assert j == |init|;
      }
    }
  }

  /** The loop's three locals for the held song. */
  datatype Holding = Holding(song: Song, lane: string, have: bool)

  function Held(got: seq<LaneReply>, guard: Option<ScriptGuard>): Holding {
    var h := HeldOf(got, guard);
    if h < 0 then Holding(NO_SONG, "", false) else Holding(got[h].song, got[h].name, true)
  }

  lemma HeldStep(got: seq<LaneReply>, res: LaneReply, guard: Option<ScriptGuard>)
    ensures Held(got + [res], guard)
            == if !Held(got, guard).have && Suitable(res, guard) then Holding(res.song, res.name, true)
              else Held(got, guard)
  {
    assert (got + [res])[..|got|] == got;
  }

  ghost predicate HasSuitable(got: seq<LaneReply>, guard: Option<ScriptGuard>) {
    exists h :: 0 <= h < |got| && Suitable(got[h], guard)
  }

  /** Turn k can happen: each lane reports once, the timer fires only once a suitable song is held,
      and ctx.Done() is ready only after the parent was cancelled. */
  ghost predicate LegalTurn(replies: seq<LaneReply>, guard: Option<ScriptGuard>, ctx: Context, schedule: seq<Event>,
                            k: int)
    requires InRange(replies, schedule) && 0 <= k < |schedule|
  {
    match schedule[k]
    case Receive(_) => schedule[k] !in schedule[..k]
    case WindowElapsed => HasSuitable(Got(replies, schedule, k), guard)
    case ParentDone => ctx.Err(k + 1).Some?
  }

  ghost predicate Legal(replies: seq<LaneReply>, guard: Option<ScriptGuard>, ctx: Context, schedule: seq<Event>) {
    && InRange(replies, schedule)
    && forall k :: 0 <= k < |schedule| ==> LegalTurn(replies, guard, ctx, schedule, k)
  }

  lemma LegalAt(replies: seq<LaneReply>, guard: Option<ScriptGuard>, ctx: Context, schedule: seq<Event>, k: int)
    requires Legal(replies, guard, ctx, schedule) && 0 <= k < |schedule|
    ensures LegalTurn(replies, guard, ctx, schedule, k)
  {
  }

  /** The turn after which `reported` lanes have reported makes the loop return. */
  predicate TurnCommits(replies: seq<LaneReply>, guard: Option<ScriptGuard>, e: Event, reported: int) {
    e.Receive? && e.lane < |replies| ==> SuitableSynced(replies[e.lane], guard) || reported == |replies|
  }

  predicate Commits(replies: seq<LaneReply>, guard: Option<ScriptGuard>, schedule: seq<Event>, k: int)
    requires 0 <= k < |schedule|
  {
    TurnCommits(replies, guard, schedule[k], ReceiveCount(schedule, k + 1))
  }

  /** None of the first n turns commits. */
  ghost predicate Quiet(replies: seq<LaneReply>, guard: Option<ScriptGuard>, schedule: seq<Event>, n: int)
    requires 0 <= n <= |schedule|
  {
    forall j :: 0 <= j < n ==> !Commits(replies, guard, schedule, j)
  }

  lemma QuietStep(replies: seq<LaneReply>, guard: Option<ScriptGuard>, schedule: seq<Event>, n: int)
    requires 0 <= n < |schedule| && Quiet(replies, guard, schedule, n) && !Commits(replies, guard, schedule, n)
    ensures Quiet(replies, guard, schedule, n + 1)
  {
  }

  ghost predicate FirstCommit(replies: seq<LaneReply>, guard: Option<ScriptGuard>, schedule: seq<Event>, k: int)
    requires InRange(replies, schedule)
  {
    && 0 <= k < |schedule|
    && Commits(replies, guard, schedule, k)
    && Quiet(replies, guard, schedule, k)
  }

  ghost predicate HeldAnswer(got: seq<LaneReply>, guard: Option<ScriptGuard>, song: Song, err: Option<Error>) {
    err.None? && exists h :: FirstSuitable(got, guard, h) && song == Credited(got[h], ConsultedNames(got))
  }

  /** What a committing turn returns, `got` being the replies heard including this turn's. */
  ghost predicate TurnAnswer(replies: seq<LaneReply>, guard: Option<ScriptGuard>, e: Event, got: seq<LaneReply>,
                             cancelled: Option<Error>, song: Song, err: Option<Error>)
    requires e.Receive? ==> e.lane < |replies|
  {
    if e.Receive? && SuitableSynced(replies[e.lane], guard) then
      err.None? && song == Credited(replies[e.lane], ConsultedNames(got))
    else if cancelled.Some? then
      song == NO_SONG && err == cancelled
    else if HasSuitable(got, guard) then
      HeldAnswer(got, guard, song, err)
    else
      Resolved(got, None, song, err)
  }

  ghost predicate Answer(replies: seq<LaneReply>, guard: Option<ScriptGuard>, ctx: Context, schedule: seq<Event>,
                         k: int, song: Song, err: Option<Error>)
    requires InRange(replies, schedule) && 0 <= k < |schedule|
  {
    TurnAnswer(replies, guard, schedule[k], Got(replies, schedule, k + 1), ctx.Err(k + 1), song, err)
  }

  /** The whole call: refused at entry, answered at `turn`, or still waiting when the schedule ends. */
  ghost predicate RaceAnswer(replies: seq<LaneReply>, guard: Option<ScriptGuard>, ctx: Context, schedule: seq<Event>,
                             turn: int, answered: bool, song: Song, err: Option<Error>)
    requires InRange(replies, schedule)
  {
    if ctx.Err(0).Some? then answered && song == NO_SONG && err == ctx.Err(0)
    else if answered then
      FirstCommit(replies, guard, schedule, turn) && Answer(replies, guard, ctx, schedule, turn, song, err)
    else Quiet(replies, guard, schedule, |schedule|)
  }

  /** The locals of findParallel's loop and the branch that takes in one result. */
  class Collector {
    const r: DispatchResult
    var heldSong: Song
    var heldLane: string
    var haveHeld: bool
    var upgrade: bool
    var pending: int
    var consulted: seq<string>

    ghost var got: seq<LaneReply>

    ghost predicate Valid(guard: Option<ScriptGuard>)
      reads this, r
    {
      && r.Valid() && r.consulted == |consulted|
      && consulted == ConsultedNames(got)
      && Holding(heldSong, heldLane, haveHeld) == Held(got, guard)
      && (!haveHeld ==> r.seen == got)
    }

    /** The loop is about to take turn `turn` of the schedule. */
    ghost predicate At(replies: seq<LaneReply>, guard: Option<ScriptGuard>, schedule: seq<Event>, turn: int)
      reads this, r
      requires InRange(replies, schedule) && 0 <= turn <= |schedule|
    {
      && Valid(guard) && (upgrade <==> haveHeld)
      && got == Got(replies, schedule, turn)
      && pending == |replies| - ReceiveCount(schedule, turn)
      && (pending > 0 || replies == [])
    }

    /** Nothing held, every lane pending, no turn taken. */
    constructor (replies: seq<LaneReply>, ghost guard: Option<ScriptGuard>, ghost schedule: seq<Event>)
      requires InRange(replies, schedule)
      ensures At(replies, guard, schedule, 0) && fresh(r) && got == [] && !haveHeld
    {
      r := new DispatchResult();
      heldSong, heldLane, haveHeld, upgrade, consulted := NO_SONG, "", false, false, [];
      pending := |replies|;
      got := [];
    }

    /** One `case res := <-results`. Returns the song when the result commits at once. */
    method Take(res: LaneReply, guard: Option<ScriptGuard>) returns (won: Option<Song>)
      requires Valid(guard) && (upgrade <==> haveHeld)
      modifies this, r
      ensures pending == old(pending) - 1
      ensures got == (if Heard(res) then old(got) + [res] else old(got))
      ensures won == if SuitableSynced(res, guard) then Some(Credited(res, ConsultedNames(got))) else None
      ensures won.None? ==> Valid(guard) && (pending > 0 ==> (upgrade <==> haveHeld))
    {
      won := None;
      pending := pending - 1;
      var class_ := ClassifyOutcome(res.err);
      if res.err.Some? && Is(res.err.value, ContextCanceled) {
      } else if class_ == Unavailable {
        Pass(res, guard);
      } else if Suitable(res, guard) {
        won := Hold(res, guard);
      } else {
        FallBack(res, guard, class_);
      }
    }

    /** Ghost bookkeeping for a lane whose breaker was open. */
    ghost method Pass(res: LaneReply, guard: Option<ScriptGuard>)
      requires Valid(guard) && !Consulted(res)
      modifies this`got, r`seen
      ensures Valid(guard) && got == old(got) + [res]
    {
      HeldStep(got, res, guard);
      NamesStep(got, res);
      got := got + [res];
      if !haveHeld { r.Skip(res); }
    }

    /** A suitable song: a synced one wins, the first unsynced one is held and arms the window. */
    method Hold(res: LaneReply, guard: Option<ScriptGuard>) returns (won: Option<Song>)
      requires Valid(guard) && Suitable(res, guard)
      modifies this, r
      ensures pending == old(pending) && got == old(got) + [res]
      ensures won == if SuitableSynced(res, guard) then Some(Credited(res, ConsultedNames(got))) else None
      ensures won.None? ==> Valid(guard) && haveHeld && (upgrade <==> old(upgrade) || pending > 0)
    {
      HeldStep(got, res, guard);
      NamesStep(got, res);
      got := got + [res];
      r.consulted := r.consulted + 1;
      consulted := consulted + [res.name];
      if QualityOf(res.song) >= QUALITY_SYNCED {
        return Some(res.song.(winningLane := res.name, laneAttempts := LaneAttemptsFor(consulted, res.name)));
      }
      won := None;
      if !haveHeld {
        heldSong, haveHeld, heldLane := res.song, true, res.name;
      }
      if !upgrade && pending > 0 {
        upgrade := true;
      }
    }

    /** Anything else a consulted lane reported: a song that is not suitable, or an error. */
    method FallBack(res: LaneReply, guard: Option<ScriptGuard>, class_: OutcomeClass)
      requires Valid(guard) && !Suitable(res, guard) && Consulted(res) && class_ == ClassifyOutcome(res.err)
      modifies this, r
      ensures pending == old(pending) && upgrade == old(upgrade) && haveHeld == old(haveHeld)
      ensures got == old(got) + [res]
      ensures Valid(guard)
    {
      HeldStep(got, res, guard);
      NamesStep(got, res);
      got := got + [res];
      r.consulted := r.consulted + 1;
      consulted := consulted + [res.name];
      if res.err.None? {
        r.Retain(res.song, res.name);
      } else {
        r.RankErr(res.err.value, class_, res.name, res.song);
      }
    }

    /** The held song, unless the parent was cancelled meanwhile. */
    method CommitHeld(ghost guard: Option<ScriptGuard>, cancelled: Option<Error>)
      returns (song: Song, err: Option<Error>)
      requires Valid(guard) && (cancelled.None? ==> haveHeld)
      ensures if cancelled.Some? then song == NO_SONG && err == cancelled
              else HasSuitable(got, guard) && HeldAnswer(got, guard, song, err)
    {
      if cancelled.Some? {
        return NO_SONG, cancelled;
      }
      HeldIsFirst(got, guard);
      song := heldSong.(winningLane := heldLane, laneAttempts := LaneAttemptsFor(consulted, heldLane));
      err := None;
      assert song == Credited(got[HeldOf(got, guard)], ConsultedNames(got));
    }

    /** Every lane has reported and none won outright. */
    method Finish(ghost guard: Option<ScriptGuard>, cancelled: Option<Error>) returns (song: Song, err: Option<Error>)
      requires Valid(guard)
      ensures if cancelled.Some? then song == NO_SONG && err == cancelled
              else if HasSuitable(got, guard) then HeldAnswer(got, guard, song, err)
              else Resolved(got, None, song, err)
    {
      HeldIsFirst(got, guard);
      if cancelled.Some? {
        return NO_SONG, cancelled;
      }
      if haveHeld {
        song, err := CommitHeld(guard, None);
      } else {
        song, err := r.Resolve(consulted, None);
      }
    }

    /** One turn of the select. */
    method Turn(replies: seq<LaneReply>, guard: Option<ScriptGuard>, e: Event, cancelled: Option<Error>)
      returns (v: Option<(Song, Option<Error>)>)
      requires Valid(guard) && (upgrade <==> haveHeld)
      requires match e
               case Receive(lane) => lane < |replies|
               case WindowElapsed => HasSuitable(got, guard)
               case ParentDone => cancelled.Some?
      modifies this, r
      ensures pending == old(pending) - (if e.Receive? then 1 else 0)
      ensures got == old(got) + (if e.Receive? && Heard(replies[e.lane]) then [replies[e.lane]] else [])
      ensures v.Some? <==> TurnCommits(replies, guard, e, |replies| - pending)
      ensures v.Some? ==> TurnAnswer(replies, guard, e, got, cancelled, v.value.0, v.value.1)
      ensures v.None? ==> Valid(guard) && (pending > 0 ==> (upgrade <==> haveHeld))
    {
      v := None;
      if e.Receive? {
        var won := Take(replies[e.lane], guard);
        if won.Some? {
          v := Some((won.value, None));
        } else if pending == 0 {
          var song, err := Finish(guard, cancelled);
          v := Some((song, err));
        }
      } else if e.ParentDone? {
        v := Some((NO_SONG, cancelled));
      } else {
        HeldIsFirst(got, guard);
        var song, err := CommitHeld(guard, cancelled);
        v := Some((song, err));
      }
    }

    /** The loop's turn `turn`: what it commits is the schedule's answer there, else the loop goes on. */
    method Select(replies: seq<LaneReply>, guard: Option<ScriptGuard>, ctx: Context, schedule: seq<Event>, turn: int)
      returns (v: Option<(Song, Option<Error>)>)
      requires InRange(replies, schedule) && 0 <= turn < |schedule| && LegalTurn(replies, guard, ctx, schedule, turn)
      requires At(replies, guard, schedule, turn)
      modifies this, r
      ensures v.Some? <==> Commits(replies, guard, schedule, turn)
      ensures v.Some? ==> Answer(replies, guard, ctx, schedule, turn, v.value.0, v.value.1)
      ensures v.None? ==> At(replies, guard, schedule, turn + 1)
    {
      v := Turn(replies, guard, schedule[turn], ctx.Err(turn + 1));
    }
  }

  lemma QuietStart(replies: seq<LaneReply>, guard: Option<ScriptGuard>, schedule: seq<Event>)
    ensures Quiet(replies, guard, schedule, 0)
  {
  }

  lemma CommitsFirst(replies: seq<LaneReply>, guard: Option<ScriptGuard>, schedule: seq<Event>, k: int)
    requires InRange(replies, schedule) && 0 <= k < |schedule|
    requires Quiet(replies, guard, schedule, k) && Commits(replies, guard, schedule, k)
    ensures FirstCommit(replies, guard, schedule, k)
  {
  }

  /** The select loop, up to the turn that returns. */
  method Collect(replies: seq<LaneReply>, guard: Option<ScriptGuard>, ctx: Context, schedule: seq<Event>)
    returns (v: Option<(Song, Option<Error>)>, turn: int)
    requires Legal(replies, guard, ctx, schedule)
    ensures v.Some? ==> FirstCommit(replies, guard, schedule, turn)
                        && Answer(replies, guard, ctx, schedule, turn, v.value.0, v.value.1)
    ensures v.None? ==> Quiet(replies, guard, schedule, |schedule|)
  {
    v, turn := None, 0;
    var c := new Collector(replies, guard, schedule);
    QuietStart(replies, guard, schedule);
    while turn < |schedule|
      invariant 0 <= turn <= |schedule| && v.None?
      invariant fresh(c) && fresh(c.r) && c.At(replies, guard, schedule, turn)
      invariant Quiet(replies, guard, schedule, turn)
    {
      LegalAt(replies, guard, ctx, schedule, turn);
      v := c.Select(replies, guard, ctx, schedule, turn);
      if v.Some? {
        CommitsFirst(replies, guard, schedule, turn);
        return;
      }
      QuietStep(replies, guard, schedule, turn);
      turn := turn + 1;
    }
  }

  /** findParallel. `schedule` resolves the select; the loop stops early when it runs out.
      `turn` is the turn at which it returned. */
  method FindParallel(replies: seq<LaneReply>, guard: Option<ScriptGuard>, ctx: Context, schedule: seq<Event>)
    returns (answered: bool, song: Song, err: Option<Error>, turn: int)
    requires Legal(replies, guard, ctx, schedule)
    ensures RaceAnswer(replies, guard, ctx, schedule, turn, answered, song, err)
  {
    if ctx.Err(0).Some? {
      return true, NO_SONG, ctx.Err(0), 0;
    }
    var v;
    v, turn := Collect(replies, guard, ctx, schedule);
    answered := v.Some?;
    song, err := if answered then v.value.0 else NO_SONG, if answered then v.value.1 else None;
  }
}
