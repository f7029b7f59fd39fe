/** Ordered dispatch and the accumulator both dispatch modes share
    (internal/orchestrator/orchestrator.go).

    Replies are the lanes' outcomes in the order the loop sees them. Everything the dispatcher
    may answer is said about that sequence alone; the loop is proved against it. */
module Dispatch {
  import opened Prelude
  import opened Outcome

  /** The parent context as the dispatcher observes it: its k-th check of ctx.Err() fails exactly
      when k has reached `cancelledFrom`. */
  datatype Context = Context(cancelledFrom: nat, cause: Error) {
    function Err(check: nat): Option<Error> {
      if check < cancelledFrom then None else Some(cause)
    }
  }

  // ----- What a set of replies is worth -----

  ghost predicate HasSong(rs: seq<LaneReply>) {
    exists k :: 0 <= k < |rs| && rs[k].err.None?
  }

  ghost predicate HasError(rs: seq<LaneReply>) {
    exists k :: 0 <= k < |rs| && rs[k].err.Some? && Consulted(rs[k])
  }

  /** rs[k] is the earliest song of the highest quality. */
  ghost predicate BestAt(rs: seq<LaneReply>, k: int) {
    && 0 <= k < |rs| && rs[k].err.None?
    && forall j :: 0 <= j < |rs| && rs[j].err.None? ==>
         && QualityOf(rs[j].song) <= QualityOf(rs[k].song)
         && (j < k ==> QualityOf(rs[j].song) < QualityOf(rs[k].song))
  }

  function Rank(reply: LaneReply): int {
    ClassifyOutcome(reply.err).Precedence()
  }

  /** rs[k] is the earliest error of the highest precedence among the consulted lanes. */
  ghost predicate TopAt(rs: seq<LaneReply>, k: int) {
    && 0 <= k < |rs| && rs[k].err.Some? && Consulted(rs[k])
    && forall j :: 0 <= j < |rs| && rs[j].err.Some? && Consulted(rs[j]) ==>
         && Rank(rs[j]) <= Rank(rs[k])
         && (j < k ==> Rank(rs[j]) < Rank(rs[k]))
  }

  /** Names of the lanes that reached their provider, in order. */
  function ConsultedNames(rs: seq<LaneReply>): seq<string> {
    if rs == [] then []
    else ConsultedNames(rs[..|rs| - 1]) +
         (if Consulted(rs[|rs| - 1]) then [rs[|rs| - 1].name] else [])
  }

  function LaneAttemptsFor(names: seq<string>, winner: string): seq<LaneAttempt> {
    seq(|names|, i requires 0 <= i < |names| => LaneAttempt(names[i], names[i] == winner))
  }

  /** The song as returned to the worker: tagged with its lane and the per-lane attribution. */
  function Credited(reply: LaneReply, names: seq<string>): Song {
    reply.song.(winningLane := reply.name, laneAttempts := LaneAttemptsFor(names, reply.name))
  }

  /** The final precedence once every lane has reported and none gave a suitable song: best
      available song, then highest-precedence error, then the unavailable sentinel. */
  ghost predicate Resolved(rs: seq<LaneReply>, cancelled: Option<Error>, song: Song, err: Option<Error>) {
    if HasSong(rs) then
      err.None? && exists k :: BestAt(rs, k) && song == Credited(rs[k], ConsultedNames(rs))
    else if HasError(rs) then
      && (exists k :: TopAt(rs, k) && err == rs[k].err)
      && song == NO_SONG.(laneAttempts := LaneAttemptsFor(ConsultedNames(rs), ""))
    else
      && song == NO_SONG
      && err == (if cancelled.Some? then cancelled else Some(Base(LaneUnavailable)))
  }

  // ----- The accumulator -----

  /** The running choices after `rs`, or -1 while there is none. */
  function BestOf(rs: seq<LaneReply>): (k: int)
    ensures -1 <= k < |rs| && (k >= 0 ==> rs[k].err.None?)
  {
    if rs == [] then -1
    else
      var last, k := rs[|rs| - 1], BestOf(rs[..|rs| - 1]);
      if last.err.None? && (k < 0 || QualityOf(last.song) > QualityOf(rs[k].song)) then |rs| - 1 else k
  }

  function TopOf(rs: seq<LaneReply>): (k: int)
    ensures -1 <= k < |rs| && (k >= 0 ==> rs[k].err.Some? && Consulted(rs[k]))
  {
    if rs == [] then -1
    else
      var last, k := rs[|rs| - 1], TopOf(rs[..|rs| - 1]);
      if last.err.Some? && Consulted(last) && (k < 0 || Rank(last) > Rank(rs[k])) then |rs| - 1 else k
  }

  /** The running song is the earliest best one. */
  lemma {:induction false} RunningBest(rs: seq<LaneReply>)
    ensures if HasSong(rs) then BestAt(rs, BestOf(rs)) else BestOf(rs) == -1
  {
    if rs != [] {
      var init := rs[..|rs| - 1];
      RunningBest(init);
      assert forall j :: 0 <= j < |init| ==> rs[j] == init[j];
      if HasSong(rs) && BestOf(init) < 0 {
        var j :| 0 <= j < |rs| && rs[j].err.None?;
        assert j == |init|;
      }
    }
  }

  lemma TopStep(init: seq<LaneReply>, last: LaneReply, k: int)
    requires if HasError(init) then TopAt(init, k) else k == -1
    ensures var rs := init + [last];
      var k' := if last.err.Some? && Consulted(last) && (k < 0 || Rank(last) > Rank(init[k])) then |init| else k;
      if HasError(rs) then TopAt(rs, k') else k' == -1
  {
    var rs := init + [last];
    assert forall j :: 0 <= j < |init| ==> rs[j] == init[j];
    assert rs[|init|] == last;
    if HasError(rs) && k < 0 {
      var j :| 0 <= j < |rs| && rs[j].err.Some? && Consulted(rs[j]);
      assert j == |init|;
    }
  }

  /** The running error is the earliest of the highest precedence. */
  lemma {:induction false} RunningTop(rs: seq<LaneReply>)
    ensures if HasError(rs) then TopAt(rs, TopOf(rs)) else TopOf(rs) == -1
  {
    if rs != [] {
      var init, last := rs[..|rs| - 1], rs[|rs| - 1];
      RunningTop(init);
      TopStep(init, last, TopOf(init));
      assert rs == init + [last];
    }
  }

  datatype Summary = Summary(bestSong: Song, bestLane: string, haveBest: bool, bestQuality: Quality,
                             topErr: Option<Error>, topClass: OutcomeClass)

  function Summarize(rs: seq<LaneReply>): Summary {
    var b, t := BestOf(rs), TopOf(rs);
    Summary(if b < 0 then NO_SONG else rs[b].song,
            if b < 0 then "" else rs[b].name,
            b >= 0,
            if b < 0 then QUALITY_NONE else QualityOf(rs[b].song),
            if t < 0 then None else rs[t].err,
            if t < 0 then Success else ClassifyOutcome(rs[t].err))
  }

  /** One more reply. */
  function Absorb(s: Summary, reply: LaneReply): Summary {
    if reply.err.None? then
      if !s.haveBest || QualityOf(reply.song) > s.bestQuality then
        s.(bestSong := reply.song, bestLane := reply.name, haveBest := true, bestQuality := QualityOf(reply.song))
      else s
    else if Consulted(reply) && (s.topErr.None? || Rank(reply) > s.topClass.Precedence()) then
      s.(topErr := reply.err, topClass := ClassifyOutcome(reply.err))
    else s
  }

  lemma ChoicesStep(rs: seq<LaneReply>, reply: LaneReply)
    ensures BestOf(rs + [reply]) ==
              if reply.err.None? && (BestOf(rs) < 0 || QualityOf(reply.song) > QualityOf(rs[BestOf(rs)].song)) then
                |rs| else BestOf(rs)
    ensures TopOf(rs + [reply]) ==
              if reply.err.Some? && Consulted(reply) && (TopOf(rs) < 0 || Rank(reply) > Rank(rs[TopOf(rs)])) then |rs|
                else TopOf(rs)
  {
    assert (rs + [reply])[..|rs|] == rs;
  }

  /** The accumulator after `rs`, reply by reply. */
  function Accumulated(rs: seq<LaneReply>): Summary {
    if rs == [] then Summary(NO_SONG, "", false, QUALITY_NONE, None, Success)
    else Absorb(Accumulated(rs[..|rs| - 1]), rs[|rs| - 1])
  }

  lemma AccumulatedStep(rs: seq<LaneReply>, reply: LaneReply)
    ensures Accumulated(rs + [reply]) == Absorb(Accumulated(rs), reply)
  {
    assert (rs + [reply])[..|rs|] == rs;
  }

  /** Accumulating reply by reply is choosing the best and the top of all. */
  lemma {:induction false} AccumulatedIsSummary(rs: seq<LaneReply>)
    ensures Accumulated(rs) == Summarize(rs)
  {
    if rs != [] {
      var init, last := rs[..|rs| - 1], rs[|rs| - 1];
      AccumulatedIsSummary(init);
      SummaryStep(init, last);
      assert rs == init + [last];
    }
  }

  lemma SummaryStep(rs: seq<LaneReply>, reply: LaneReply)
    ensures Summarize(rs + [reply]) == Absorb(Summarize(rs), reply)
  {
    ChoicesStep(rs, reply);
    assert (rs + [reply])[|rs|] == reply;
    assert BestOf(rs) >= 0 ==> (rs + [reply])[BestOf(rs)] == rs[BestOf(rs)];
    assert TopOf(rs) >= 0 ==> (rs + [reply])[TopOf(rs)] == rs[TopOf(rs)];
  }

  lemma NamesStep(rs: seq<LaneReply>, reply: LaneReply)
    ensures ConsultedNames(rs + [reply]) == ConsultedNames(rs) + (if Consulted(reply) then [reply.name] else [])
  {
    assert (rs + [reply])[..|rs|] == rs;
  }

  class DispatchResult {
    var bestSong: Song
    var bestLane: string
    var haveBest: bool
    var bestQuality: Quality
    var topErr: Option<Error>
    var topClass: OutcomeClass
    var consulted: nat

    ghost var seen: seq<LaneReply>

    ghost predicate Valid()
      reads this
    {
      Summary(bestSong, bestLane, haveBest, bestQuality, topErr, topClass) == Accumulated(seen)
    }

    constructor ()
      ensures Valid() && seen == [] && consulted == 0
    {
      bestSong, bestLane, haveBest, bestQuality := NO_SONG, "", false, QUALITY_NONE;
      topErr, topClass, consulted := None, Success, 0;
      seen := [];
    }

    /** Ghost bookkeeping for a lane whose breaker was open: nothing is recorded. */
    ghost method Skip(reply: LaneReply)
      requires Valid() && !Consulted(reply)
      modifies `seen
      ensures Valid() && seen == old(seen) + [reply]
    {
      AccumulatedStep(seen, reply);
      seen := seen + [reply];
    }

    method Retain(song: Song, lane: string)
      requires Valid()
      modifies this
      ensures Valid() && seen == old(seen) + [LaneReply(lane, song, None)]
      ensures consulted == old(consulted)
    {
      var q := QualityOf(song);
      if !haveBest || q > bestQuality {
        bestSong, bestQuality, haveBest, bestLane := song, q, true, lane;
      }
      AccumulatedStep(seen, LaneReply(lane, song, None));
      seen := seen + [LaneReply(lane, song, None)];
    }

    method RankErr(err: Error, class_: OutcomeClass, ghost lane: string, ghost song: Song)
      requires Valid() && class_ == ClassifyOutcome(Some(err)) && class_ != Unavailable
      modifies this
      ensures Valid() && seen == old(seen) + [LaneReply(lane, song, Some(err))]
      ensures consulted == old(consulted)
    {
      if topErr.None? || class_.Precedence() > topClass.Precedence() {
        topErr, topClass := Some(err), class_;
      }
      AccumulatedStep(seen, LaneReply(lane, song, Some(err)));
      seen := seen + [LaneReply(lane, song, Some(err))];
    }

    /** What ordered mode does with one reply. Returns the song when it ends the search. */
    method Observe(reply: LaneReply, guard: Option<ScriptGuard>, attempted: seq<string>)
      returns (won: Option<Song>, names: seq<string>)
      requires Valid() && attempted == ConsultedNames(seen) && consulted == |attempted|
      modifies this
      ensures names == ConsultedNames(old(seen) + [reply])
      ensures won == if Suitable(reply, guard) then Some(Credited(reply, names)) else None
      ensures won.None? ==> Valid() && seen == old(seen) + [reply] && consulted == |names|
    {
      NamesStep(seen, reply);
      won, names := None, attempted;
      var class_ := ClassifyOutcome(reply.err);
      if class_ == Unavailable {
        Skip(reply);
        return;
      }
      consulted := consulted + 1;
      names := names + [reply.name];
      if reply.err.Some? {
        RankErr(reply.err.value, class_, reply.name, reply.song);
      } else if IsSuitable(reply.song, guard) {
        won := Some(reply.song.(winningLane := reply.name, laneAttempts := LaneAttemptsFor(names, reply.name)));
      } else {
        Retain(reply.song, reply.name);
      }
    }

    /** The first n lanes have been recorded. */
    ghost predicate After(lanes: seq<LaneReply>, n: nat, attempted: seq<string>)
      reads this
      requires n <= |lanes|
    {
      Valid() && seen == lanes[..n] && attempted == ConsultedNames(lanes[..n]) && consulted == |attempted|
    }

    method Try(lanes: seq<LaneReply>, i: nat, guard: Option<ScriptGuard>, attempted: seq<string>)
      returns (won: Option<Song>, names: seq<string>)
      requires i < |lanes| && After(lanes, i, attempted)
      modifies this
      ensures won == if Suitable(lanes[i], guard) then Some(Credited(lanes[i], ConsultedNames(lanes[..i + 1])))
              else None
      ensures won.None? ==> After(lanes, i + 1, names)
    {
      assert lanes[..i + 1] == lanes[..i] + [lanes[i]];
      won, names := Observe(lanes[i], guard, attempted);
    }

    /** resolve, followed by the attribution its two callers attach to what it returns. */
    method Resolve(attempted: seq<string>, cancelled: Option<Error>) returns (song: Song, err: Option<Error>)
      requires Valid() && attempted == ConsultedNames(seen) && consulted == |attempted|
      ensures Resolved(seen, cancelled, song, err)
    {
      NamesCount(seen);
      AccumulatedIsSummary(seen);
      RunningBest(seen);
      RunningTop(seen);
      if haveBest {
        song, err := bestSong.(winningLane := bestLane), None;
      } else if consulted == 0 {
        song := NO_SONG;
        err := if cancelled.Some? then cancelled else Some(Base(LaneUnavailable));
      } else if topErr.Some? {
        song, err := NO_SONG, topErr;
      } else {
        assert false;
        song, err := NO_SONG, Some(Base(LaneUnavailable));
      }
      song := song.(laneAttempts := LaneAttemptsFor(attempted, song.winningLane));
    }
  }

  lemma HasOneMore(init: seq<LaneReply>, last: LaneReply)
    ensures HasSong(init + [last]) <==> HasSong(init) || last.err.None?
    ensures HasError(init + [last]) <==> HasError(init) || (last.err.Some? && Consulted(last))
  {
    var rs := init + [last];
    assert rs[|init|] == last;
    assert forall j :: 0 <= j < |init| ==> rs[j] == init[j];
    if HasSong(init) { var j :| 0 <= j < |init| && init[j].err.None?; assert rs[j].err.None?; }
    if HasError(init) {
      var j :| 0 <= j < |init| && init[j].err.Some? && Consulted(init[j]);
      assert rs[j].err.Some? && Consulted(rs[j]);
    }
  }

  /** Lanes were consulted exactly when some reply is a song or a ranked error. */
  lemma {:induction false} NamesCount(rs: seq<LaneReply>)
    ensures |ConsultedNames(rs)| > 0 <==> HasSong(rs) || HasError(rs)
  {
    if rs != [] {
      var init, last := rs[..|rs| - 1], rs[|rs| - 1];
      NamesCount(init);
      NamesStep(init, last);
      HasOneMore(init, last);
      assert rs == init + [last];
    }
  }

  // ----- Ordered mode -----

  /** Ordered mode called lanes 0 .. calls-1 and answered (song, err). */
  ghost predicate OrderedAnswer(lanes: seq<LaneReply>, guard: Option<ScriptGuard>, ctx: Context,
                                calls: nat, song: Song, err: Option<Error>)
  {
    && calls <= |lanes|
    && (forall i :: 0 <= i < calls ==> ctx.Err(i).None?)
    && (forall i :: 0 <= i < calls - 1 ==> !Suitable(lanes[i], guard))
    && if calls > 0 && Suitable(lanes[calls - 1], guard) then
         err.None? && song == Credited(lanes[calls - 1], ConsultedNames(lanes[..calls]))
       else if calls < |lanes| then
         ctx.Err(calls).Some? && err == ctx.Err(calls) && song == NO_SONG
       else
         Resolved(lanes, ctx.Err(|lanes|), song, err)
  }

  /** The lane loop: stops at the first suitable song, or before the first lane it finds the parent
      cancelled at. */
  method TryLanes(r: DispatchResult, lanes: seq<LaneReply>, guard: Option<ScriptGuard>, ctx: Context)
    returns (won: Option<Song>, attempted: seq<string>, calls: nat)
    requires r.After(lanes, 0, [])
    modifies r
    ensures calls <= |lanes| && calls <= ctx.cancelledFrom
    ensures forall i :: 0 <= i < calls - 1 ==> !Suitable(lanes[i], guard)
    ensures won.Some? <==> calls > 0 && Suitable(lanes[calls - 1], guard)
    ensures won.Some? ==> won.value == Credited(lanes[calls - 1], ConsultedNames(lanes[..calls]))
    ensures won.None? ==> r.After(lanes, calls, attempted)
    ensures won.None? && calls < |lanes| ==> calls == ctx.cancelledFrom
  {
    won, attempted, calls := None, [], 0;
    while calls < |lanes| && ctx.Err(calls).None?
      invariant calls <= |lanes| && calls <= ctx.cancelledFrom
      invariant won.None? && r.After(lanes, calls, attempted)
      invariant forall j :: 0 <= j < calls ==> !Suitable(lanes[j], guard)
      decreases |lanes| - calls
    {
      calls := calls + 1;
      won, attempted := r.Try(lanes, calls - 1, guard, attempted);
      if won.Some? {
        return;
      }
    }
  }

  /** findOrdered. `calls` counts the lanes called. */
  method FindOrdered(lanes: seq<LaneReply>, guard: Option<ScriptGuard>, ctx: Context)
    returns (song: Song, err: Option<Error>, calls: nat)
    ensures OrderedAnswer(lanes, guard, ctx, calls, song, err)
  {
    var r := new DispatchResult();
    var won, attempted;
    won, attempted, calls := TryLanes(r, lanes, guard, ctx);
    if won.Some? {
      song, err := won.value, None;
    } else if calls < |lanes| {
      song, err := NO_SONG, ctx.Err(calls);
    } else {
      assert lanes[..calls] == lanes;
      song, err := r.Resolve(attempted, ctx.Err(calls));
    }
  }

  // ----- What ordered mode promises -----

  lemma ResolvedUnique(rs: seq<LaneReply>, cancelled: Option<Error>,
                       song: Song, err: Option<Error>, song': Song, err': Option<Error>)
    requires Resolved(rs, cancelled, song, err) && Resolved(rs, cancelled, song', err')
    ensures song == song' && err == err'
  {
    if HasSong(rs) {
      var k :| BestAt(rs, k) && song == Credited(rs[k], ConsultedNames(rs));
      var m :| BestAt(rs, m) && song' == Credited(rs[m], ConsultedNames(rs));
      assert k == m;
    } else if HasError(rs) {
      var k :| TopAt(rs, k) && err == rs[k].err;
      var m :| TopAt(rs, m) && err' == rs[m].err;
      assert k == m;
    }
  }

  /** The relation pins the answer down: same lanes, same context, same answer. */
  lemma OrderedUnique(lanes: seq<LaneReply>, guard: Option<ScriptGuard>, ctx: Context,
                      calls: nat, song: Song, err: Option<Error>, calls': nat, song': Song, err': Option<Error>)
    requires OrderedAnswer(lanes, guard, ctx, calls, song, err)
    requires OrderedAnswer(lanes, guard, ctx, calls', song', err')
    ensures calls == calls' && song == song' && err == err'
  {
    assert calls == calls';
    if calls == |lanes| && !(calls > 0 && Suitable(lanes[calls - 1], guard)) {
      ResolvedUnique(lanes, ctx.Err(|lanes|), song, err, song', err');
    }
  }

  /** With a live context, the unavailable sentinel comes back exactly when every breaker was open. */
  lemma OrderedUnavailableIff(lanes: seq<LaneReply>, guard: Option<ScriptGuard>, ctx: Context,
                              calls: nat, song: Song, err: Option<Error>)
    requires OrderedAnswer(lanes, guard, ctx, calls, song, err)
    requires ctx.cancelledFrom > |lanes|
    ensures ClassifyOutcome(err) == Unavailable <==> forall i :: 0 <= i < |lanes| ==> !Consulted(lanes[i])
    ensures ClassifyOutcome(err) == Unavailable ==> err == Some(Base(LaneUnavailable))
  {
    if calls > 0 && Suitable(lanes[calls - 1], guard) {
      assert Consulted(lanes[calls - 1]);
    } else if HasSong(lanes) {
      var k :| 0 <= k < |lanes| && lanes[k].err.None?;
      assert Consulted(lanes[k]);
    } else if HasError(lanes) {
      var k :| TopAt(lanes, k) && err == lanes[k].err;
      assert Consulted(lanes[k]);
    }
  }

  // ----- Attribution -----

  ghost predicate DistinctNames(rs: seq<LaneReply>) {
    && (forall i :: 0 <= i < |rs| ==> rs[i].name != "")
    && (forall i, j :: 0 <= i < j < |rs| ==> rs[i].name != rs[j].name)
  }

  ghost predicate ExactlyOneHit(attempts: seq<LaneAttempt>) {
    exists i :: 0 <= i < |attempts| && attempts[i].hit && forall j :: 0 <= j < |attempts| && attempts[j].hit ==> j == i
  }

  ghost predicate NoHit(attempts: seq<LaneAttempt>) {
    forall i :: 0 <= i < |attempts| ==> !attempts[i].hit
  }

  /** The attempted list names only consulted lanes ... */
  lemma {:induction false} NamedWasConsulted(rs: seq<LaneReply>, n: string) returns (i: nat)
    requires n in ConsultedNames(rs)
    ensures i < |rs| && Consulted(rs[i]) && rs[i].name == n
  {
    var init := rs[..|rs| - 1];
    if n in ConsultedNames(init) {
      i := NamedWasConsulted(init, n);
    } else {
      i := |rs| - 1;
    }
  }

  /** ... every one of them ... */
  lemma {:induction false} ConsultedIsNamed(rs: seq<LaneReply>, i: nat)
    requires i < |rs| && Consulted(rs[i])
    ensures rs[i].name in ConsultedNames(rs)
  {
    if i < |rs| - 1 { ConsultedIsNamed(rs[..|rs| - 1], i); }
  }

  /** ... and none twice. */
  lemma {:induction false} NamedOnce(rs: seq<LaneReply>, i: nat, j: nat)
    requires DistinctNames(rs) && i < j < |ConsultedNames(rs)|
    ensures ConsultedNames(rs)[i] != ConsultedNames(rs)[j]
  {
    var init := rs[..|rs| - 1];
    if j < |ConsultedNames(init)| {
      NamedOnce(init, i, j);
    } else {
      var k := NamedWasConsulted(init, ConsultedNames(init)[i]);
    }
  }

  lemma WinnerIsTheOnlyHit(rs: seq<LaneReply>, k: nat)
    requires DistinctNames(rs) && k < |rs| && Consulted(rs[k])
    ensures ExactlyOneHit(LaneAttemptsFor(ConsultedNames(rs), rs[k].name))
  {
    ConsultedIsNamed(rs, k);
    var names := ConsultedNames(rs);
    var i :| 0 <= i < |names| && names[i] == rs[k].name;
    var attempts := LaneAttemptsFor(names, rs[k].name);
    forall j | 0 <= j < |attempts| && attempts[j].hit
      ensures j == i
    {
      if j < i { NamedOnce(rs, j, i); } else if i < j { NamedOnce(rs, i, j); }
    }
    assert attempts[i].hit;
  }

  lemma NoWinnerNoHit(rs: seq<LaneReply>)
    requires DistinctNames(rs)
    ensures NoHit(LaneAttemptsFor(ConsultedNames(rs), ""))
  {
    forall i | 0 <= i < |ConsultedNames(rs)|
      ensures ConsultedNames(rs)[i] != ""
    {
      var k := NamedWasConsulted(rs, ConsultedNames(rs)[i]);
    }
  }

  lemma ResolvedHits(rs: seq<LaneReply>, cancelled: Option<Error>, song: Song, err: Option<Error>)
    requires DistinctNames(rs) && Resolved(rs, cancelled, song, err)
    ensures if err.None? then ExactlyOneHit(song.laneAttempts) else NoHit(song.laneAttempts)
  {
    if HasSong(rs) {
      var k :| BestAt(rs, k) && song == Credited(rs[k], ConsultedNames(rs));
      WinnerIsTheOnlyHit(rs, k);
    } else if HasError(rs) {
      NoWinnerNoHit(rs);
    }
  }

  /** Per-track attribution: one hit when a song is returned, none when an error is; and unless a
      cancelled context cut the walk short, the lanes listed are exactly those consulted. */
  lemma OrderedHits(lanes: seq<LaneReply>, guard: Option<ScriptGuard>, ctx: Context,
                    calls: nat, song: Song, err: Option<Error>)
    requires OrderedAnswer(lanes, guard, ctx, calls, song, err) && DistinctNames(lanes)
    ensures if err.None? then ExactlyOneHit(song.laneAttempts) else NoHit(song.laneAttempts)
    ensures err.None? || calls == |lanes| ==>
              |song.laneAttempts| == |ConsultedNames(lanes[..calls])|
              && forall i :: 0 <= i < |song.laneAttempts| ==>
                song.laneAttempts[i].lane == ConsultedNames(lanes[..calls])[i]
  {
    assert lanes[..|lanes|] == lanes;
    if calls > 0 && Suitable(lanes[calls - 1], guard) {
      WinnerIsTheOnlyHit(lanes[..calls], calls - 1);
    } else if calls == |lanes| {
      NamesCount(lanes);
      ResolvedHits(lanes, ctx.Err(|lanes|), song, err);
    }
  }
}
