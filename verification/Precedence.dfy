/** Which song and which error a dispatch answers with, said of the lane outcomes by class and content
    alone (internal/orchestrator/errors.go, suitability.go, orchestrator.go, parallel.go). */
module Precedence {
  import opened Prelude
  import opened Outcome
  import opened Dispatch
  import opened Race
  import opened RaceLaws

  // ----- Classes, by what an error wraps -----

  /** The four classes of an error, by the sentinels in its chain. A token renewal counts as a throttle,
      a throttle before a miss, the lane's own sentinel before both. */
  lemma ClassByChain(err: Error)
    ensures var class_ := ClassifyOutcome(Some(err));
      && (class_ == Unavailable <==> LaneUnavailable in err.chain)
      && (class_ == AuthRateLimit <==>
            LaneUnavailable !in err.chain
            && !(err.chain !! {TokenRenewalRequired, Unauthorized, RateLimited, TruncatedResponse}))
      && (class_ == BenignMiss <==>
            err.chain !! {LaneUnavailable, TokenRenewalRequired, Unauthorized, RateLimited, TruncatedResponse}
            && !(err.chain !! {NotFound, NoLyrics}))
      && class_ != Success
  {
  }

  // ----- Songs, by what they contain -----

  predicate IsSynced(reply: LaneReply) {
    reply.err.None? && reply.song.subtitles != []
  }

  predicate HasText(reply: LaneReply) {
    reply.err.None? && reply.song.lyricsBody != ""
  }

  predicate IsInstrumental(reply: LaneReply) {
    reply.err.None? && reply.song.instrumental == 1
  }

  predicate First(hits: seq<bool>, k: int) {
    0 <= k < |hits| && hits[k] && forall j :: 0 <= j < k ==> !hits[j]
  }

  function Where(rs: seq<LaneReply>, p: LaneReply -> bool): (hits: seq<bool>)
    ensures |hits| == |rs| && forall i :: 0 <= i < |rs| ==> hits[i] == p(rs[i])
  {
    seq(|rs|, i requires 0 <= i < |rs| => p(rs[i]))
  }

  /** The best available song is the first synced one; without any, the first with a text; without any,
      the first marked instrumental; without any, the first song. */
  ghost predicate BestByContent(rs: seq<LaneReply>, k: int) {
    if exists i :: 0 <= i < |rs| && IsSynced(rs[i]) then First(Where(rs, IsSynced), k)
    else if exists i :: 0 <= i < |rs| && HasText(rs[i]) then First(Where(rs, HasText), k)
    else if exists i :: 0 <= i < |rs| && IsInstrumental(rs[i]) then First(Where(rs, IsInstrumental), k)
    else First(Where(rs, (r: LaneReply) => r.err.None?), k)
  }

  lemma BestIsByContent(rs: seq<LaneReply>, k: int)
    requires BestAt(rs, k)
    ensures BestByContent(rs, k)
  {
    forall j | 0 <= j < k && rs[j].err.None?
      ensures QualityOf(rs[j].song) < QualityOf(rs[k].song)
    {
    }
    if i :| 0 <= i < |rs| && IsSynced(rs[i]) {
      assert QualityOf(rs[i].song) <= QualityOf(rs[k].song);
    } else if i :| 0 <= i < |rs| && HasText(rs[i]) {
      assert QualityOf(rs[i].song) <= QualityOf(rs[k].song);
    } else if i :| 0 <= i < |rs| && IsInstrumental(rs[i]) {
      assert QualityOf(rs[i].song) <= QualityOf(rs[k].song);
    }
  }

  /** A song is suitable when it has lyrics of either kind and an enabled guard accepts it. */
  lemma SuitableByContent(reply: LaneReply, guard: Option<ScriptGuard>)
    ensures Suitable(reply, guard) <==>
            (IsSynced(reply) || HasText(reply))
              && (guard.Some? && guard.value.enabled ==> guard.value.accept(reply.song))
    ensures SuitableSynced(reply, guard) <==> Suitable(reply, guard) && IsSynced(reply)
  {
  }

  // ----- Errors, by class -----

  predicate Fails(reply: LaneReply, class_: OutcomeClass) {
    reply.err.Some? && ClassifyOutcome(reply.err) == class_
  }

  ghost predicate Among(rs: seq<LaneReply>, class_: OutcomeClass) {
    exists i :: 0 <= i < |rs| && Fails(rs[i], class_)
  }

  /** `err` is the first error of the class. */
  ghost predicate FirstOf(rs: seq<LaneReply>, class_: OutcomeClass, err: Option<Error>) {
    exists k :: 0 <= k < |rs| && Fails(rs[k], class_) && err == rs[k].err && forall j :: 0 <= j < k ==>
      !Fails(rs[j], class_)
  }

  /** A throttle whenever there is one; a transport failure only without a throttle; a benign miss only
      if every consulted lane missed; and of its class always the first. */
  ghost predicate ErrorByClass(rs: seq<LaneReply>, err: Option<Error>) {
    if Among(rs, AuthRateLimit) then FirstOf(rs, AuthRateLimit, err)
    else if Among(rs, Transport) then FirstOf(rs, Transport, err)
    else FirstOf(rs, BenignMiss, err)
  }

  lemma TopIsByClass(rs: seq<LaneReply>, k: int)
    requires TopAt(rs, k)
    ensures ErrorByClass(rs, rs[k].err)
  {
    var class_ := ClassifyOutcome(rs[k].err);
    forall i | 0 <= i < |rs| && rs[i].err.Some? && Consulted(rs[i])
      ensures Rank(rs[i]) <= Rank(rs[k]) && (i < k ==> Rank(rs[i]) < Rank(rs[k]))
      ensures ClassifyOutcome(rs[i].err) in {BenignMiss, Transport, AuthRateLimit}
    {
    }
    assert Fails(rs[k], class_);
    if i :| 0 <= i < |rs| && Fails(rs[i], AuthRateLimit) { assert Consulted(rs[i]); }
    if i :| 0 <= i < |rs| && Fails(rs[i], Transport) { assert Consulted(rs[i]); }
  }

  // ----- Both modes -----

  /** What the final precedence answers: the best song by content, else an error by class, else, when
      no lane reached its provider, the parent's error or the unavailable sentinel. */
  ghost predicate ResolvedByContent(rs: seq<LaneReply>, cancelled: Option<Error>, song: Song, err: Option<Error>) {
    if exists i :: 0 <= i < |rs| && rs[i].err.None? then
      err.None? && exists k :: BestByContent(rs, k) && SameLyrics(song, rs[k].song) && song.winningLane == rs[k].name
    else if exists i :: 0 <= i < |rs| && rs[i].err.Some? && ClassifyOutcome(rs[i].err) != Unavailable then
      ErrorByClass(rs, err) && SameLyrics(song, NO_SONG)
    else
      err == (if cancelled.Some? then cancelled else Some(Base(LaneUnavailable))) && song == NO_SONG
  }

  predicate SameLyrics(a: Song, b: Song) {
    a.subtitles == b.subtitles && a.lyricsBody == b.lyricsBody && a.instrumental == b.instrumental
  }

  lemma ResolvedIsByContent(rs: seq<LaneReply>, cancelled: Option<Error>, song: Song, err: Option<Error>)
    requires Resolved(rs, cancelled, song, err)
    ensures ResolvedByContent(rs, cancelled, song, err)
  {
    if HasSong(rs) {
      var k :| BestAt(rs, k) && song == Credited(rs[k], ConsultedNames(rs));
      BestIsByContent(rs, k);
    } else if HasError(rs) {
      var k :| TopAt(rs, k) && err == rs[k].err;
      TopIsByClass(rs, k);
    }
  }

  /** Ordered mode under a live parent: the first suitable lane's song, no later lane called; else what
      all the outcomes resolve to. */
  lemma OrderedByContent(lanes: seq<LaneReply>, guard: Option<ScriptGuard>, ctx: Context,
                         calls: nat, song: Song, err: Option<Error>)
    requires OrderedAnswer(lanes, guard, ctx, calls, song, err) && ctx.cancelledFrom > |lanes|
    ensures calls <= |lanes|
    ensures if exists i :: 0 <= i < |lanes| && Suitable(lanes[i], guard) then
              && 0 < calls && Suitable(lanes[calls - 1], guard)
              && (forall i :: 0 <= i < calls - 1 ==> !Suitable(lanes[i], guard))
              && err.None? && SameLyrics(song, lanes[calls - 1].song) && song.winningLane == lanes[calls - 1].name
            else calls == |lanes| && ResolvedByContent(lanes, None, song, err)
  {
    if calls > 0 && Suitable(lanes[calls - 1], guard) {
    } else {
      OrderedExhausted(lanes, guard, ctx, calls, song, err);
      assert calls == |lanes|;
      ResolvedIsByContent(lanes, None, song, err);
    }
  }

  /** The parallel race under a live parent, when it ends in an error: every lane has reported, none gave
      a song, and the error is chosen by class from the outcomes in the order in which they arrived,
      or every lane was open. */
  lemma RaceErrorByClass(replies: seq<LaneReply>, guard: Option<ScriptGuard>, ctx: Context, schedule: seq<Event>,
                         turn: int, song: Song, err: Option<Error>)
    requires Legal(replies, guard, ctx, schedule) && ctx.cancelledFrom > |schedule|
    requires RaceAnswer(replies, guard, ctx, schedule, turn, true, song, err) && err.Some?
    ensures 0 <= turn < |schedule| && ReceiveCount(schedule, turn + 1) == |replies|
    ensures AllFailed(Got(replies, schedule, turn + 1))
    ensures ResolvedByContent(Got(replies, schedule, turn + 1), None, song, err)
  {
    var got := Got(replies, schedule, turn + 1);
    ErrorIsResolved(replies, guard, schedule[turn], got, song, err);
    LegalAt(replies, guard, ctx, schedule, turn);
    LastReceive(replies, guard, ctx, schedule, turn);
    ResolvedIsByContent(got, None, song, err);
    ErrorHasNoSong(got, song, err);
  }

  ghost predicate AllFailed(rs: seq<LaneReply>) {
    forall i :: 0 <= i < |rs| ==> rs[i].err.Some?
  }

  lemma ErrorHasNoSong(rs: seq<LaneReply>, song: Song, err: Option<Error>)
    requires Resolved(rs, None, song, err) && err.Some?
    ensures AllFailed(rs)
  {
  }

  /** Under a live parent a turn that commits with nothing suitable heard is the last lane's report. */
  lemma LastReceive(replies: seq<LaneReply>, guard: Option<ScriptGuard>, ctx: Context, schedule: seq<Event>, turn: int)
    requires InRange(replies, schedule) && 0 <= turn < |schedule| && ctx.cancelledFrom > |schedule|
    requires LegalTurn(replies, guard, ctx, schedule, turn) && Commits(replies, guard, schedule, turn)
    requires !HasSuitable(Got(replies, schedule, turn + 1), guard)
    requires schedule[turn].Receive? ==> !SuitableSynced(replies[schedule[turn].lane], guard)
    ensures ReceiveCount(schedule, turn + 1) == |replies|
  {
    OtherTurnsHearNothing(replies, schedule, turn);
  }

  lemma OtherTurnsHearNothing(replies: seq<LaneReply>, schedule: seq<Event>, turn: int)
    requires InRange(replies, schedule) && 0 <= turn < |schedule|
    ensures !schedule[turn].Receive? ==> Got(replies, schedule, turn + 1) == Got(replies, schedule, turn)
  {
  }

  lemma ErrorIsResolved(replies: seq<LaneReply>, guard: Option<ScriptGuard>, e: Event, got: seq<LaneReply>,
                        song: Song, err: Option<Error>)
    requires (e.Receive? ==> e.lane < |replies|) && TurnAnswer(replies, guard, e, got, None, song, err) && err.Some?
    ensures Resolved(got, None, song, err) && !HasSuitable(got, guard)
    ensures e.Receive? ==> !SuitableSynced(replies[e.lane], guard)
  {
  }

  /** Arrival order aside: with no lane cancelled, the class of the error is that of the outcomes. */
  lemma RaceErrorClass(replies: seq<LaneReply>, guard: Option<ScriptGuard>, ctx: Context, schedule: seq<Event>,
                       turn: int, song: Song, err: Option<Error>)
    requires Legal(replies, guard, ctx, schedule) && ctx.cancelledFrom > |schedule| && NoneCancelled(replies)
    requires RaceAnswer(replies, guard, ctx, schedule, turn, true, song, err) && err.Some?
    requires exists i :: 0 <= i < |replies| && Consulted(replies[i])
    ensures ClassifyOutcome(err)
            == if Among(replies, AuthRateLimit) then AuthRateLimit
               else if Among(replies, Transport) then Transport
               else BenignMiss
  {
    var got := Got(replies, schedule, turn + 1);
    RaceErrorByClass(replies, guard, ctx, schedule, turn, song, err);
    AllReported(replies, guard, ctx, schedule, turn + 1);
    AmongMembers(replies, got, AuthRateLimit);
    AmongMembers(replies, got, Transport);
    var i :| 0 <= i < |replies| && Consulted(replies[i]);
    ResolvedClass(got, replies[i], song, err);
  }

  lemma ResolvedClass(rs: seq<LaneReply>, reply: LaneReply, song: Song, err: Option<Error>)
    requires AllFailed(rs) && ResolvedByContent(rs, None, song, err) && Consulted(reply)
    requires reply in rs
    ensures ClassifyOutcome(err)
            == if Among(rs, AuthRateLimit) then AuthRateLimit else if Among(rs, Transport) then Transport
              else BenignMiss
  {
    var i :| 0 <= i < |rs| && rs[i] == reply;
    assert rs[i].err.Some? && ClassifyOutcome(rs[i].err) != Unavailable;
  }

  lemma AmongMembers(rs: seq<LaneReply>, ts: seq<LaneReply>, class_: OutcomeClass)
    requires SameMembers(rs, ts)
    ensures Among(rs, class_) <==> Among(ts, class_)
  {
    if i :| 0 <= i < |rs| && Fails(rs[i], class_) { assert rs[i] in ts; }
    if i :| 0 <= i < |ts| && Fails(ts[i], class_) { assert ts[i] in rs; }
  }
}
