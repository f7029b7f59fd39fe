/** What the parallel race promises over every legal schedule, and how it compares with ordered
    dispatch on the same lane outcomes (internal/orchestrator/parallel.go, orchestrator.go). */
module RaceLaws {
  import opened Prelude
  import opened Outcome
  import opened Dispatch
  import opened Race

  // ----- The replies received -----

  lemma {:induction false} GotIsReceived(replies: seq<LaneReply>, schedule: seq<Event>, n: nat, h: nat) returns (j: nat)
    requires InRange(replies, schedule) && n <= |schedule| && h < |Got(replies, schedule, n)|
    ensures j < n && schedule[j].Receive? && Got(replies, schedule, n)[h] == replies[schedule[j].lane]
  {
    if h < |Got(replies, schedule, n - 1)| {
      j := GotIsReceived(replies, schedule, n - 1, h);
    } else {
      j := n - 1;
    }
  }

  lemma {:induction false} ReceivedIsGot(replies: seq<LaneReply>, schedule: seq<Event>, n: nat, j: nat) returns (h: nat)
    requires InRange(replies, schedule) && j < n <= |schedule|
    requires schedule[j].Receive? && Heard(replies[schedule[j].lane])
    ensures h < |Got(replies, schedule, n)| && Got(replies, schedule, n)[h] == replies[schedule[j].lane]
  {
    if j < n - 1 {
      h := ReceivedIsGot(replies, schedule, n - 1, j);
    } else {
      h := |Got(replies, schedule, n - 1)|;
    }
  }

  // ----- The loop ends within one receive per lane -----

  lemma {:induction false} QuietTurnsAreReceives(replies: seq<LaneReply>, guard: Option<ScriptGuard>,
                                                 schedule: seq<Event>, n: nat)
    requires InRange(replies, schedule) && n <= |schedule|
    requires forall j :: 0 <= j < n ==> !Commits(replies, guard, schedule, j)
    ensures ReceiveCount(schedule, n) == n
  {
    if n > 0 {
      QuietTurnsAreReceives(replies, guard, schedule, n - 1);
      assert !Commits(replies, guard, schedule, n - 1);
    }
  }

  /** Whatever the order of results, timer and cancellation, one of the first |replies| turns returns. */
  lemma RaceEnds(replies: seq<LaneReply>, guard: Option<ScriptGuard>, schedule: seq<Event>)
    requires InRange(replies, schedule) && 0 < |replies| <= |schedule|
    ensures exists k :: k < |replies| && FirstCommit(replies, guard, schedule, k)
  {
    var k := 0;
    while k < |replies| && !Commits(replies, guard, schedule, k)
      invariant 0 <= k <= |replies|
      invariant forall j :: 0 <= j < k ==> !Commits(replies, guard, schedule, j)
    {
      k := k + 1;
    }
    if k == |replies| {
      QuietTurnsAreReceives(replies, guard, schedule, k);
      assert Commits(replies, guard, schedule, k - 1);
    }
    assert FirstCommit(replies, guard, schedule, k);
  }

  // ----- Safety under every schedule -----

  ghost predicate CreditedTo(song: Song, reply: LaneReply) {
    song == reply.song.(winningLane := reply.name, laneAttempts := song.laneAttempts)
  }

  ghost predicate FromSuitable(replies: seq<LaneReply>, guard: Option<ScriptGuard>, song: Song) {
    exists i :: 0 <= i < |replies| && Suitable(replies[i], guard) && CreditedTo(song, replies[i])
  }

  lemma SuitableIsHeard(replies: seq<LaneReply>, guard: Option<ScriptGuard>, schedule: seq<Event>, n: nat, j: nat)
    requires InRange(replies, schedule) && j < n <= |schedule|
    requires schedule[j].Receive? && Suitable(replies[schedule[j].lane], guard)
    ensures HasSuitable(Got(replies, schedule, n), guard)
  {
    var h := ReceivedIsGot(replies, schedule, n, j);
  }

  lemma AnswerAfterSuitable(replies: seq<LaneReply>, guard: Option<ScriptGuard>, e: Event, got: seq<LaneReply>,
                            cancelled: Option<Error>, song: Song, err: Option<Error>)
    requires (e.Receive? ==> e.lane < |replies|) && TurnAnswer(replies, guard, e, got, cancelled, song, err)
    requires HasSuitable(got, guard)
    ensures err.None? ==> FromSuitable(replies, guard, song) || HeldAnswer(got, guard, song, err)
    ensures err.Some? ==> cancelled.Some? && err == cancelled
  {
    if e.Receive? && SuitableSynced(replies[e.lane], guard) { assert CreditedTo(song, replies[e.lane]); }
  }

  /** Once a suitable result has been received, the call never returns an unsuitable song, and an
      error only if the parent was cancelled. */
  lemma SuitableIsNeverLost(replies: seq<LaneReply>, guard: Option<ScriptGuard>, ctx: Context, schedule: seq<Event>,
                            turn: int, song: Song, err: Option<Error>, j: nat)
    requires InRange(replies, schedule) && ctx.Err(0).None?
    requires RaceAnswer(replies, guard, ctx, schedule, turn, true, song, err)
    requires j <= turn && schedule[j].Receive? && Suitable(replies[schedule[j].lane], guard)
    ensures err.None? ==> FromSuitable(replies, guard, song)
    ensures err.Some? ==> ctx.Err(turn + 1).Some? && err == ctx.Err(turn + 1)
  {
    var got := Got(replies, schedule, turn + 1);
    SuitableIsHeard(replies, guard, schedule, turn + 1, j);
    AnswerAfterSuitable(replies, guard, schedule[turn], got, ctx.Err(turn + 1), song, err);
    if err.None? && HeldAnswer(got, guard, song, err) {
      HeldComesFromALane(replies, guard, schedule, turn + 1, song, err);
    }
  }

  lemma HeldComesFromALane(replies: seq<LaneReply>, guard: Option<ScriptGuard>, schedule: seq<Event>, n: nat,
                           song: Song, err: Option<Error>)
    requires InRange(replies, schedule) && n <= |schedule|
    requires HeldAnswer(Got(replies, schedule, n), guard, song, err)
    ensures FromSuitable(replies, guard, song)
  {
    var got := Got(replies, schedule, n);
    var h :| FirstSuitable(got, guard, h) && song == Credited(got[h], ConsultedNames(got));
    var j := GotIsReceived(replies, schedule, n, h);
    assert CreditedTo(song, replies[schedule[j].lane]);
  }

  /** The upgrade window commits only a held suitable unsynced song, the first that arrived. */
  lemma WindowCommitsTheHeldSong(replies: seq<LaneReply>, guard: Option<ScriptGuard>, ctx: Context,
                                 schedule: seq<Event>, turn: int, song: Song, err: Option<Error>) returns (h: int)
    requires Legal(replies, guard, ctx, schedule) && ctx.Err(0).None?
    requires RaceAnswer(replies, guard, ctx, schedule, turn, true, song, err)
    requires schedule[turn] == WindowElapsed && ctx.Err(turn + 1).None?
    ensures err.None?
    ensures FirstSuitable(Got(replies, schedule, turn), guard, h)
    ensures CreditedTo(song, Got(replies, schedule, turn)[h]) && QualityOf(song) == QUALITY_UNSYNCED
  {
    var got := Got(replies, schedule, turn);
    assert LegalTurn(replies, guard, ctx, schedule, turn);
    assert Got(replies, schedule, turn + 1) == got;
    h :| FirstSuitable(got, guard, h) && song == Credited(got[h], ConsultedNames(got));
    var j := GotIsReceived(replies, schedule, turn, h);
    assert !Commits(replies, guard, schedule, j);
  }

  // ----- Attribution -----

  lemma {:induction false} GotNamesDistinct(replies: seq<LaneReply>, guard: Option<ScriptGuard>, ctx: Context,
                                            schedule: seq<Event>, n: nat)
    requires Legal(replies, guard, ctx, schedule) && n <= |schedule| && DistinctNames(replies)
    ensures DistinctNames(Got(replies, schedule, n))
  {
    if n > 0 {
      GotNamesDistinct(replies, guard, ctx, schedule, n - 1);
      var e, init := schedule[n - 1], Got(replies, schedule, n - 1);
      assert LegalTurn(replies, guard, ctx, schedule, n - 1);
      if e.Receive? && Heard(replies[e.lane]) {
        forall i | 0 <= i < |init|
          ensures init[i].name != replies[e.lane].name
        {
          var j := GotIsReceived(replies, schedule, n - 1, i);
          assert schedule[j] in schedule[..n - 1];
        }
      }
    }
  }

  /** One hit when a song is returned, none when an error is. */
  lemma RaceHits(replies: seq<LaneReply>, guard: Option<ScriptGuard>, ctx: Context, schedule: seq<Event>,
                 turn: int, song: Song, err: Option<Error>)
    requires Legal(replies, guard, ctx, schedule) && DistinctNames(replies)
    requires RaceAnswer(replies, guard, ctx, schedule, turn, true, song, err)
    ensures if err.None? then ExactlyOneHit(song.laneAttempts) else NoHit(song.laneAttempts)
  {
    if ctx.Err(0).None? {
      var got := Got(replies, schedule, turn + 1);
      GotNamesDistinct(replies, guard, ctx, schedule, turn + 1);
      var e := schedule[turn];
      if e.Receive? && SuitableSynced(replies[e.lane], guard) {
        assert got[|got| - 1] == replies[e.lane];
        WinnerIsTheOnlyHit(got, |got| - 1);
      } else if ctx.Err(turn + 1).Some? {
      } else if HasSuitable(got, guard) {
        var h :| FirstSuitable(got, guard, h) && song == Credited(got[h], ConsultedNames(got));
        WinnerIsTheOnlyHit(got, h);
      } else {
        ResolvedHits(got, None, song, err);
      }
    }
  }

  // ----- Order independence -----

  /** What a set of lane outcomes is worth, whatever the order in which they come. */
  datatype ResultClass =
    | SyncedSong
    | UnsyncedSong
    | BestAvailable(quality: Quality)
    | Failed(failure: OutcomeClass)
    | NothingAvailable

  /** `rs` is worth c: said of the outcomes as a set, no order involved. */
  ghost predicate IsWorth(rs: seq<LaneReply>, guard: Option<ScriptGuard>, c: ResultClass) {
    match c
    case SyncedSong => exists i :: 0 <= i < |rs| && SuitableSynced(rs[i], guard)
    case UnsyncedSong =>
      && HasSuitable(rs, guard)
      && forall i :: 0 <= i < |rs| ==> !SuitableSynced(rs[i], guard)
    case BestAvailable(q) =>
      && !HasSuitable(rs, guard)
      && (exists i :: 0 <= i < |rs| && rs[i].err.None? && QualityOf(rs[i].song) == q)
      && forall i :: 0 <= i < |rs| && rs[i].err.None? ==> QualityOf(rs[i].song) <= q
    case Failed(f) =>
      && !HasSong(rs)
      && (exists i :: 0 <= i < |rs| && rs[i].err.Some? && Consulted(rs[i]) && ClassifyOutcome(rs[i].err) == f)
      && forall i :: 0 <= i < |rs| && Consulted(rs[i]) ==> Rank(rs[i]) <= f.Precedence()
    case NothingAvailable => !HasSong(rs) && !HasError(rs)
  }

  /** The answer (song, err) is one that outcomes worth c may give. */
  ghost predicate IsAnswerOf(guard: Option<ScriptGuard>, song: Song, err: Option<Error>, c: ResultClass) {
    match c
    case SyncedSong => err.None? && QualityOf(song) == QUALITY_SYNCED
    case UnsyncedSong => err.None? && QualityOf(song) == QUALITY_UNSYNCED
    case BestAvailable(q) => err.None? && QualityOf(song) == q
    case Failed(f) => ClassifyOutcome(err) == f && f != Success && f != Unavailable
    case NothingAvailable => err == Some(Base(LaneUnavailable))
  }

  lemma WorthIsUnique(rs: seq<LaneReply>, guard: Option<ScriptGuard>, c: ResultClass, d: ResultClass)
    requires IsWorth(rs, guard, c) && IsWorth(rs, guard, d)
    ensures c == d
  {
    if c.SyncedSong? || d.SyncedSong? {
      var i :| 0 <= i < |rs| && SuitableSynced(rs[i], guard);
      assert Suitable(rs[i], guard) && rs[i].err.None? && HasSong(rs);
    } else if c.UnsyncedSong? || d.UnsyncedSong? {
      var i :| 0 <= i < |rs| && Suitable(rs[i], guard);
      assert rs[i].err.None? && HasSong(rs);
    } else if c.BestAvailable? && d.BestAvailable? {
      assert c.quality == d.quality;
    }
  }

  ghost predicate SameMembers(rs: seq<LaneReply>, ts: seq<LaneReply>) {
    forall r :: r in rs <==> r in ts
  }

  lemma WorthIgnoresOrder(rs: seq<LaneReply>, ts: seq<LaneReply>, guard: Option<ScriptGuard>, c: ResultClass)
    requires SameMembers(rs, ts) && IsWorth(rs, guard, c)
    ensures IsWorth(ts, guard, c)
  {
    forall i | 0 <= i < |ts|
      ensures ts[i] in rs
    {
      assert ts[i] in ts;
    }
    forall i | 0 <= i < |rs|
      ensures rs[i] in ts
    {
      assert rs[i] in rs;
    }
  }

  lemma ResolvedWorth(rs: seq<LaneReply>, guard: Option<ScriptGuard>, song: Song, err: Option<Error>)
    returns (c: ResultClass)
    requires !HasSuitable(rs, guard) && Resolved(rs, None, song, err)
    ensures IsWorth(rs, guard, c) && IsAnswerOf(guard, song, err, c)
  {
    if HasSong(rs) {
      var k :| BestAt(rs, k) && song == Credited(rs[k], ConsultedNames(rs));
      c := BestAvailable(QualityOf(rs[k].song));
    } else if HasError(rs) {
      var k :| TopAt(rs, k) && err == rs[k].err;
      c := Failed(ClassifyOutcome(rs[k].err));
      forall i | 0 <= i < |rs| && Consulted(rs[i])
        ensures Rank(rs[i]) <= c.failure.Precedence()
      {
        assert rs[i].err.Some?;
      }
    } else {
      c := NothingAvailable;
    }
  }

  /** The lanes heard from in the first n turns. */
  function Lanes(schedule: seq<Event>, n: nat): set<nat>
    requires n <= |schedule|
  {
    if n == 0 then {}
    else Lanes(schedule, n - 1) + (if schedule[n - 1].Receive? then {schedule[n - 1].lane} else {})
  }

  lemma {:induction false} LanesReceived(schedule: seq<Event>, n: nat, i: nat)
    requires n <= |schedule|
    ensures i in Lanes(schedule, n) <==> Receive(i) in schedule[..n]
  {
    if n > 0 {
      LanesReceived(schedule, n - 1, i);
      assert schedule[..n] == schedule[..n - 1] + [schedule[n - 1]];
    }
  }

  ghost predicate OncePerLane(schedule: seq<Event>) {
    forall j, k :: 0 <= j < k < |schedule| && schedule[k].Receive? ==> schedule[j] != schedule[k]
  }

  lemma LegalIsOncePerLane(replies: seq<LaneReply>, guard: Option<ScriptGuard>, ctx: Context, schedule: seq<Event>)
    requires Legal(replies, guard, ctx, schedule)
    ensures OncePerLane(schedule)
  {
    forall j, k | 0 <= j < k < |schedule| && schedule[k].Receive?
      ensures schedule[j] != schedule[k]
    {
      LegalAt(replies, guard, ctx, schedule, k);
      assert schedule[j] in schedule[..k];
    }
  }

  lemma {:induction false} LanesCount(schedule: seq<Event>, n: nat)
    requires OncePerLane(schedule) && n <= |schedule|
    ensures |Lanes(schedule, n)| == ReceiveCount(schedule, n)
  {
    if n > 0 {
      LanesCount(schedule, n - 1);
      if schedule[n - 1].Receive? { NotYetReceived(schedule, n - 1); }
    }
  }

  lemma NotYetReceived(schedule: seq<Event>, k: nat)
    requires OncePerLane(schedule) && k < |schedule| && schedule[k].Receive?
    ensures schedule[k].lane !in Lanes(schedule, k)
  {
    LanesReceived(schedule, k, schedule[k].lane);
  }

  lemma LanesInRange(replies: seq<LaneReply>, schedule: seq<Event>, n: nat)
    requires InRange(replies, schedule) && n <= |schedule|
    ensures forall i :: i in Lanes(schedule, n) ==> i < |replies|
  {
    forall i | i in Lanes(schedule, n)
      ensures i < |replies|
    {
      LanesReceived(schedule, n, i);
      var j :| 0 <= j < n && schedule[j] == Receive(i);
    }
  }

  lemma {:induction false} FullSet(s: set<nat>, n: nat)
    requires (forall i :: i in s ==> i < n) && |s| == n
    ensures forall i :: 0 <= i < n ==> i in s
  {
    if n > 0 {
      if n - 1 in s {
        FullSet(s - {n - 1}, n - 1);
      } else {
        SmallSet(s, n - 1);
      }
    }
  }

  lemma {:induction false} SmallSet(s: set<nat>, n: nat)
    requires forall i :: i in s ==> i < n
    ensures |s| <= n
  {
    if n > 0 {
      SmallSet(s - {n - 1}, n - 1);
    } else {
      assert forall i :: i !in s;
    }
  }

  ghost predicate NoneCancelled(replies: seq<LaneReply>) {
    forall i :: 0 <= i < |replies| ==> Heard(replies[i])
  }

  /** When every lane has reported, the replies received are the lanes' outcomes, reordered. */
  lemma AllReported(replies: seq<LaneReply>, guard: Option<ScriptGuard>, ctx: Context, schedule: seq<Event>, n: nat)
    requires Legal(replies, guard, ctx, schedule) && NoneCancelled(replies)
    requires n <= |schedule| && ReceiveCount(schedule, n) == |replies|
    ensures SameMembers(replies, Got(replies, schedule, n))
  {
    var got := Got(replies, schedule, n);
    LegalIsOncePerLane(replies, guard, ctx, schedule);
    LanesCount(schedule, n);
    LanesInRange(replies, schedule, n);
    FullSet(Lanes(schedule, n), |replies|);
    forall r
      ensures r in replies <==> r in got
    {
      if r in replies {
        var i: nat :| i < |replies| && replies[i] == r;
        LanesReceived(schedule, n, i);
        var j :| 0 <= j < n && schedule[j] == Receive(i);
        var h := ReceivedIsGot(replies, schedule, n, j);
      }
      if r in got {
        var h :| 0 <= h < |got| && got[h] == r;
        var j := GotIsReceived(replies, schedule, n, h);
      }
    }
  }

  /** With a live parent and no window expiry, the answer is what the outcomes are worth as a set. */
  lemma RaceIsWorth(replies: seq<LaneReply>, guard: Option<ScriptGuard>, ctx: Context, schedule: seq<Event>,
                    turn: int, song: Song, err: Option<Error>) returns (c: ResultClass)
    requires Legal(replies, guard, ctx, schedule) && NoneCancelled(replies)
    requires ctx.cancelledFrom > |schedule| && WindowElapsed !in schedule
    requires RaceAnswer(replies, guard, ctx, schedule, turn, true, song, err)
    ensures IsWorth(replies, guard, c) && IsAnswerOf(guard, song, err, c)
  {
    var got := Got(replies, schedule, turn + 1);
    assert LegalTurn(replies, guard, ctx, schedule, turn);
    assert schedule[turn] in schedule && schedule[turn].Receive?;
    var won := replies[schedule[turn].lane];
    if SuitableSynced(won, guard) {
      c := SyncedSong;
    } else {
      AllReported(replies, guard, ctx, schedule, turn + 1);
      if HasSuitable(got, guard) {
        c := UnsyncedSong;
        UnsyncedWorth(replies, guard, schedule, turn, song, err);
      } else {
        c := ResolvedWorth(got, guard, song, err);
      }
      WorthIgnoresOrder(got, replies, guard, c);
    }
  }

  lemma UnsyncedWorth(replies: seq<LaneReply>, guard: Option<ScriptGuard>, schedule: seq<Event>,
                      turn: int, song: Song, err: Option<Error>)
    requires InRange(replies, schedule) && FirstCommit(replies, guard, schedule, turn)
    requires schedule[turn].Receive? && !SuitableSynced(replies[schedule[turn].lane], guard)
    requires HeldAnswer(Got(replies, schedule, turn + 1), guard, song, err)
    ensures IsWorth(Got(replies, schedule, turn + 1), guard, UnsyncedSong)
    ensures IsAnswerOf(guard, song, err, UnsyncedSong)
  {
    var got := Got(replies, schedule, turn + 1);
    QuietIsUnsynced(replies, guard, schedule, turn);
    forall h | 0 <= h < |got|
      ensures !SuitableSynced(got[h], guard)
    {
      NoSyncedHeard(replies, guard, schedule, turn + 1, h);
    }
    HeldWorth(got, guard, song, err);
  }

  lemma HeldWorth(got: seq<LaneReply>, guard: Option<ScriptGuard>, song: Song, err: Option<Error>)
    requires HeldAnswer(got, guard, song, err)
    requires forall h :: 0 <= h < |got| ==> !SuitableSynced(got[h], guard)
    ensures IsWorth(got, guard, UnsyncedSong) && IsAnswerOf(guard, song, err, UnsyncedSong)
  {
  }

  ghost predicate Unsynced(replies: seq<LaneReply>, guard: Option<ScriptGuard>, schedule: seq<Event>, n: int)
    requires InRange(replies, schedule) && 0 <= n <= |schedule|
  {
    forall j :: 0 <= j < n && schedule[j].Receive? ==> !SuitableSynced(replies[schedule[j].lane], guard)
  }

  lemma QuietIsUnsynced(replies: seq<LaneReply>, guard: Option<ScriptGuard>, schedule: seq<Event>, n: int)
    requires InRange(replies, schedule) && 0 <= n <= |schedule| && Quiet(replies, guard, schedule, n)
    ensures Unsynced(replies, guard, schedule, n)
  {
    forall j | 0 <= j < n && schedule[j].Receive?
      ensures !SuitableSynced(replies[schedule[j].lane], guard)
    {
      assert !Commits(replies, guard, schedule, j);
    }
  }

  lemma NoSyncedHeard(replies: seq<LaneReply>, guard: Option<ScriptGuard>, schedule: seq<Event>, n: int, h: int)
    requires InRange(replies, schedule) && 0 <= n <= |schedule| && Unsynced(replies, guard, schedule, n)
    requires 0 <= h < |Got(replies, schedule, n)|
    ensures !SuitableSynced(Got(replies, schedule, n)[h], guard)
  {
    var j := GotIsReceived(replies, schedule, n, h);
  }

  /** Two arrival orders of the same outcomes give the same class of answer. */
  lemma OrderDoesNotMatter(replies: seq<LaneReply>, guard: Option<ScriptGuard>,
                           ctx: Context, schedule: seq<Event>, turn: int, song: Song, err: Option<Error>,
                           ctx': Context, schedule': seq<Event>, turn': int, song': Song, err': Option<Error>)
    returns (c: ResultClass)
    requires NoneCancelled(replies)
    requires Legal(replies, guard, ctx, schedule) && ctx.cancelledFrom > |schedule| && WindowElapsed !in schedule
    requires Legal(replies, guard, ctx', schedule') && ctx'.cancelledFrom > |schedule'| && WindowElapsed !in schedule'
    requires RaceAnswer(replies, guard, ctx, schedule, turn, true, song, err)
    requires RaceAnswer(replies, guard, ctx', schedule', turn', true, song', err')
    ensures IsAnswerOf(guard, song, err, c) && IsAnswerOf(guard, song', err', c)
    ensures err.None? <==> err'.None?
    ensures QualityOf(song) == QualityOf(song') && ClassifyOutcome(err) == ClassifyOutcome(err')
  {
    c := RaceIsWorth(replies, guard, ctx, schedule, turn, song, err);
    var d := RaceIsWorth(replies, guard, ctx', schedule', turn', song', err');
    WorthIsUnique(replies, guard, c, d);
    ErrorSongsAreEmpty(replies, guard, ctx, schedule, turn, song, err);
    ErrorSongsAreEmpty(replies, guard, ctx', schedule', turn', song', err');
  }

  lemma ErrorSongsAreEmpty(replies: seq<LaneReply>, guard: Option<ScriptGuard>, ctx: Context, schedule: seq<Event>,
                           turn: int, song: Song, err: Option<Error>)
    requires InRange(replies, schedule) && RaceAnswer(replies, guard, ctx, schedule, turn, true, song, err)
    ensures err.Some? ==> QualityOf(song) == QUALITY_NONE
  {
  }

  // ----- Parallel against ordered -----

  /** An ordered call that found a suitable song: the race's answer is suitable too, and synced if any
      suitable one is. */
  lemma WorthAgainstWinner(replies: seq<LaneReply>, guard: Option<ScriptGuard>, c: ResultClass,
                           song: Song, err: Option<Error>, n: nat)
    requires IsWorth(replies, guard, c) && IsAnswerOf(guard, song, err, c)
    requires n < |replies| && Suitable(replies[n], guard)
    ensures err.None? && QualityOf(song) >= QualityOf(replies[n].song)
  {
    assert replies[n].err.None? && HasSong(replies) && HasSuitable(replies, guard);
    assert c.UnsyncedSong? ==> !SuitableSynced(replies[n], guard);
  }

  lemma WorthAgainstResolved(replies: seq<LaneReply>, guard: Option<ScriptGuard>, c: ResultClass,
                             song: Song, err: Option<Error>, song': Song, err': Option<Error>)
    requires IsWorth(replies, guard, c) && IsAnswerOf(guard, song, err, c)
    requires !HasSuitable(replies, guard) && Resolved(replies, None, song', err')
    ensures err.None? <==> err'.None?
    ensures err.None? ==> QualityOf(song) >= QualityOf(song')
    ensures ClassifyOutcome(err) == ClassifyOutcome(err')
  {
    var d := ResolvedWorth(replies, guard, song', err');
    WorthIsUnique(replies, guard, c, d);
  }

  lemma OrderedWon(replies: seq<LaneReply>, guard: Option<ScriptGuard>, ctx: Context,
                   calls: nat, song: Song, err: Option<Error>)
    requires OrderedAnswer(replies, guard, ctx, calls, song, err)
    requires 0 < calls <= |replies| && Suitable(replies[calls - 1], guard)
    ensures err.None? && QualityOf(song) == QualityOf(replies[calls - 1].song)
  {
  }

  /** Under a live parent, ordered mode without a winner has been through every lane. */
  lemma OrderedExhausted(replies: seq<LaneReply>, guard: Option<ScriptGuard>, ctx: Context,
                         calls: nat, song: Song, err: Option<Error>)
    requires OrderedAnswer(replies, guard, ctx, calls, song, err) && ctx.cancelledFrom > |replies|
    requires calls == 0 || !Suitable(replies[calls - 1], guard)
    ensures !HasSuitable(replies, guard)
    ensures Resolved(replies, None, song, err)
  {
    assert calls == |replies| && ctx.Err(|replies|).None?;
  }

  /** On the same outcomes the race finds a song exactly when ordered mode does, never a worse one,
      and fails with the same class of error. */
  lemma RaceIsNoWorseThanOrdered(replies: seq<LaneReply>, guard: Option<ScriptGuard>,
                                 ctx: Context, schedule: seq<Event>, turn: int, song: Song, err: Option<Error>,
                                 ctx': Context, calls: nat, song': Song, err': Option<Error>)
    requires NoneCancelled(replies)
    requires Legal(replies, guard, ctx, schedule) && ctx.cancelledFrom > |schedule| && WindowElapsed !in schedule
    requires RaceAnswer(replies, guard, ctx, schedule, turn, true, song, err)
    requires OrderedAnswer(replies, guard, ctx', calls, song', err') && ctx'.cancelledFrom > |replies|
    ensures err.None? <==> err'.None?
    ensures err.None? ==> QualityOf(song) >= QualityOf(song')
    ensures ClassifyOutcome(err) == ClassifyOutcome(err')
  {
    var c := RaceIsWorth(replies, guard, ctx, schedule, turn, song, err);
    if calls > 0 && Suitable(replies[calls - 1], guard) {
      OrderedWon(replies, guard, ctx', calls, song', err');
      WorthAgainstWinner(replies, guard, c, song, err, calls - 1);
    } else {
      OrderedExhausted(replies, guard, ctx', calls, song', err');
      WorthAgainstResolved(replies, guard, c, song, err, song', err');
    }
  }

  /** When the upgrade window decides, both modes return a song; the race's falls short only of a
      synced one it would have had to wait for. */
  lemma WindowAgainstOrdered(replies: seq<LaneReply>, guard: Option<ScriptGuard>,
                             ctx: Context, schedule: seq<Event>, turn: int, song: Song, err: Option<Error>,
                             ctx': Context, calls: nat, song': Song, err': Option<Error>)
    requires Legal(replies, guard, ctx, schedule) && ctx.cancelledFrom > |schedule|
    requires RaceAnswer(replies, guard, ctx, schedule, turn, true, song, err) && schedule[turn] == WindowElapsed
    requires OrderedAnswer(replies, guard, ctx', calls, song', err') && ctx'.cancelledFrom > |replies|
    ensures err.None? && err'.None?
    ensures QualityOf(song) >= Min(QualityOf(song'), QUALITY_UNSYNCED)
  {
    var h := WindowCommitsTheHeldSong(replies, guard, ctx, schedule, turn, song, err);
    var j := GotIsReceived(replies, schedule, turn, h);
    assert Suitable(replies[schedule[j].lane], guard) && HasSuitable(replies, guard);
    OrderedHasWinner(replies, guard, ctx', calls, song', err');
    OrderedWon(replies, guard, ctx', calls, song', err');
  }

  /** With a suitable outcome among the lanes, ordered mode under a live parent has a winner. */
  lemma OrderedHasWinner(replies: seq<LaneReply>, guard: Option<ScriptGuard>, ctx: Context,
                         calls: nat, song: Song, err: Option<Error>)
    requires OrderedAnswer(replies, guard, ctx, calls, song, err) && ctx.cancelledFrom > |replies|
    requires HasSuitable(replies, guard)
    ensures calls > 0 && Suitable(replies[calls - 1], guard)
  {
    if calls == 0 || !Suitable(replies[calls - 1], guard) { OrderedExhausted(replies, guard, ctx, calls, song, err); }
  }

  // ----- Senders -----

  /** The buffered results channel: who has sent, and what the collector has not yet taken. */
  datatype Channel = Channel(sent: set<nat>, buffer: seq<nat>)

  /** Lane goroutines and the collector's loop, interleaved. */
  datatype Move = Send(lane: nat) | Turn(event: Event)

  /** Each lane sends once, into a free slot of a buffer that has one per lane. A receive takes the
      oldest result; the other turns of the select do not touch the channel. */
  predicate CanMove(lanes: nat, s: Channel, m: Move) {
    match m
    case Send(i) => i < lanes && i !in s.sent && |s.buffer| < lanes
    case Turn(Receive(i)) => s.buffer != [] && s.buffer[0] == i
    case Turn(_) => true
  }

  function Moved(lanes: nat, s: Channel, m: Move): Channel
    requires CanMove(lanes, s, m)
  {
    match m
    case Send(i) => Channel(s.sent + {i}, s.buffer + [i])
    case Turn(Receive(_)) => s.(buffer := s.buffer[1..])
    case Turn(_) => s
  }

  ghost predicate ChannelStep(lanes: nat, run: seq<Channel>, moves: seq<Move>, k: nat)
    requires k < |moves| && |run| == |moves| + 1
  {
    CanMove(lanes, run[k], moves[k]) && run[k + 1] == Moved(lanes, run[k], moves[k])
  }

  ghost predicate ChannelRun(lanes: nat, run: seq<Channel>, moves: seq<Move>) {
    && |run| == |moves| + 1 && run[0] == Channel({}, [])
    && forall k :: 0 <= k < |moves| ==> ChannelStep(lanes, run, moves, k)
  }

  /** The schedule the collector saw: its turns, in order. */
  function TurnsOf(moves: seq<Move>, n: nat): seq<Event>
    requires n <= |moves|
  {
    if n == 0 then []
    else if moves[n - 1].Turn? then TurnsOf(moves, n - 1) + [moves[n - 1].event]
    else TurnsOf(moves, n - 1)
  }

  /** A result is in the buffer or has been received, never both, and only if its lane sent it. */
  ghost predicate Accounted(lanes: nat, s: Channel, schedule: seq<Event>) {
    && (forall i :: i in s.sent ==> i < lanes) && |s.buffer| <= |s.sent|
    && (forall k :: 0 <= k < |s.buffer| ==> s.buffer[k] in s.sent && Receive(s.buffer[k]) !in schedule)
    && (forall k, m :: 0 <= k < m < |s.buffer| ==> s.buffer[k] != s.buffer[m])
    && (forall i :: Receive(i) in schedule ==> i in s.sent)
  }

  lemma {:induction false} AlwaysAccounted(lanes: nat, run: seq<Channel>, moves: seq<Move>, k: nat)
    requires ChannelRun(lanes, run, moves) && k < |run|
    ensures Accounted(lanes, run[k], TurnsOf(moves, k))
  {
    if k > 0 {
      AlwaysAccounted(lanes, run, moves, k - 1);
      assert ChannelStep(lanes, run, moves, k - 1);
    }
  }

  /** A lane that has yet to send can always do so, at any point of the race and also when the
      collector has returned and takes nothing more: no losing lane is left blocked. */
  lemma NoSenderBlocks(lanes: nat, run: seq<Channel>, moves: seq<Move>, k: nat, i: nat)
    requires ChannelRun(lanes, run, moves) && k < |run| && i < lanes && i !in run[k].sent
    ensures CanMove(lanes, run[k], Send(i))
  {
    AlwaysAccounted(lanes, run, moves, k);
    SmallSet(run[k].sent + {i}, lanes);
  }

  /** What the race assumes of its schedules the channel delivers: every receive names a lane, and no
      lane is received twice. */
  lemma {:induction false} ReceivesAreLegal(lanes: nat, run: seq<Channel>, moves: seq<Move>, k: nat)
    requires ChannelRun(lanes, run, moves) && k < |run|
    ensures OncePerLane(TurnsOf(moves, k))
    ensures forall t :: 0 <= t < |TurnsOf(moves, k)| && TurnsOf(moves, k)[t].Receive? ==>
            TurnsOf(moves, k)[t].lane < lanes
  {
    if k > 0 {
      ReceivesAreLegal(lanes, run, moves, k - 1);
      AlwaysAccounted(lanes, run, moves, k - 1);
      assert ChannelStep(lanes, run, moves, k - 1);
      if moves[k - 1].Turn? {
        if moves[k - 1].event.Receive? { assert run[k - 1].buffer[0] == moves[k - 1].event.lane; }
        OneMoreTurn(TurnsOf(moves, k - 1), moves[k - 1].event);
      }
    }
  }

  lemma OneMoreTurn(schedule: seq<Event>, e: Event)
    requires OncePerLane(schedule) && (e.Receive? ==> e !in schedule)
    ensures OncePerLane(schedule + [e])
  {
  }
}
