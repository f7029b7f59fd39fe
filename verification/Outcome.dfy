/** Provider errors, their cross-lane classes, and song suitability
    (internal/orchestrator/errors.go, internal/orchestrator/suitability.go and the
    sentinels of internal/musixmatch/client.go). */
module Outcome {
  import opened Prelude

  /** The sentinel errors the core compares against. `Foreign` is any sentinel of another
      package, for instance the ones petitlyrics defines for itself. */
  datatype Sentinel =
    | LaneUnavailable
    | TokenRenewalRequired
    | Unauthorized
    | RateLimited
    | TruncatedResponse
    | NotFound
    | NoLyrics
    | ContextCanceled
    | DeadlineExceeded
    | Foreign(name: string)

  /** An error value: its text, and every sentinel found by unwrapping it all the way. */
  datatype Error = Error(text: string, chain: set<Sentinel>)

  function Base(s: Sentinel): Error {
    Error("", {s})
  }

  /** fmt.Errorf with %w: a new text around the same sentinels. */
  function Wrap(text: string, cause: Error): Error {
    Error(text, cause.chain)
  }

  /** errors.Is, with tokenRenewalError's own Is method: a renewal also answers to Unauthorized. */
  predicate Is(err: Error, target: Sentinel) {
    target in err.chain || (target == Unauthorized && TokenRenewalRequired in err.chain)
  }

  predicate IsBenignMiss(err: Error) {
    Is(err, NotFound) || Is(err, NoLyrics)
  }

  datatype OutcomeClass = Success | BenignMiss | Transport | AuthRateLimit | Unavailable {
    function Precedence(): int {
      match this
      case Success => 0
      case BenignMiss => 1
      case Transport => 2
      case AuthRateLimit => 3
      case Unavailable => 3
    }
  }

  function ClassifyOutcome(err: Option<Error>): OutcomeClass {
    match err
    case None => Success
    case Some(e) =>
      if Is(e, LaneUnavailable) then Unavailable
      else if Is(e, TokenRenewalRequired) || Is(e, Unauthorized) || Is(e, RateLimited) || Is(e, TruncatedResponse) then
        AuthRateLimit
      else if IsBenignMiss(e) then BenignMiss
      else Transport
  }

  /** No Musixmatch sentinel, and not the lane's own, is anywhere in the chain. */
  predicate Unrecognised(err: Error) {
    err.chain !! {LaneUnavailable, TokenRenewalRequired, Unauthorized, RateLimited, TruncatedResponse, NotFound,
      NoLyrics}
  }

  /** Whatever another package's sentinel means to it - a throttle, a miss - the error ranks as a
      transport failure exactly when it wraps none of those tested for here; wrapping does not help. */
  lemma TransportIff(err: Error, text: string)
    ensures ClassifyOutcome(Some(err)) == Transport <==> Unrecognised(err)
    ensures ClassifyOutcome(Some(Wrap(text, err))) == ClassifyOutcome(Some(err))
  {
  }

  // ----- Songs -----

  datatype LaneAttempt = LaneAttempt(lane: string, hit: bool)

  datatype Song = Song(
    subtitles: seq<string>,
    lyricsBody: string,
    instrumental: int,
    winningLane: string,
    laneAttempts: seq<LaneAttempt>)

  const NO_SONG := Song([], "", 0, "", [])

  /** QualityNone .. QualitySynced are 0 .. 3; the code compares them as integers. */
  type Quality = int

  const QUALITY_NONE: Quality := 0
  const QUALITY_INSTRUMENTAL: Quality := 1
  const QUALITY_UNSYNCED: Quality := 2
  const QUALITY_SYNCED: Quality := 3

  function QualityOf(song: Song): Quality {
    if |song.subtitles| > 0 then QUALITY_SYNCED
    else if song.lyricsBody != "" then QUALITY_UNSYNCED
    else if song.instrumental == 1 then QUALITY_INSTRUMENTAL
    else QUALITY_NONE
  }

  /** The configured script guard. `Option.None` is the nil guard. */
  datatype ScriptGuard = ScriptGuard(enabled: bool, accept: Song -> bool)

  predicate IsSuitable(song: Song, guard: Option<ScriptGuard>) {
    && QualityOf(song) >= QUALITY_UNSYNCED
    && (guard.Some? && guard.value.enabled ==> guard.value.accept(song))
  }

  // ----- Lane replies -----

  /** What one lane gives back: its song on success, the zero song on an error. */
  datatype LaneReply = LaneReply(name: string, song: Song, err: Option<Error>)

  /** The lane reached its provider; a breaker-open lane did not. */
  predicate Consulted(reply: LaneReply) {
    ClassifyOutcome(reply.err) != Unavailable
  }

  predicate Suitable(reply: LaneReply, guard: Option<ScriptGuard>) {
    reply.err.None? && IsSuitable(reply.song, guard)
  }
}
