/** The durable work queue (internal/queue/queue.go): a table of work rows, the scan results they came
    from, and the links between the two. One SQL transaction is one atomic step.

    Clock readings are nanoseconds; what the table stores is RFC 3339 text in whole seconds (section
    5.1 of RFC 3339 makes comparing such texts comparing instants), so stored times are seconds. */
module Queue {
  import opened Prelude
  import opened Backoff

  const PRIORITY_MISS := -100
  const PRIORITY_SCAN := 0
  const PRIORITY_WEBHOOK := 10

  const MISS_LIMIT_REACHED := "miss limit reached"

  datatype Status = Pending | Processing | Done | Failed | Deferred {
    predicate Retryable() {
      Pending? || Failed? || Deferred?
    }
  }

  datatype OutputPath = OutputPath(outdir: string, filename: string)

  /** The descriptive columns, refreshed together by a conflicting Enqueue. */
  datatype Meta = Meta(artist: string, title: string, album: string, albumArtist: string,
                       outdir: string, filename: string, sourcePath: string)

  /** `key` is the normalised (artist, title) pair; NormalizeKey itself is outside the model. */
  datatype Inputs = Inputs(key: (string, string), meta: Meta, outputPaths: seq<OutputPath>,
                           scanResultID: int, detectInstrumental: Option<bool>)

  datatype Row = Row(
    key: (string, string),
    meta: Meta,
    outputPaths: seq<OutputPath>,
    scanResultID: Option<int>,
    status: Status,
    priority: int,
    attempts: int,
    missCount: int,
    providersVersion: int,
    detectInstrumental: Option<bool>,
    instrumentalResult: Option<int>,
    nextAttemptAt: int,
    lastError: string,
    createdAt: int,
    completedAt: Option<int>)

  datatype ScanStatus = ScanPending | ScanProcessing | ScanDone | ScanFailed

  datatype ScanRow = ScanRow(libraryID: int, outdir: string, filename: string, status: ScanStatus)

  /** `nextId` is the AUTOINCREMENT counter: row ids are never reused. */
  datatype DB = DB(rows: map<int, Row>, scans: map<int, ScanRow>, links: set<(int, int)>, nextId: int)

  datatype Config = Config(baseBackoff: Duration, maxBackoff: Duration, randomized: bool, providersVersion: int)

  datatype Result = Ok | NoRows | NotRetryable | ForeignKeyViolation

  const EMPTY := DB(map[], map[], {}, 1)

  /** formatTime: RFC 3339 drops the fraction of a second. */
  function Secs(t: int): int {
    t / 1_000_000_000
  }

  // ----- Statements shared by several operations -----

  /** UPDATE scan_results SET status = to WHERE linked to one of `ids`, in `from`, and in the library. */
  function FlipLinked(db: DB, ids: set<int>, from: set<ScanStatus>, to_: ScanStatus,
                      lib: Option<int>): (scans: map<int, ScanRow>)
    ensures scans.Keys == db.scans.Keys
  {
    map sid | sid in db.scans ::
      if (exists id :: id in ids && (id, sid) in db.links) && db.scans[sid].status in from
         && (lib.Some? ==> db.scans[sid].libraryID == lib.value)
      then db.scans[sid].(status := to_) else db.scans[sid]
  }

  const NOT_DONE := {ScanPending, ScanProcessing, ScanFailed}

  /** DELETE FROM work_queue, the links cascading. */
  function DeleteRows(db: DB, ids: set<int>): DB {
    db.(rows := db.rows - ids, links := (set l | l in db.links && l.0 !in ids))
  }

  /** A row is in a library when one of its linked scan results is. */
  predicate InLibrary(db: DB, id: int, lib: int) {
    exists l :: l in db.links && l.0 == id && l.1 in db.scans && db.scans[l.1].libraryID == lib
  }

  predicate InScope(db: DB, id: int, lib: Option<int>) {
    lib.Some? ==> InLibrary(db, id, lib.value)
  }

  predicate Claimed(db: DB, id: int) {
    id in db.rows && db.rows[id].status == Processing
  }

  // ----- Enqueue -----

  function NewRow(cfg: Config, inputs: Inputs, priority: int, now: int): Row {
    Row(inputs.key, inputs.meta,
        if inputs.outputPaths == [] then [OutputPath(inputs.meta.outdir, inputs.meta.filename)] else inputs.outputPaths,
        if inputs.scanResultID <= 0 then None else Some(inputs.scanResultID),
        Pending, priority, 0, 0, cfg.providersVersion, inputs.detectInstrumental, None, Secs(now), "", Secs(now), None)
  }

  /** ON CONFLICT(artist_key, title_key) DO UPDATE: o is the stored row, e the one being inserted. */
  function Merged(o: Row, e: Row): Row {
    var locked := o.status == Done || o.status == Processing;
    var webhook := e.priority >= PRIORITY_WEBHOOK;
    o.(meta := if locked then o.meta else e.meta,
       outputPaths := if locked then o.outputPaths else e.outputPaths,
       scanResultID := if o.scanResultID.Some? then o.scanResultID else e.scanResultID,
       priority := if webhook then e.priority else if o.status == Deferred then o.priority
         else Max(o.priority, e.priority),
       nextAttemptAt :=
         if locked then o.nextAttemptAt
         else if o.status == Failed || o.status == Deferred then (if webhook then e.nextAttemptAt else o.nextAttemptAt)
         else e.nextAttemptAt,
       lastError := if o.status == Pending then "" else o.lastError,
       completedAt := if o.status == Done then o.completedAt else None)
  }

  ghost predicate HasKey(db: DB, key: (string, string), id: int) {
    id in db.rows && db.rows[id].key == key
  }

  /** The id the insert lands on: the conflicting row's, or the next free one. */
  ghost function TargetOf(db: DB, key: (string, string)): (id: int)
    ensures HasKey(db, key, id) || (id == db.nextId && forall i :: !HasKey(db, key, i))
  {
    if exists i :: HasKey(db, key, i) then
      var i :| HasKey(db, key, i); i
    else db.nextId
  }

  predicate Dangling(db: DB, inputs: Inputs) {
    inputs.scanResultID > 0 && inputs.scanResultID !in db.scans
  }

  ghost function EnqueueStep(cfg: Config, db: DB, inputs: Inputs, priority: int, now: int): DB {
    if Dangling(db, inputs) then db
    else
      var e, id := NewRow(cfg, inputs, priority, now), TargetOf(db, inputs.key);
      db.(rows := db.rows[id := if id in db.rows && db.rows[id].key == inputs.key then Merged(db.rows[id], e) else e],
          nextId := if id in db.rows then db.nextId else db.nextId + 1,
          links := db.links + (if inputs.scanResultID > 0 then {(id, inputs.scanResultID)} else {}))
  }

  // ----- Dequeue -----

  predicate Eligible(row: Row, now: int) {
    row.status.Retryable() && row.nextAttemptAt <= Secs(now)
  }

  /** ORDER BY priority DESC, then RANDOM() or created_at ASC, id ASC; LIMIT 1. */
  ghost predicate LegalPick(cfg: Config, db: DB, now: int, pick: Option<int>) {
    match pick
    case None => forall id :: id in db.rows ==> !Eligible(db.rows[id], now)
    case Some(p) =>
      && p in db.rows && Eligible(db.rows[p], now)
      && forall id :: id in db.rows && Eligible(db.rows[id], now) ==> !Before(cfg, db, id, p)
  }

  predicate Before(cfg: Config, db: DB, a: int, b: int)
    requires a in db.rows && b in db.rows
  {
    || db.rows[a].priority > db.rows[b].priority
    || (!cfg.randomized && db.rows[a].priority == db.rows[b].priority
        && (db.rows[a].createdAt < db.rows[b].createdAt || (db.rows[a].createdAt == db.rows[b].createdAt && a < b)))
  }

  function DequeueStep(db: DB, pick: Option<int>): DB
    requires pick.Some? ==> pick.value in db.rows
  {
    if pick.None? then db else db.(rows := db.rows[pick.value := db.rows[pick.value].(status := Processing)])
  }

  // ----- The worker's outcomes -----

  function CompleteStep(db: DB, id: int, now: int): DB {
    if !Claimed(db, id) then db
    else
      db.(rows := db.rows[id := db.rows[id].(status := Done, completedAt := Some(Secs(now)), lastError := "")],
          scans := FlipLinked(db, {id}, NOT_DONE, ScanDone, None))
  }

  function ReleaseStep(db: DB, id: int): DB {
    if !Claimed(db, id) then db
    else db.(rows := db.rows[id := db.rows[id].(status := Pending, lastError := "")])
  }

  function FailStep(cfg: Config, db: DB, id: int, now: int, cause: string): DB {
    if !Claimed(db, id) then db
    else
      var n := db.rows[id].attempts + 1;
      var at := Secs(now + Delay(n, cfg.baseBackoff as int, cfg.maxBackoff as int));
      db.(rows := db.rows[id := db.rows[id].(status := Failed, attempts := n, nextAttemptAt := at, lastError := cause)])
  }

  function DeferStep(db: DB, id: int, now: int, retryAfter: int, cause: string): DB {
    if !Claimed(db, id) then db
    else
      db.(rows := db.rows[id := db.rows[id].(status := Deferred, missCount := db.rows[id].missCount + 1,
                                             priority := PRIORITY_MISS, nextAttemptAt := Secs(now + retryAfter),
                                               lastError := cause)])
  }

  function RetireMissStep(db: DB, id: int, now: int): DB {
    if !Claimed(db, id) then db
    else
      db.(rows := db.rows[id := db.rows[id].(status := Done, completedAt := Some(Secs(now)),
        lastError := MISS_LIMIT_REACHED)],
          scans := FlipLinked(db, {id}, NOT_DONE, ScanDone, None))
  }

  function SetInstrumentalStep(db: DB, id: int, result: int): DB {
    if id !in db.rows then db else db.(rows := db.rows[id := db.rows[id].(instrumentalResult := Some(result))])
  }

  // ----- Maintenance -----

  function CleanupIds(db: DB, key: (string, string)): set<int> {
    set id | id in db.rows && db.rows[id].key == key && db.rows[id].status.Retryable()
  }

  function DeferredIds(db: DB, lib: Option<int>): set<int> {
    set id | id in db.rows && db.rows[id].status == Deferred && InScope(db, id, lib)
  }

  function RecheckDeferredStep(db: DB, lib: Option<int>, now: int): DB {
    var ids := DeferredIds(db, lib);
    db.(rows := map id | id in db.rows :: if id in ids then db.rows[id].(nextAttemptAt := Secs(now)) else db.rows[id])
  }

  predicate Retired(row: Row) {
    row.status == Done && row.lastError == MISS_LIMIT_REACHED
  }

  function RetiredIds(db: DB, lib: Option<int>): set<int> {
    set id | id in db.rows && Retired(db.rows[id]) && InScope(db, id, lib)
  }

  function Revived(row: Row, now: int): Row {
    row.(status := Deferred, priority := PRIORITY_MISS, nextAttemptAt := Secs(now), lastError := "",
      completedAt := None)
  }

  function RecheckRetiredStep(db: DB, lib: Option<int>, now: int): DB {
    var ids := RetiredIds(db, lib);
    db.(rows := map id | id in db.rows :: if id in ids then Revived(db.rows[id], now) else db.rows[id],
        scans := FlipLinked(db, ids, {ScanDone}, ScanPending, lib))
  }

  function RetryStep(db: DB, id: int, now: int): DB {
    if id in db.rows && db.rows[id].status == Failed then
      db.(rows := db.rows[id := db.rows[id].(status := Pending, attempts := 0, nextAttemptAt := Secs(now),
        lastError := "")],
          scans := FlipLinked(db, {id}, {ScanProcessing}, ScanPending, None))
    else db
  }

  function DoneIds(db: DB): set<int> {
    set id | id in db.rows && db.rows[id].status == Done
  }

  predicate ConfirmedInstrumental(db: DB, id: int) {
    id in db.rows && db.rows[id].instrumentalResult == Some(1) && db.rows[id].status == Done
  }

  function ResetInstrumentalStep(db: DB, id: int, now: int): DB {
    if !ConfirmedInstrumental(db, id) then db
    else
      db.(rows := db.rows[id := Revived(db.rows[id], now).(instrumentalResult := None)],
          scans := FlipLinked(db, {id}, {ScanDone}, ScanPending, None))
  }

  // ----- The scan layer, as far as the queue sees it -----

  function ScanWriteStep(db: DB, sid: int, row: ScanRow): DB {
    db.(scans := db.scans[sid := row])
  }

  /** Links cascade; work_queue.scan_result_id is ON DELETE SET NULL. */
  function ScanDeleteStep(db: DB, sid: int): DB {
    db.(scans := db.scans - {sid},
        links := (set l | l in db.links && l.1 != sid),
        rows := map id | id in db.rows ::
          if db.rows[id].scanResultID == Some(sid) then db.rows[id].(scanResultID := None) else db.rows[id])
  }

  // ----- CancelByLibrary -----

  /** The map key of a path: outdir, a NUL, filename. */
  function OutputPathKey(p: OutputPath): string {
    p.outdir + ['\0'] + p.filename
  }

  /** Keys of the row's linked scan results in other libraries. */
  function KeepSet(db: DB, id: int, lib: int): set<string> {
    set l | l in db.links && l.0 == id && l.1 in db.scans && db.scans[l.1].libraryID != lib ::
      OutputPathKey(OutputPath(db.scans[l.1].outdir, db.scans[l.1].filename))
  }

  function Filtered(paths: seq<OutputPath>, keep: set<string>): seq<OutputPath> {
    if paths == [] then []
    else if OutputPathKey(paths[|paths| - 1]) in keep then Filtered(paths[..|paths| - 1], keep) + [paths[|paths| - 1]]
    else Filtered(paths[..|paths| - 1], keep)
  }

  function PathsLeft(db: DB, id: int, lib: int): seq<OutputPath>
    requires id in db.rows
  {
    Filtered(db.rows[id].outputPaths, KeepSet(db, id, lib))
  }

  /** Retryable rows linked to the library. */
  function Candidates(db: DB, lib: int): set<int> {
    set id | id in db.rows && db.rows[id].status.Retryable() && InLibrary(db, id, lib)
  }

  function Emptied(db: DB, lib: int): set<int> {
    set id | id in Candidates(db, lib) && PathsLeft(db, id, lib) == []
  }

  function Trimmed(db: DB, lib: int): set<int> {
    set id | id in Candidates(db, lib) && PathsLeft(db, id, lib) != []
      && |PathsLeft(db, id, lib)| != |db.rows[id].outputPaths|
  }

  /** Emptied candidates go, their links with them; trimmed ones keep what is left. */
  function CancelStep(db: DB, lib: int): DB {
    var gone := Emptied(db, lib);
    db.(rows := map id | id in db.rows && id !in gone ::
          if id in Trimmed(db, lib) then db.rows[id].(outputPaths := PathsLeft(db, id, lib)) else db.rows[id],
        links := (set l | l in db.links && l.0 !in gone))
  }

  // ----- Any caller, any order -----

  datatype Op =
    | Enqueue(inputs: Inputs, priority: int, now: int)
    | Dequeue(now: int, pick: Option<int>)
    | Complete(id: int, now: int)
    | Release(id: int)
    | Fail(id: int, now: int, cause: string)
    | Defer(id: int, now: int, retryAfter: int, cause: string)
    | RetireMiss(id: int, now: int)
    | SetInstrumental(id: int, result: int)
    | Cleanup(key: (string, string))
    | RecheckDeferred(lib: Option<int>, now: int)
    | RecheckRetired(lib: Option<int>, now: int)
    | Retry(id: int, now: int)
    | ClearDone
    | ResetInstrumental(id: int, now: int)
    | CancelByLibrary(library: int)
    | ScanWrite(sid: int, scan: ScanRow)
    | ScanDelete(sid: int)

  ghost predicate Enabled(cfg: Config, db: DB, op: Op) {
    op.Dequeue? ==> LegalPick(cfg, db, op.now, op.pick)
  }

  ghost function Apply(cfg: Config, db: DB, op: Op): DB
    requires Enabled(cfg, db, op)
  {
    match op
    case Enqueue(inputs, priority, now) => EnqueueStep(cfg, db, inputs, priority, now)
    case Dequeue(_, pick) => DequeueStep(db, pick)
    case Complete(id, now) => CompleteStep(db, id, now)
    case Release(id) => ReleaseStep(db, id)
    case Fail(id, now, cause) => FailStep(cfg, db, id, now, cause)
    case Defer(id, now, retryAfter, cause) => DeferStep(db, id, now, retryAfter, cause)
    case RetireMiss(id, now) => RetireMissStep(db, id, now)
    case SetInstrumental(id, result) => SetInstrumentalStep(db, id, result)
    case Cleanup(key) => DeleteRows(db, CleanupIds(db, key))
    case RecheckDeferred(lib, now) => RecheckDeferredStep(db, lib, now)
    case RecheckRetired(lib, now) => RecheckRetiredStep(db, lib, now)
    case Retry(id, now) => RetryStep(db, id, now)
    case ClearDone => DeleteRows(db, DoneIds(db))
    case ResetInstrumental(id, now) => ResetInstrumentalStep(db, id, now)
    case CancelByLibrary(library) => CancelStep(db, library)
    case ScanWrite(sid, scan) => ScanWriteStep(db, sid, scan)
    case ScanDelete(sid) => ScanDeleteStep(db, sid)
  }

  /** Each step runs under the configuration in force at the time: providers come and go, and a store
      outlives the process that opened it. */
  ghost predicate StepAt(cfgs: seq<Config>, run: seq<DB>, ops: seq<Op>, k: nat)
    requires k < |ops| == |cfgs| && |run| == |ops| + 1
  {
    Enabled(cfgs[k], run[k], ops[k]) && run[k + 1] == Apply(cfgs[k], run[k], ops[k])
  }

  ghost predicate IsRun(cfgs: seq<Config>, run: seq<DB>, ops: seq<Op>) {
    && |cfgs| == |ops| && |run| == |ops| + 1 && run[0] == EMPTY
    && forall k :: 0 <= k < |ops| ==> StepAt(cfgs, run, ops, k)
  }
}
