/** What each queue operation writes, column by column, and where it does not write
    (internal/queue/queue.go). Statuses, priorities and times are spelled out as the statements have them. */
module QueueColumns {
  import opened Prelude
  import opened Backoff
  import opened Queue
  import opened QueueLaws

  // ----- Enqueue -----

  /** The columns no Enqueue touches. */
  ghost predicate SameHistory(o: Row, n: Row) {
    && n.key == o.key && n.status == o.status && n.attempts == o.attempts && n.missCount == o.missCount
    && n.providersVersion == o.providersVersion && n.detectInstrumental == o.detectInstrumental
    && n.instrumentalResult == o.instrumentalResult && n.createdAt == o.createdAt
  }

  predicate PathsOf(inputs: Inputs, paths: seq<OutputPath>) {
    if inputs.outputPaths == [] then paths == [OutputPath(inputs.meta.outdir, inputs.meta.filename)]
    else paths == inputs.outputPaths
  }

  /** On a conflict: a row being processed or done keeps what it was found with, any other takes the new
      description; a waiting row's due time is kept from a scan and reset by a webhook; a webhook's
      priority wins, a deferred row's survives a scan, and otherwise the higher one stays. */
  lemma EnqueueRefreshes(cfg: Config, db: DB, inputs: Inputs, priority: int, now: int, id: int)
    requires UniqueKeys(db) && HasKey(db, inputs.key, id) && !Dangling(db, inputs)
    ensures id in EnqueueStep(cfg, db, inputs, priority, now).rows
    ensures var o, n := db.rows[id], EnqueueStep(cfg, db, inputs, priority, now).rows[id];
      && SameHistory(o, n)
      && (o.status in {Done, Processing} ==>
            n.meta == o.meta && n.outputPaths == o.outputPaths && n.nextAttemptAt == o.nextAttemptAt)
      && (o.status in {Pending, Failed, Deferred} ==> n.meta == inputs.meta && PathsOf(inputs, n.outputPaths))
      && (o.status == Pending ==> n.nextAttemptAt == now / 1_000_000_000)
      && (o.status in {Failed, Deferred} && priority >= 10 ==> n.nextAttemptAt == now / 1_000_000_000)
      && (o.status in {Failed, Deferred} && priority < 10 ==> n.nextAttemptAt == o.nextAttemptAt)
      && (priority >= 10 ==> n.priority == priority)
      && (priority < 10 && o.status == Deferred ==> n.priority == o.priority)
      && (priority < 10 && o.status != Deferred ==>
            n.priority >= o.priority && n.priority >= priority && n.priority in {o.priority, priority})
      && (o.scanResultID.Some? ==> n.scanResultID == o.scanResultID)
      && (o.scanResultID.None? && inputs.scanResultID > 0 ==> n.scanResultID == Some(inputs.scanResultID))
      && (o.scanResultID.None? && inputs.scanResultID <= 0 ==> n.scanResultID == None)
      && (o.status == Pending ==> n.lastError == "") && (o.status != Pending ==> n.lastError == o.lastError)
      && (o.status == Done ==> n.completedAt == o.completedAt) && (o.status != Done ==> n.completedAt == None)
  {
    assert HasKey(db, inputs.key, TargetOf(db, inputs.key));
  }

  /** And nothing else changes but the link. */
  lemma RefreshFrame(cfg: Config, db: DB, inputs: Inputs, priority: int, now: int, id: int)
    requires UniqueKeys(db) && HasKey(db, inputs.key, id) && !Dangling(db, inputs)
    ensures var db' := EnqueueStep(cfg, db, inputs, priority, now);
      && db'.rows.Keys == db.rows.Keys && db'.scans == db.scans && db'.nextId == db.nextId
      && (forall i :: i in db.rows && i != id ==> db'.rows[i] == db.rows[i])
      && db'.links == db.links + (if inputs.scanResultID > 0 then {(id, inputs.scanResultID)} else {})
  {
    assert HasKey(db, inputs.key, TargetOf(db, inputs.key));
  }

  /** A new key: one pending row under the next id with the insert defaults, and its link. */
  lemma EnqueueInserts(cfg: Config, db: DB, inputs: Inputs, priority: int, now: int)
    requires WellFormed(db) && (forall i :: !HasKey(db, inputs.key, i)) && !Dangling(db, inputs)
    ensures var db', id := EnqueueStep(cfg, db, inputs, priority, now), db.nextId;
      && id in db'.rows && db'.rows == db.rows[id := db'.rows[id]] && db'.scans == db.scans && db'.nextId == id + 1
      && db'.links == db.links + (if inputs.scanResultID > 0 then {(id, inputs.scanResultID)} else {})
    ensures var n := EnqueueStep(cfg, db, inputs, priority, now).rows[db.nextId];
      && n.key == inputs.key && n.meta == inputs.meta && PathsOf(inputs, n.outputPaths)
      && n.scanResultID == (if inputs.scanResultID > 0 then Some(inputs.scanResultID) else None)
      && n.status == Pending && n.priority == priority && n.attempts == 0 && n.missCount == 0
      && n.providersVersion == cfg.providersVersion && n.detectInstrumental == inputs.detectInstrumental
      && n.instrumentalResult == None && n.nextAttemptAt == now / 1_000_000_000 && n.lastError == ""
      && n.createdAt == now / 1_000_000_000 && n.completedAt == None
  {
    assert TargetOf(db, inputs.key) == db.nextId;
  }

  // ----- Dequeue -----

  /** Claimable now: waiting in one of the three states, and due by the stored second. */
  predicate Due(row: Row, now: int) {
    row.status in {Pending, Failed, Deferred} && row.nextAttemptAt <= now / 1_000_000_000
  }

  /** The claim is a due row of the highest priority among the due; unless the order is randomised, the
      oldest of those, and the smallest id of equally old ones. */
  lemma PickIsForemost(cfg: Config, db: DB, now: int, p: int)
    ensures LegalPick(cfg, db, now, Some(p)) <==>
            p in db.rows && Due(db.rows[p], now)
            && forall i :: i in db.rows && Due(db.rows[i], now) ==>
                 && db.rows[i].priority <= db.rows[p].priority
                 && (db.rows[i].priority == db.rows[p].priority && !cfg.randomized ==>
                       db.rows[p].createdAt < db.rows[i].createdAt
                       || (db.rows[p].createdAt == db.rows[i].createdAt && p <= i))
    ensures LegalPick(cfg, db, now, None) <==> forall i :: i in db.rows ==> !Due(db.rows[i], now)
  {
    assert forall i :: i in db.rows ==> (Eligible(db.rows[i], now) <==> Due(db.rows[i], now));
  }

  // ----- Scope -----

  /** Some linked scan result belongs to the library; every row belongs to no library in particular. */
  ghost predicate Belongs(db: DB, id: int, lib: Option<int>) {
    lib.None? || exists sid: int :: (id, sid) in db.links && sid in db.scans && db.scans[sid].libraryID == lib.value
  }

  lemma ScopeIsBelonging(db: DB, id: int, lib: Option<int>)
    ensures InScope(db, id, lib) <==> Belongs(db, id, lib)
  {
    if lib.Some? {
      if InLibrary(db, id, lib.value) {
        var l :| l in db.links && l.0 == id && l.1 in db.scans && db.scans[l.1].libraryID == lib.value;
        var sid: int := l.1;
        assert (id, sid) in db.links && sid in db.scans;
      }
      if sid: int :| (id, sid) in db.links && sid in db.scans && db.scans[sid].libraryID == lib.value {
        var l := (id, sid);
        assert l in db.links && l.0 == id;
      }
    }
  }

  // ----- Deletions -----

  /** Cleanup deletes the waiting rows of the key, with their links, and nothing else. */
  lemma CleanupDeletes(db: DB, key: (string, string))
    ensures var db' := DeleteRows(db, CleanupIds(db, key));
      && (forall id :: id in db'.rows <==>
            id in db.rows && !(db.rows[id].key == key && db.rows[id].status in {Pending, Failed, Deferred}))
      && (forall id :: id in db'.rows ==> db'.rows[id] == db.rows[id]) && db'.scans == db.scans
      && (WellFormed(db) ==> forall l :: l in db'.links <==> l in db.links && l.0 in db'.rows)
  {
  }

  /** ClearDone deletes the done rows, with their links, and nothing else. */
  lemma ClearDoneDeletes(db: DB)
    ensures var db' := DeleteRows(db, DoneIds(db));
      && (forall id :: id in db'.rows <==> id in db.rows && db.rows[id].status != Done)
      && (forall id :: id in db'.rows ==> db'.rows[id] == db.rows[id]) && db'.scans == db.scans
      && (WellFormed(db) ==> forall l :: l in db'.links <==> l in db.links && l.0 in db'.rows)
  {
  }

  // ----- Rechecks -----

  /** RecheckDeferred makes the deferred rows in scope due now, and touches no other column or row. */
  lemma RecheckDeferredRearms(db: DB, lib: Option<int>, now: int, id: int)
    requires id in db.rows
    ensures var db' := RecheckDeferredStep(db, lib, now);
      && db'.rows.Keys == db.rows.Keys && db'.scans == db.scans && db'.links == db.links
      && db'.rows[id] == if db.rows[id].status == Deferred && Belongs(db, id, lib)
                         then db.rows[id].(nextAttemptAt := now / 1_000_000_000) else db.rows[id]
  {
    ScopeIsBelonging(db, id, lib);
  }

  /** A revived row waits behind all fresh work, is due now, and has lost its completion and its error;
      its identity and its counters are as they were. */
  ghost predicate BackInLine(o: Row, n: Row, now: int) {
    && n.status == Deferred && n.priority == -100 && n.nextAttemptAt == now / 1_000_000_000
    && n.lastError == "" && n.completedAt == None
    && n.key == o.key && n.meta == o.meta && n.outputPaths == o.outputPaths && n.scanResultID == o.scanResultID
    && n.attempts == o.attempts && n.missCount == o.missCount && n.createdAt == o.createdAt
    && n.providersVersion == o.providersVersion && n.detectInstrumental == o.detectInstrumental
  }

  lemma RecheckRetiredRevives(db: DB, lib: Option<int>, now: int, id: int)
    requires id in db.rows
    ensures var db', o := RecheckRetiredStep(db, lib, now), db.rows[id];
      && db'.rows.Keys == db.rows.Keys && db'.links == db.links
      && if o.status == Done && o.lastError == "miss limit reached" && Belongs(db, id, lib) then
           BackInLine(o, db'.rows[id], now) && db'.rows[id].instrumentalResult == o.instrumentalResult
         else db'.rows[id] == o
  {
    ScopeIsBelonging(db, id, lib);
  }

  /** Only a done row confirmed instrumental is reset, and it loses the verdict. */
  lemma ResetInstrumentalRevives(db: DB, id: int, now: int, other: int)
    requires other in db.rows
    ensures var db', o := ResetInstrumentalStep(db, id, now), db.rows[other];
      && db'.rows.Keys == db.rows.Keys && db'.links == db.links
      && if other == id && o.status == Done && o.instrumentalResult == Some(1) then
           BackInLine(o, db'.rows[other], now) && db'.rows[other].instrumentalResult == None
         else db'.rows[other] == o
  {
  }

  // ----- Outcomes -----

  /** Only a row being processed takes an outcome; then these columns change and no others. */
  lemma OutcomeColumns(cfg: Config, db: DB, id: int, now: int, retryAfter: int, cause: string, other: int)
    requires other in db.rows
    ensures var hit, o := other == id && db.rows[id].status == Processing, db.rows[other];
      && CompleteStep(db, id, now).rows[other]
         == (if hit then o.(status := Done, completedAt := Some(now / 1_000_000_000), lastError := "") else o)
      && ReleaseStep(db, id).rows[other] == (if hit then o.(status := Pending, lastError := "") else o)
      && DeferStep(db, id, now, retryAfter, cause).rows[other]
         == (if hit then o.(status := Deferred, missCount := o.missCount + 1, priority := -100,
                            nextAttemptAt := (now + retryAfter) / 1_000_000_000, lastError := cause) else o)
      && RetireMissStep(db, id, now).rows[other]
         == (if hit then o.(status := Done, completedAt := Some(now / 1_000_000_000), lastError := "miss limit reached")
             else o)
      && RetryStep(db, id, now).rows[other]
         == (if other == id && o.status == Failed
             then o.(status := Pending, attempts := 0, nextAttemptAt := now / 1_000_000_000, lastError := "") else o)
  {
  }

  /** A failure counts an attempt and waits the base doubled once per attempt after the first, the cap at
      most; the instrumental verdict goes to any row, whatever its status. */
  lemma FailureColumns(cfg: Config, db: DB, id: int, now: int, cause: string, result: int, other: int)
    requires other in db.rows
    ensures var hit, o := other == id && db.rows[id].status == Processing, db.rows[other];
      && FailStep(cfg, db, id, now, cause).rows[other]
         == (if hit then
               o.(status := Failed, attempts := o.attempts + 1, lastError := cause,
                  nextAttemptAt := FailStep(cfg, db, id, now, cause).rows[other].nextAttemptAt)
             else o)
      && (hit && cfg.baseBackoff > 0 && cfg.maxBackoff > 0 ==>
            FailStep(cfg, db, id, now, cause).rows[other].nextAttemptAt
            == (now + Min(cfg.baseBackoff as int * Pow2(Max(0, o.attempts)), cfg.maxBackoff as int)) / 1_000_000_000)
      && (hit && (cfg.baseBackoff <= 0 || cfg.maxBackoff <= 0) ==>
            FailStep(cfg, db, id, now, cause).rows[other].nextAttemptAt == now / 1_000_000_000)
      && SetInstrumentalStep(db, id, result).rows[other]
         == (if other == id then o.(instrumentalResult := Some(result)) else o)
  {
  }

  ghost predicate SameTables(db: DB, after: DB) {
    && after.rows.Keys == db.rows.Keys && after.links == db.links && after.nextId == db.nextId
    && after.scans.Keys == db.scans.Keys
  }

  /** An outcome moves no link, creates and deletes no row, and touches the scan results only when it
      closes the row. */
  lemma OutcomeFrame(cfg: Config, db: DB, id: int, now: int, retryAfter: int, cause: string)
    ensures SameTables(db, CompleteStep(db, id, now)) && SameTables(db, RetireMissStep(db, id, now))
    ensures SameTables(db, RetryStep(db, id, now))
    ensures var after := ReleaseStep(db, id); SameTables(db, after) && after.scans == db.scans
    ensures var after := FailStep(cfg, db, id, now, cause); SameTables(db, after) && after.scans == db.scans
    ensures var after := DeferStep(db, id, now, retryAfter, cause); SameTables(db, after) && after.scans == db.scans
  {
  }

  /** Closing a row closes the scan results linked to it and no others. */
  lemma ClosingScans(db: DB, id: int, now: int, sid: int)
    requires id in db.rows && sid in db.scans
    ensures var after := if db.rows[id].status == Processing && (id, sid) in db.links
                         then db.scans[sid].(status := ScanDone) else db.scans[sid];
      sid in CompleteStep(db, id, now).scans && CompleteStep(db, id, now).scans[sid] == after
      && sid in RetireMissStep(db, id, now).scans && RetireMissStep(db, id, now).scans[sid] == after
  {
    FlipOne(db, id, sid, NOT_DONE, ScanDone);
    var status := db.scans[sid].status;
    assert status in NOT_DONE || status == ScanDone;
  }

  lemma FlipOne(db: DB, id: int, sid: int, from: set<ScanStatus>, to_: ScanStatus)
    requires sid in db.scans
    ensures sid in FlipLinked(db, {id}, from, to_, None)
    ensures FlipLinked(db, {id}, from, to_, None)[sid]
            == if (id, sid) in db.links && db.scans[sid].status in from then db.scans[sid].(status := to_)
              else db.scans[sid]
  {
    assert (id, sid) in db.links <==> exists i :: i in {id} && (i, sid) in db.links;
  }

  /** Retry reopens the linked scan results a worker had begun on; ResetInstrumental the closed ones. */
  lemma ReopeningScans(db: DB, id: int, now: int, sid: int)
    requires id in db.rows && sid in db.scans
    ensures var linked, scan := (id, sid) in db.links, db.scans[sid];
      && sid in RetryStep(db, id, now).scans
      && RetryStep(db, id, now).scans[sid]
         == (if db.rows[id].status == Failed && linked && scan.status == ScanProcessing
             then scan.(status := ScanPending) else scan)
      && sid in ResetInstrumentalStep(db, id, now).scans
      && ResetInstrumentalStep(db, id, now).scans[sid]
         == (if db.rows[id].status == Done && db.rows[id].instrumentalResult == Some(1) && linked
           && scan.status == ScanDone
             then scan.(status := ScanPending) else scan)
  {
    FlipOne(db, id, sid, {ScanProcessing}, ScanPending);
    FlipOne(db, id, sid, {ScanDone}, ScanPending);
  }
}
