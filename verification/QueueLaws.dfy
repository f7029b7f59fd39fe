/** What every interleaving of queue operations keeps (internal/queue/queue.go). Each operation acts
    on a row in one of a few ways; the invariants are read off those. */
module QueueLaws {
  import opened Prelude
  import opened Backoff
  import opened Queue

  // ----- What an operation may do to one row -----

  ghost predicate RowStep(cfg: Config, op: Op, id: int, o: Row, n: Row) {
    match op
    case Enqueue(inputs, priority, now) => n == o
      || (o.key == inputs.key && n == Merged(o, NewRow(cfg, inputs, priority, now)))
    case Dequeue(now, pick) => n == if pick == Some(id) then o.(status := Processing) else o
    case Complete(i, now) =>
      n == if i == id && o.status == Processing then
        o.(status := Done, completedAt := Some(Secs(now)), lastError := "") else o
    case Release(i) => n == if i == id && o.status == Processing then o.(status := Pending, lastError := "") else o
    case Fail(i, now, cause) =>
      n == if i == id && o.status == Processing then
             o.(status := Failed, attempts := o.attempts + 1, lastError := cause,
                nextAttemptAt := Secs(now + Delay(o.attempts + 1, cfg.baseBackoff as int, cfg.maxBackoff as int)))
           else o
    case Defer(i, now, retryAfter, cause) =>
      n == if i == id && o.status == Processing then
             o.(status := Deferred, missCount := o.missCount + 1, priority := PRIORITY_MISS,
                nextAttemptAt := Secs(now + retryAfter), lastError := cause)
           else o
    case RetireMiss(i, now) =>
      n == if i == id && o.status == Processing then
             o.(status := Done, completedAt := Some(Secs(now)), lastError := MISS_LIMIT_REACHED)
           else o
    case SetInstrumental(i, result) => n == if i == id then o.(instrumentalResult := Some(result)) else o
    case RecheckDeferred(_, now) => n == o || (o.status == Deferred && n == o.(nextAttemptAt := Secs(now)))
    case RecheckRetired(_, now) => n == o || (Retired(o) && n == Revived(o, now))
    case Retry(i, now) =>
      n == if i == id && o.status == Failed then
             o.(status := Pending, attempts := 0, nextAttemptAt := Secs(now), lastError := "")
           else o
    case ResetInstrumental(i, now) =>
      n == o || (i == id && o.status == Done && n == Revived(o, now).(instrumentalResult := None))
    case CancelByLibrary(_) => n == o || (o.status.Retryable() && n == o.(outputPaths := n.outputPaths))
    case ScanDelete(_) => n == o.(scanResultID := n.scanResultID)
    case _ => n == o
  }

  ghost predicate WellFormed(db: DB) {
    && (forall id :: id in db.rows ==> id < db.nextId)
    && (forall l :: l in db.links ==> l.0 in db.rows && l.1 in db.scans)
  }

  lemma RowEvolves(cfg: Config, db: DB, op: Op, id: int)
    requires WellFormed(db) && Enabled(cfg, db, op)
    requires id in db.rows && id in Apply(cfg, db, op).rows
    ensures RowStep(cfg, op, id, db.rows[id], Apply(cfg, db, op).rows[id])
  {
  }

  /** Only Enqueue makes rows: at most one, under the next id, for a key no row has. */
  lemma RowAppears(cfg: Config, db: DB, op: Op, id: int)
    requires WellFormed(db) && Enabled(cfg, db, op)
    requires id !in db.rows && id in Apply(cfg, db, op).rows
    ensures op.Enqueue? && id == db.nextId && Apply(cfg, db, op).nextId == id + 1
    ensures Apply(cfg, db, op).rows[id] == NewRow(cfg, op.inputs, op.priority, op.now)
    ensures forall i :: !HasKey(db, op.inputs.key, i)
  {
  }

  lemma NextIdGrows(cfg: Config, db: DB, op: Op)
    requires Enabled(cfg, db, op)
    ensures db.nextId <= Apply(cfg, db, op).nextId
  {
  }

  lemma StepKeepsWellFormed(cfg: Config, db: DB, op: Op)
    requires WellFormed(db) && Enabled(cfg, db, op)
    ensures WellFormed(Apply(cfg, db, op))
  {
    var db' := Apply(cfg, db, op);
    NextIdGrows(cfg, db, op);
    forall id | id in db'.rows
      ensures id < db'.nextId
    {
      if id !in db.rows { RowAppears(cfg, db, op, id); }
    }
    forall l | l in db'.links
      ensures l.0 in db'.rows && l.1 in db'.scans
    {
    }
  }

  // ----- The invariant -----

  ghost predicate RowOk(row: Row) {
    && (row.completedAt.Some? <==> row.status == Done)
    && (row.status == Pending ==> row.lastError == "")
    && (row.status == Done ==> row.lastError == "" || row.lastError == MISS_LIMIT_REACHED)
    && (row.status == Failed ==> row.attempts >= 1)
    && (row.status == Deferred ==> row.priority == PRIORITY_MISS || row.priority >= PRIORITY_WEBHOOK)
    && row.attempts >= 0 && row.missCount >= 0 && row.outputPaths != []
  }

  ghost predicate UniqueKeys(db: DB) {
    forall i, j :: i in db.rows && j in db.rows && db.rows[i].key == db.rows[j].key ==> i == j
  }

  ghost predicate Inv(db: DB) {
    && WellFormed(db) && UniqueKeys(db)
    && forall id :: id in db.rows ==> RowOk(db.rows[id])
  }

  lemma RowStepKeepsOk(cfg: Config, op: Op, id: int, o: Row, n: Row)
    requires RowOk(o) && RowStep(cfg, op, id, o, n)
    requires op.CancelByLibrary? ==> n.outputPaths != []
    requires op.Dequeue? && op.pick == Some(id) ==> o.status.Retryable()
    ensures RowOk(n)
  {
  }

  lemma RowStepIsStable(cfg: Config, op: Op, id: int, o: Row, n: Row)
    requires RowStep(cfg, op, id, o, n)
    ensures Stable(o, n)
  {
  }

  /** miss_count never falls; key, creation time, providers_version and detect_instrumental are fixed
      at insertion. */
  ghost predicate Stable(o: Row, n: Row) {
    && n.key == o.key && n.createdAt == o.createdAt
    && n.missCount >= o.missCount
    && n.providersVersion == o.providersVersion && n.detectInstrumental == o.detectInstrumental
  }

  lemma CancelLeavesPaths(cfg: Config, db: DB, lib: int, id: int)
    requires id in db.rows && db.rows[id].outputPaths != [] && id in CancelStep(db, lib).rows
    ensures CancelStep(db, lib).rows[id].outputPaths != []
  {
  }

  lemma StepKeepsInv(cfg: Config, db: DB, op: Op)
    requires Inv(db) && Enabled(cfg, db, op)
    ensures Inv(Apply(cfg, db, op))
  {
    var db' := Apply(cfg, db, op);
    StepKeepsWellFormed(cfg, db, op);
    forall id | id in db'.rows
      ensures RowOk(db'.rows[id])
      ensures id in db.rows ==> db'.rows[id].key == db.rows[id].key
    {
      if id in db.rows {
        RowEvolves(cfg, db, op, id);
        if op.CancelByLibrary? { CancelLeavesPaths(cfg, db, op.library, id); }
        RowStepKeepsOk(cfg, op, id, db.rows[id], db'.rows[id]);
        RowStepIsStable(cfg, op, id, db.rows[id], db'.rows[id]);
      } else {
        RowAppears(cfg, db, op, id);
      }
    }
    forall i, j | i in db'.rows && j in db'.rows && db'.rows[i].key == db'.rows[j].key
      ensures i == j
    {
      if i !in db.rows {
        RowAppears(cfg, db, op, i);
        if j !in db.rows { RowAppears(cfg, db, op, j); } else { NewKeyIsFree(cfg, db, op, i, j); }
      } else if j !in db.rows {
        NewKeyIsFree(cfg, db, op, j, i);
      }
    }
  }

  lemma NewKeyIsFree(cfg: Config, db: DB, op: Op, i: int, j: int)
    requires WellFormed(db) && Enabled(cfg, db, op)
    requires i !in db.rows && i in Apply(cfg, db, op).rows && j in db.rows
    ensures Apply(cfg, db, op).rows[i].key != db.rows[j].key
  {
    RowAppears(cfg, db, op, i);
    assert !HasKey(db, op.inputs.key, j);
  }

  /** The invariant holds in every state reachable by any callers in any order. */
  lemma {:induction false} ReachableInv(cfgs: seq<Config>, run: seq<DB>, ops: seq<Op>, k: nat)
    requires IsRun(cfgs, run, ops) && k < |run|
    ensures Inv(run[k])
  {
    if k > 0 {
      ReachableInv(cfgs, run, ops, k - 1);
      assert StepAt(cfgs, run, ops, k - 1);
      StepKeepsInv(cfgs[k - 1], run[k - 1], ops[k - 1]);
    }
  }

  lemma {:induction false} IdsAreNotReused(cfgs: seq<Config>, run: seq<DB>, ops: seq<Op>, j: nat, k: nat, id: int)
    requires IsRun(cfgs, run, ops) && j <= k < |run| && id < run[j].nextId && id in run[k].rows
    ensures id in run[j].rows && run[j].nextId <= run[k].nextId
  {
    if j < k {
      assert StepAt(cfgs, run, ops, k - 1);
      ReachableInv(cfgs, run, ops, k - 1);
      NextIdIsMonotone(cfgs, run, ops, j, k - 1);
      if id !in run[k - 1].rows { RowAppears(cfgs[k - 1], run[k - 1], ops[k - 1], id); }
      IdsAreNotReused(cfgs, run, ops, j, k - 1, id);
      NextIdGrows(cfgs[k - 1], run[k - 1], ops[k - 1]);
    }
  }

  lemma {:induction false} NextIdIsMonotone(cfgs: seq<Config>, run: seq<DB>, ops: seq<Op>, j: nat, k: nat)
    requires IsRun(cfgs, run, ops) && j <= k < |run|
    ensures run[j].nextId <= run[k].nextId
  {
    if j < k {
      NextIdIsMonotone(cfgs, run, ops, j, k - 1);
      assert StepAt(cfgs, run, ops, k - 1);
      NextIdGrows(cfgs[k - 1], run[k - 1], ops[k - 1]);
    }
  }

  /** Between any two moments of a row's life its identity is fixed and its miss count has not fallen. */
  lemma {:induction false} RowsAreStable(cfgs: seq<Config>, run: seq<DB>, ops: seq<Op>, j: nat, k: nat, id: int)
    requires IsRun(cfgs, run, ops) && j <= k < |run| && id in run[j].rows && id in run[k].rows
    ensures Stable(run[j].rows[id], run[k].rows[id])
  {
    if j < k {
      ReachableInv(cfgs, run, ops, j);
      IdsAreNotReused(cfgs, run, ops, j, k, id);
      StillThere(cfgs, run, ops, j, k, id);
      RowsAreStable(cfgs, run, ops, j, k - 1, id);
      assert StepAt(cfgs, run, ops, k - 1);
      ReachableInv(cfgs, run, ops, k - 1);
      RowEvolves(cfgs[k - 1], run[k - 1], ops[k - 1], id);
      RowStepIsStable(cfgs[k - 1], ops[k - 1], id, run[k - 1].rows[id], run[k].rows[id]);
    }
  }

  /** Whatever generations came and went since: a row's providers_version is that of the configuration
      it was inserted under, its detect_instrumental and key those of the Enqueue that inserted it. */
  lemma {:induction false} RowsKeepTheirBirth(cfgs: seq<Config>, run: seq<DB>, ops: seq<Op>, k: nat, id: int)
    returns (j: nat)
    requires IsRun(cfgs, run, ops) && k < |run| && id in run[k].rows
    ensures j < k && id !in run[j].rows && ops[j].Enqueue? && id == run[j].nextId
    ensures Stable(NewRow(cfgs[j], ops[j].inputs, ops[j].priority, ops[j].now), run[k].rows[id])
    ensures run[k].rows[id].providersVersion == cfgs[j].providersVersion
    ensures run[k].rows[id].detectInstrumental == ops[j].inputs.detectInstrumental
  {
    assert k > 0;
    assert StepAt(cfgs, run, ops, k - 1);
    ReachableInv(cfgs, run, ops, k - 1);
    if id in run[k - 1].rows {
      j := RowsKeepTheirBirth(cfgs, run, ops, k - 1, id);
      RowEvolves(cfgs[k - 1], run[k - 1], ops[k - 1], id);
      RowStepIsStable(cfgs[k - 1], ops[k - 1], id, run[k - 1].rows[id], run[k].rows[id]);
    } else {
      j := k - 1;
      RowAppears(cfgs[k - 1], run[k - 1], ops[k - 1], id);
    }
  }

  /** A row present at both ends was there just before the later one. */
  lemma StillThere(cfgs: seq<Config>, run: seq<DB>, ops: seq<Op>, j: nat, k: nat, id: int)
    requires IsRun(cfgs, run, ops) && j < k < |run| && id in run[j].rows && id in run[k].rows
    ensures id in run[k - 1].rows
  {
    ReachableInv(cfgs, run, ops, j);
    ReachableInv(cfgs, run, ops, k - 1);
    NextIdIsMonotone(cfgs, run, ops, j, k - 1);
    assert StepAt(cfgs, run, ops, k - 1);
    if id !in run[k - 1].rows { RowAppears(cfgs[k - 1], run[k - 1], ops[k - 1], id); }
  }
}
