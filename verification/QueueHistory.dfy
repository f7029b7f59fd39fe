/** What a queue row's columns say about its history, and when a waiting row may be claimed
    (internal/queue/queue.go). */
module QueueHistory {
  import opened Prelude
  import opened Backoff
  import opened Queue
  import opened QueueLaws

  /** Step k acted on row `id` while a worker held it. */
  ghost predicate WorkerStep(run: seq<DB>, k: nat, id: int)
    requires k < |run|
  {
    Claimed(run[k], id)
  }

  // ----- attempts -----

  /** Failures recorded on a claim of the row since it was inserted or last retried by hand. */
  ghost function FailsSince(run: seq<DB>, ops: seq<Op>, k: nat, id: int): nat
    requires |run| == |ops| + 1 && k < |run|
  {
    if k == 0 || id !in run[k - 1].rows then 0
    else
      match ops[k - 1]
      case Fail(i, _, _) => FailsSince(run, ops, k - 1, id) + (if i == id && WorkerStep(run, k - 1, id) then 1 else 0)
      case Retry(i, _) => if i == id && run[k - 1].rows[id].status == Failed then 0 else FailsSince(run, ops, k - 1, id)
      case _ => FailsSince(run, ops, k - 1, id)
  }

  lemma {:induction false} AttemptsCountFails(cfgs: seq<Config>, run: seq<DB>, ops: seq<Op>, k: nat, id: int)
    requires IsRun(cfgs, run, ops) && k < |run| && id in run[k].rows
    ensures run[k].rows[id].attempts == FailsSince(run, ops, k, id)
  {
    if k > 0 {
      assert StepAt(cfgs, run, ops, k - 1);
      ReachableInv(cfgs, run, ops, k - 1);
      if id in run[k - 1].rows {
        AttemptsCountFails(cfgs, run, ops, k - 1, id);
        RowEvolves(cfgs[k - 1], run[k - 1], ops[k - 1], id);
      } else {
        RowAppears(cfgs[k - 1], run[k - 1], ops[k - 1], id);
      }
    }
  }

  // ----- Retirement -----

  /** How the row was last closed: by RetireMiss rather than Complete. */
  ghost predicate LastClosedByRetirement(run: seq<DB>, ops: seq<Op>, k: nat, id: int)
    requires |run| == |ops| + 1 && k < |run|
  {
    k > 0 &&
    match ops[k - 1]
    case Complete(i, _) => !(i == id && WorkerStep(run, k - 1, id)) && LastClosedByRetirement(run, ops, k - 1, id)
    case RetireMiss(i, _) => (i == id && WorkerStep(run, k - 1, id)) || LastClosedByRetirement(run, ops, k - 1, id)
    case _ => LastClosedByRetirement(run, ops, k - 1, id)
  }

  /** A done row carries the sentinel exactly when its last terminal step was a retirement, whatever
      errors it saw before and however often it was closed and reopened. */
  lemma {:induction false} SentinelIsExact(cfgs: seq<Config>, run: seq<DB>, ops: seq<Op>, k: nat, id: int)
    requires IsRun(cfgs, run, ops) && k < |run| && id in run[k].rows && run[k].rows[id].status == Done
    ensures Retired(run[k].rows[id]) <==> LastClosedByRetirement(run, ops, k, id)
  {
    assert StepAt(cfgs, run, ops, k - 1);
    ReachableInv(cfgs, run, ops, k - 1);
    if id !in run[k - 1].rows { RowAppears(cfgs[k - 1], run[k - 1], ops[k - 1], id); }
    RowEvolves(cfgs[k - 1], run[k - 1], ops[k - 1], id);
    if run[k - 1].rows[id].status == Done {
      SentinelIsExact(cfgs, run, ops, k - 1, id);
    }
  }

  // ----- No early claim -----

  /** The row waits: it is gone for good, or failed or deferred and not due before `due`. */
  ghost predicate Waiting(db: DB, id: int, due: int) {
    && id < db.nextId
    && (id in db.rows ==>
      (db.rows[id].status == Failed || db.rows[id].status == Deferred) && db.rows[id].nextAttemptAt >= due)
  }

  /** An operation meant to bring the row forward, or the claim itself. */
  ghost predicate Expedites(db: DB, op: Op, id: int) {
    match op
    case Enqueue(inputs, priority, _) => priority >= PRIORITY_WEBHOOK && HasKey(db, inputs.key, id)
    case Retry(i, _) => i == id
    case RecheckDeferred(lib, _) => id in DeferredIds(db, lib)
    case Dequeue(_, pick) => pick == Some(id)
    case _ => false
  }

  lemma WaitingIsKept(cfg: Config, db: DB, op: Op, id: int, due: int)
    requires Inv(db) && Enabled(cfg, db, op) && Waiting(db, id, due) && !Expedites(db, op, id)
    ensures Waiting(Apply(cfg, db, op), id, due)
  {
    var db' := Apply(cfg, db, op);
    NextIdGrows(cfg, db, op);
    if id in db'.rows {
      if id !in db.rows { RowAppears(cfg, db, op, id); }
      RowEvolves(cfg, db, op, id);
      if op.RecheckDeferred? { assert id !in DeferredIds(db, op.lib); }
    }
  }

  lemma {:induction false} StaysWaiting(cfgs: seq<Config>, run: seq<DB>, ops: seq<Op>, j: nat, k: nat, id: int,
                                        due: int)
    requires IsRun(cfgs, run, ops) && j <= k < |run| && Waiting(run[j], id, due)
    requires forall i :: j <= i < k ==> !Expedites(run[i], ops[i], id)
    ensures Waiting(run[k], id, due)
  {
    if j < k {
      StaysWaiting(cfgs, run, ops, j, k - 1, id, due);
      assert StepAt(cfgs, run, ops, k - 1);
      ReachableInv(cfgs, run, ops, k - 1);
      WaitingIsKept(cfgs[k - 1], run[k - 1], ops[k - 1], id, due);
    }
  }

  /** A row that failed for the n-th time at t is not claimed before t + Delay(n), by the settings in
      force at the failure, less under one second of timestamp truncation, however many scan-priority
      Enqueues of its key arrive. */
  lemma FailedRowsRest(cfgs: seq<Config>, run: seq<DB>, ops: seq<Op>, j: nat, k: nat, id: int)
    requires IsRun(cfgs, run, ops) && j < k < |ops|
    requires ops[j].Fail? && ops[j].id == id && WorkerStep(run, j, id)
    requires forall i :: j < i < k ==> !Expedites(run[i], ops[i], id)
    requires ops[k].Dequeue? && ops[k].pick == Some(id)
    ensures ops[k].now > ops[j].now
            + Delay(FailsSince(run, ops, j + 1, id), cfgs[j].baseBackoff as int, cfgs[j].maxBackoff as int) - SECOND
  {
    var n := run[j].rows[id].attempts + 1;
    var due := Secs(ops[j].now + Delay(n, cfgs[j].baseBackoff as int, cfgs[j].maxBackoff as int));
    assert StepAt(cfgs, run, ops, j) && StepAt(cfgs, run, ops, k);
    ReachableInv(cfgs, run, ops, j);
    AttemptsCountFails(cfgs, run, ops, j, id);
    RowEvolvesFail(cfgs[j], run[j], ops[j], id);
    StaysWaiting(cfgs, run, ops, j + 1, k, id, due);
    Truncation(ops[j].now + Delay(n, cfgs[j].baseBackoff as int, cfgs[j].maxBackoff as int), ops[k].now);
  }

  lemma RowEvolvesFail(cfg: Config, db: DB, op: Op, id: int)
    requires Inv(db) && op.Fail? && op.id == id && Claimed(db, id)
    ensures Waiting(Apply(cfg, db, op), id,
                    Secs(op.now + Delay(db.rows[id].attempts + 1, cfg.baseBackoff as int, cfg.maxBackoff as int)))
  {
  }

  /** The same for a deferral of retryAfter. */
  lemma DeferredRowsRest(cfgs: seq<Config>, run: seq<DB>, ops: seq<Op>, j: nat, k: nat, id: int)
    requires IsRun(cfgs, run, ops) && j < k < |ops|
    requires ops[j].Defer? && ops[j].id == id && WorkerStep(run, j, id)
    requires forall i :: j < i < k ==> !Expedites(run[i], ops[i], id)
    requires ops[k].Dequeue? && ops[k].pick == Some(id)
    ensures ops[k].now > ops[j].now + ops[j].retryAfter - SECOND
  {
    assert StepAt(cfgs, run, ops, j) && StepAt(cfgs, run, ops, k);
    ReachableInv(cfgs, run, ops, j);
    assert Waiting(run[j + 1], id, Secs(ops[j].now + ops[j].retryAfter));
    StaysWaiting(cfgs, run, ops, j + 1, k, id, Secs(ops[j].now + ops[j].retryAfter));
    Truncation(ops[j].now + ops[j].retryAfter, ops[k].now);
  }

  /** A stored instant that is not after now, in whole seconds, is less than a second after it. */
  lemma Truncation(due: int, now: int)
    requires Secs(due) <= Secs(now)
    ensures now > due - SECOND
  {
  }

  // ----- Deferred rows stay behind fresh work -----

  /** The row has been sent to the back of the queue: deferred, or revived, since it was inserted. */
  ghost predicate Sunk(run: seq<DB>, ops: seq<Op>, k: nat, id: int)
    requires |run| == |ops| + 1 && k < |run|
  {
    k > 0 && id in run[k - 1].rows &&
    match ops[k - 1]
    case Defer(i, _, _, _) => (i == id && WorkerStep(run, k - 1, id)) || Sunk(run, ops, k - 1, id)
    case RecheckRetired(lib, _) => id in RetiredIds(run[k - 1], lib) || Sunk(run, ops, k - 1, id)
    case ResetInstrumental(i, _) => (i == id && ConfirmedInstrumental(run[k - 1], id)) || Sunk(run, ops, k - 1, id)
    case _ => Sunk(run, ops, k - 1, id)
  }

  ghost predicate PrioritiesAtLeastScan(ops: seq<Op>) {
    forall i :: 0 <= i < |ops| && ops[i].Enqueue? ==> ops[i].priority >= PRIORITY_SCAN
  }

  lemma {:induction false} UnsunkRowsFloat(cfgs: seq<Config>, run: seq<DB>, ops: seq<Op>, k: nat, id: int)
    requires IsRun(cfgs, run, ops) && k < |run| && id in run[k].rows && PrioritiesAtLeastScan(ops)
    ensures Sunk(run, ops, k, id) || run[k].rows[id].priority >= PRIORITY_SCAN
    ensures run[k].rows[id].priority == PRIORITY_MISS || run[k].rows[id].priority >= PRIORITY_SCAN
  {
    assert k > 0;
    assert StepAt(cfgs, run, ops, k - 1);
    ReachableInv(cfgs, run, ops, k - 1);
    if id in run[k - 1].rows {
      UnsunkRowsFloat(cfgs, run, ops, k - 1, id);
      RowEvolves(cfgs[k - 1], run[k - 1], ops[k - 1], id);
      SinkingStep(cfgs[k - 1], run[k - 1], ops[k - 1], id);
    } else {
      RowAppears(cfgs[k - 1], run[k - 1], ops[k - 1], id);
    }
  }

  /** Only a revival of this very row moves a done row's priority. */
  lemma SinkingStep(cfg: Config, db: DB, op: Op, id: int)
    requires Enabled(cfg, db, op) && id in db.rows && id in Apply(cfg, db, op).rows
    ensures op.RecheckRetired? && id !in RetiredIds(db, op.lib) ==> Apply(cfg, db, op).rows[id] == db.rows[id]
    ensures op.ResetInstrumental? && !(op.id == id && ConfirmedInstrumental(db, id)) ==>
            Apply(cfg, db, op).rows[id] == db.rows[id]
  {
  }

  /** With enqueue priorities at scan level or above, a row at the miss priority is claimed only when
      every row that is due has itself been sunk: fresh work always goes first. */
  lemma FreshWorkGoesFirst(cfgs: seq<Config>, run: seq<DB>, ops: seq<Op>, k: nat, id: int)
    requires IsRun(cfgs, run, ops) && k < |ops| && PrioritiesAtLeastScan(ops)
    requires ops[k].Dequeue? && ops[k].pick.Some? && ops[k].pick.value in run[k].rows
    requires run[k].rows[ops[k].pick.value].priority == PRIORITY_MISS
    requires id in run[k].rows && Eligible(run[k].rows[id], ops[k].now)
    ensures run[k].rows[id].priority == PRIORITY_MISS && Sunk(run, ops, k, id)
  {
    assert StepAt(cfgs, run, ops, k);
    assert !Before(cfgs[k], run[k], id, ops[k].pick.value);
    UnsunkRowsFloat(cfgs, run, ops, k, id);
  }

  // ----- Claims -----

  /** An outcome reported for the row. It names the row only: no operation carries its caller. */
  ghost predicate EndsClaim(op: Op, id: int) {
    match op
    case Complete(i, _) => i == id
    case Release(i) => i == id
    case Fail(i, _, _) => i == id
    case Defer(i, _, _, _) => i == id
    case RetireMiss(i, _) => i == id
    case _ => false
  }

  /** Only an outcome that names the row takes it out of processing. No other operation deletes it,
      reopens it or hands it out a second time. */
  lemma ClaimIsExclusive(cfg: Config, db: DB, op: Op, id: int)
    requires Inv(db) && Enabled(cfg, db, op) && Claimed(db, id)
    ensures Claimed(Apply(cfg, db, op), id) <==> !EndsClaim(op, id)
    ensures op.Dequeue? ==> op.pick != Some(id)
  {
    assert !Eligible(db.rows[id], if op.Dequeue? then op.now else 0);
    assert id in Apply(cfg, db, op).rows;
    RowEvolves(cfg, db, op, id);
  }

  /** An outcome lands on the claim it was made for exactly when none naming the row came in between.
      Otherwise the claim has ended, and a late outcome of its worker hits whatever claim stands. */
  lemma {:induction false} ClaimStandsIff(cfgs: seq<Config>, run: seq<DB>, ops: seq<Op>, j: nat, k: nat, id: int)
    requires IsRun(cfgs, run, ops) && j < k < |run| && ops[j].Dequeue? && ops[j].pick == Some(id)
    ensures (forall i :: j < i <= k ==> Claimed(run[i], id)) <==> (forall i :: j < i < k ==> !EndsClaim(ops[i], id))
    ensures (forall i :: j < i < k ==> !EndsClaim(ops[i], id)) ==>
              forall i :: j < i < k ==> !(ops[i].Dequeue? && ops[i].pick == Some(id))
  {
    assert StepAt(cfgs, run, ops, k - 1);
    if k > j + 1 {
      ClaimStandsIff(cfgs, run, ops, j, k - 1, id);
      ReachableInv(cfgs, run, ops, k - 1);
      if Claimed(run[k - 1], id) { ClaimIsExclusive(cfgs[k - 1], run[k - 1], ops[k - 1], id); }
    }
  }

  /** Dequeue always has a legal answer. */
  lemma SomeLegalPick(cfg: Config, db: DB, now: int) returns (pick: Option<int>)
    ensures LegalPick(cfg, db, now, pick)
  {
    var due := set id | id in db.rows && Eligible(db.rows[id], now);
    if due == {} {
      forall id | id in db.rows
        ensures !Eligible(db.rows[id], now)
      {
        assert id !in due;
      }
      pick := None;
    } else {
      var p := Foremost(cfg, db, due);
      pick := Some(p);
    }
  }

  lemma AnyOf<T>(ids: set<T>) returns (id: T)
    requires ids != {}
    ensures id in ids
  {
    id :| id in ids;
  }

  lemma {:induction false} Foremost(cfg: Config, db: DB, ids: set<int>) returns (p: int)
    requires ids != {} && forall id :: id in ids ==> id in db.rows
    ensures p in ids && forall id :: id in ids ==> id in db.rows && !Before(cfg, db, id, p)
    decreases |ids|
  {
    var first := AnyOf(ids);
    p := first;
    var rest := ids - {first};
    if rest != {} {
      var q := Foremost(cfg, db, rest);
      if !Before(cfg, db, p, q) {
        p := q;
      }
    }
    forall id | id in ids
      ensures !Before(cfg, db, id, p)
    {
      assert id == first || id in rest;
    }
  }
}
