/** When a done row and the scan results it came from agree (internal/queue/queue.go). Closing a row
    closes its scan results; what comes later can part them again. */
module QueueAgreement {
  import opened Prelude
  import opened Queue
  import opened QueueLaws

  ghost predicate LinkedScansDone(db: DB, id: int) {
    forall sid: int :: Linked(db, id, sid) ==> db.scans[sid].status == ScanDone
  }

  predicate Linked(db: DB, id: int, sid: int) {
    (id, sid) in db.links && sid in db.scans
  }

  /** When Complete or RetireMiss commits, the row and every scan result it came from agree. */
  lemma ClosingClosesScans(db: DB, id: int, now: int)
    requires Claimed(db, id)
    ensures LinkedScansDone(CompleteStep(db, id, now), id)
    ensures LinkedScansDone(RetireMissStep(db, id, now), id)
  {
  }

  /** Some scan result in the library, if one is named, is linked to both rows. */
  ghost predicate ShareScan(db: DB, a: int, b: int, lib: Option<int>) {
    exists sid: int :: Linked(db, a, sid) && Linked(db, b, sid) && (lib.Some? ==> db.scans[sid].libraryID == lib.value)
  }

  /** The operation parts a done row from its scan results: a late link to one that is not done, a
      revival of another row that shares one, or a scan that rewrites one. */
  ghost predicate Disturbs(db: DB, op: Op, id: int) {
    match op
    case Enqueue(inputs, _, _) =>
      HasKey(db, inputs.key, id) && inputs.scanResultID > 0
      && inputs.scanResultID in db.scans && db.scans[inputs.scanResultID].status != ScanDone
    case RecheckRetired(lib, _) => exists r :: r in RetiredIds(db, lib) && ShareScan(db, id, r, lib)
    case ResetInstrumental(r, _) => ConfirmedInstrumental(db, r) && ShareScan(db, id, r, None)
    case ScanWrite(sid, scan) => (id, sid) in db.links && scan.status != ScanDone
    case _ => false
  }

  lemma EnqueueDisturbs(cfg: Config, db: DB, inputs: Inputs, priority: int, now: int, id: int)
    requires Inv(db) && id in db.rows && LinkedScansDone(db, id)
    ensures LinkedScansDone(EnqueueStep(cfg, db, inputs, priority, now), id)
            <==> !Disturbs(db, Op.Enqueue(inputs, priority, now), id)
  {
    var db', sid := EnqueueStep(cfg, db, inputs, priority, now), inputs.scanResultID;
    if HasKey(db, inputs.key, id) {
      assert HasKey(db, inputs.key, TargetOf(db, inputs.key)) && TargetOf(db, inputs.key) == id;
      if sid > 0 && sid in db.scans { assert Linked(db', id, sid); }
    } else {
      assert TargetOf(db, inputs.key) != id;
    }
    assert forall i: int :: Linked(db', id, i) && i != sid ==> Linked(db, id, i);
  }

  /** Flipping done scan results of `ids` to pending parts exactly the rows that share one. */
  lemma FlipParts(db: DB, rows: map<int, Row>, ids: set<int>, lib: Option<int>, id: int)
    requires LinkedScansDone(db, id)
    ensures LinkedScansDone(db.(rows := rows, scans := FlipLinked(db, ids, {ScanDone}, ScanPending, lib)), id)
            <==> !exists r :: r in ids && ShareScan(db, id, r, lib)
  {
    var db' := db.(rows := rows, scans := FlipLinked(db, ids, {ScanDone}, ScanPending, lib));
    if r :| r in ids && ShareScan(db, id, r, lib) {
      var sid: int :| Linked(db, id, sid) && Linked(db, r, sid) && (lib.Some? ==> db.scans[sid].libraryID == lib.value);
      assert Linked(db', id, sid) && db.scans[sid].status == ScanDone && db'.scans[sid].status == ScanPending;
    }
    if sid: int :| Linked(db', id, sid) && db'.scans[sid].status != ScanDone {
      assert Linked(db, id, sid) && db.scans[sid].status == ScanDone;
      var r :| r in ids && (r, sid) in db.links;
      assert Linked(db, r, sid) && ShareScan(db, id, r, lib);
    }
  }

  lemma ScanWriteDisturbs(db: DB, sid: int, scan: ScanRow, id: int)
    requires WellFormed(db) && LinkedScansDone(db, id)
    ensures LinkedScansDone(ScanWriteStep(db, sid, scan), id) <==> !Disturbs(db, ScanWrite(sid, scan), id)
  {
    var db' := ScanWriteStep(db, sid, scan);
    assert (id, sid) in db.links ==> Linked(db', id, sid);
    assert forall i: int :: Linked(db', id, i) && i != sid ==> Linked(db, id, i);
  }

  /** The other operations only close scan results or leave the done ones alone. */
  lemma OthersKeepAgreement(cfg: Config, db: DB, op: Op, id: int)
    requires Inv(db) && Enabled(cfg, db, op) && LinkedScansDone(db, id)
    requires !op.Enqueue? && !op.RecheckRetired? && !op.ResetInstrumental? && !op.ScanWrite?
    ensures LinkedScansDone(Apply(cfg, db, op), id)
  {
    forall sid: int | Linked(Apply(cfg, db, op), id, sid)
      ensures Apply(cfg, db, op).scans[sid].status == ScanDone
    {
      assert Linked(db, id, sid);
    }
  }

  /** "A done row's scan results are all done" is no invariant. A row that is done and agrees, and is
      still done after the operation, still agrees exactly when the operation does not disturb it. */
  lemma AgreementSurvivesIff(cfg: Config, db: DB, op: Op, id: int)
    requires Inv(db) && Enabled(cfg, db, op)
    requires id in db.rows && db.rows[id].status == Done && LinkedScansDone(db, id)
    requires id in Apply(cfg, db, op).rows && Apply(cfg, db, op).rows[id].status == Done
    ensures LinkedScansDone(Apply(cfg, db, op), id) <==> !Disturbs(db, op, id)
  {
    match op
    case Enqueue(inputs, priority, now) => EnqueueDisturbs(cfg, db, inputs, priority, now, id);
    case RecheckRetired(lib, now) =>
      FlipParts(db, RecheckRetiredStep(db, lib, now).rows, RetiredIds(db, lib), lib, id);
    case ResetInstrumental(r, now) =>
      FlipParts(db, ResetInstrumentalStep(db, r, now).rows, {r}, None, id);
    case ScanWrite(sid, scan) => ScanWriteDisturbs(db, sid, scan, id);
    case _ => OthersKeepAgreement(cfg, db, op, id);
  }

  /** Over runs: a row closed at step j agrees with its scan results for as long as it stays done and
      nothing disturbs it. */
  lemma {:induction false} AgreesSinceClosing(cfgs: seq<Config>, run: seq<DB>, ops: seq<Op>, j: nat, k: nat, id: int)
    requires IsRun(cfgs, run, ops) && j < k < |run| && Claimed(run[j], id)
    requires (ops[j].Complete? || ops[j].RetireMiss?) && ops[j].id == id
    requires forall i :: j < i <= k ==> id in run[i].rows && run[i].rows[id].status == Done
    requires forall i :: j < i < k ==> !Disturbs(run[i], ops[i], id)
    ensures LinkedScansDone(run[k], id)
  {
    assert StepAt(cfgs, run, ops, k - 1);
    if k == j + 1 {
      ClosingClosesScans(run[j], id, ops[j].now);
    } else {
      AgreesSinceClosing(cfgs, run, ops, j, k - 1, id);
      ReachableInv(cfgs, run, ops, k - 1);
      AgreementSurvivesIff(cfgs[k - 1], run[k - 1], ops[k - 1], id);
    }
  }

  /** The late link by itself: an Enqueue that finds the row done leaves it done and links the new scan
      result, so the agreement survives exactly when that scan result was already done. */
  lemma LateLinkBreaksAgreement(cfg: Config, db: DB, inputs: Inputs, priority: int, now: int, id: int)
    requires UniqueKeys(db) && HasKey(db, inputs.key, id) && db.rows[id].status == Done && LinkedScansDone(db, id)
    requires inputs.scanResultID > 0 && inputs.scanResultID in db.scans
    ensures var db' := EnqueueStep(cfg, db, inputs, priority, now);
      && id in db'.rows && db'.rows[id].status == Done
      && (LinkedScansDone(db', id) <==> db.scans[inputs.scanResultID].status == ScanDone)
  {
    var db', sid := EnqueueStep(cfg, db, inputs, priority, now), inputs.scanResultID;
    assert HasKey(db, inputs.key, TargetOf(db, inputs.key));
    assert Linked(db', id, sid);
    assert forall i: int :: Linked(db', id, i) && i != sid ==> Linked(db, id, i);
  }

  // ----- A shared scan result -----

  /** Song `name`, found as scan result 7. */
  function SongInputs(name: string): Inputs {
    Inputs((name, name), Meta(name, name, "", "", "d", "f", ""), [], 7, None)
  }

  function SongScan(status: ScanStatus): ScanRow {
    ScanRow(1, "d", "f", status)
  }

  function SharedOps(): seq<Op> {
    [ScanWrite(7, SongScan(ScanPending)), Op.Enqueue(SongInputs("a"), 0, 0), Dequeue(0, Some(1)), RetireMiss(1, 0),
     Op.Enqueue(SongInputs("b"), 0, 0), Dequeue(0, Some(2)), Complete(2, 0), RecheckRetired(None, 0)]
  }

  function SharedRun(cfg: Config): seq<DB> {
    var a, b := NewRow(cfg, SongInputs("a"), 0, 0), NewRow(cfg, SongInputs("b"), 0, 0);
    var retired := a.(status := Done, completedAt := Some(0), lastError := MISS_LIMIT_REACHED);
    var completed := b.(status := Done, completedAt := Some(0));
    var pending, done := map[7 := SongScan(ScanPending)], map[7 := SongScan(ScanDone)];
    [EMPTY,
     DB(map[], pending, {}, 1),
     DB(map[1 := a], pending, {(1, 7)}, 2),
     DB(map[1 := a.(status := Processing)], pending, {(1, 7)}, 2),
     DB(map[1 := retired], done, {(1, 7)}, 2),
     DB(map[1 := retired, 2 := b], done, {(1, 7), (2, 7)}, 3),
     DB(map[1 := retired, 2 := b.(status := Processing)], done, {(1, 7), (2, 7)}, 3),
     DB(map[1 := retired, 2 := completed], done, {(1, 7), (2, 7)}, 3),
     DB(map[1 := Revived(retired, 0), 2 := completed], pending, {(1, 7), (2, 7)}, 3)]
  }

  lemma FreshEnqueue(cfg: Config, db: DB, inputs: Inputs)
    requires (forall i :: !HasKey(db, inputs.key, i)) && db.nextId !in db.rows
    requires inputs.scanResultID > 0 && inputs.scanResultID in db.scans
    ensures EnqueueStep(cfg, db, inputs, 0, 0)
            == DB(db.rows[db.nextId := NewRow(cfg, inputs, 0, 0)], db.scans,
                  db.links + {(db.nextId, inputs.scanResultID)}, db.nextId + 1)
  {
    assert TargetOf(db, inputs.key) == db.nextId;
  }

  ghost predicate SharedStep(cfg: Config, k: nat)
    requires k < 8
  {
    var run, ops := SharedRun(cfg), SharedOps();
    Enabled(cfg, run[k], ops[k]) && run[k + 1] == Apply(cfg, run[k], ops[k])
  }

  lemma SharedEnqueues(cfg: Config)
    ensures SharedStep(cfg, 1) && SharedStep(cfg, 4)
  {
    var run := SharedRun(cfg);
    FreshEnqueue(cfg, run[1], SongInputs("a"));
    assert "a" != "b";
    FreshEnqueue(cfg, run[4], SongInputs("b"));
  }

  lemma SharedClaims(cfg: Config)
    ensures SharedStep(cfg, 2) && SharedStep(cfg, 5)
  {
  }

  /** Flipping the only scan result there is, through one of the rows linked to it. */
  lemma FlipSong(db: DB, ids: set<int>, id: int, from: set<ScanStatus>, status: ScanStatus, to_: ScanStatus)
    requires db.scans == map[7 := SongScan(status)] && id in ids && (id, 7) in db.links
    ensures FlipLinked(db, ids, from, to_, None) == map[7 := SongScan(if status in from then to_ else status)]
  {
  }

  lemma SharedRetirement(cfg: Config)
    ensures SharedStep(cfg, 3)
  {
    FlipSong(SharedRun(cfg)[3], {1}, 1, NOT_DONE, ScanPending, ScanDone);
  }

  lemma SharedCompletion(cfg: Config)
    ensures SharedStep(cfg, 6)
  {
    FlipSong(SharedRun(cfg)[6], {2}, 2, NOT_DONE, ScanDone, ScanDone);
  }

  lemma OnlyFirstIsRetired(cfg: Config)
    ensures RetiredIds(SharedRun(cfg)[7], None) == {1}
  {
    assert MISS_LIMIT_REACHED != "";
  }

  lemma SharedRevival(cfg: Config)
    ensures SharedStep(cfg, 7)
  {
    var run := SharedRun(cfg);
    OnlyFirstIsRetired(cfg);
    FlipSong(run[7], {1}, 1, {ScanDone}, ScanDone, ScanPending);
    assert RecheckRetiredStep(run[7], None, 0).rows == run[8].rows;
  }

  lemma SharedSteps(cfg: Config, k: nat)
    requires k < 8
    ensures SharedStep(cfg, k)
  {
    match k
    case 0 => assert map[][7 := SongScan(ScanPending)] == map[7 := SongScan(ScanPending)];
    case 1 => SharedEnqueues(cfg);
    case 2 => SharedClaims(cfg);
    case 3 => SharedRetirement(cfg);
    case 4 => SharedEnqueues(cfg);
    case 5 => SharedClaims(cfg);
    case 6 => SharedCompletion(cfg);
    case 7 => SharedRevival(cfg);
  }

  lemma SharedIsRun(cfg: Config, cfgs: seq<Config>)
    requires |cfgs| == 8 && forall k :: 0 <= k < 8 ==> cfgs[k] == cfg
    ensures IsRun(cfgs, SharedRun(cfg), SharedOps())
  {
    forall k | 0 <= k < 8
      ensures StepAt(cfgs, SharedRun(cfg), SharedOps(), k)
    {
      SharedSteps(cfg, k);
    }
  }

  /** Without a late link: two songs share a scan result, one is retired and the other completed. The
      recheck that revives the first puts the scan result back to pending under the second, which
      stays done. */
  lemma SharedScanParts(cfg: Config) returns (cfgs: seq<Config>)
    ensures IsRun(cfgs, SharedRun(cfg), SharedOps())
    ensures LinkedScansDone(SharedRun(cfg)[7], 2) && !LinkedScansDone(SharedRun(cfg)[8], 2)
    ensures SharedRun(cfg)[8].rows[2].status == Done
  {
    cfgs := seq(8, _ => cfg);
    SharedIsRun(cfg, cfgs);
    assert Linked(SharedRun(cfg)[8], 2, 7);
  }
}
