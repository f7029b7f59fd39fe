/** The queue as the repository drives it (internal/queue/queue.go, DBQueue): each method is one
    transaction over the three tables, proved against the step of the same name in Queue. */
module QueueStore {
  import opened Prelude
  import opened Backoff
  import opened Queue
  import opened QueueLaws
  import opened QueueLibraries
  import opened QueueHistory
  import opened QueueAgreement

  /** The conflicting row, when there is one, is the only one. */
  lemma TargetIsUnique(db: DB, key: (string, string), id: int)
    requires UniqueKeys(db) && HasKey(db, key, id)
    ensures TargetOf(db, key) == id
  {
    assert HasKey(db, key, TargetOf(db, key));
  }

  lemma RecheckDeferredKeepsInv(cfg: Config, db: DB, lib: Option<int>, now: int)
    requires Inv(db)
    ensures Inv(RecheckDeferredStep(db, lib, now))
  {
    StepKeepsInv(cfg, db, Op.RecheckDeferred(lib, now));
  }

  lemma RecheckRetiredKeepsInv(cfg: Config, db: DB, lib: Option<int>, now: int)
    requires Inv(db)
    ensures Inv(RecheckRetiredStep(db, lib, now))
  {
    var op := Op.RecheckRetired(lib, now);
    StepKeepsInv(cfg, db, op);
    InvCarries(Apply(cfg, db, op), RecheckRetiredStep(db, lib, now));
  }

  lemma InvCarries(db: DB, db': DB)
    requires db == db' && Inv(db)
    ensures Inv(db')
  {
  }

  lemma CancelKeepsInv(cfg: Config, db: DB, lib: int)
    requires Inv(db)
    ensures Inv(CancelStep(db, lib))
  {
    StepKeepsInv(cfg, db, Op.CancelByLibrary(lib));
  }

  // ----- Partial sums of the two loops -----

  /** CancelStep restricted to the candidates already visited. */
  ghost function CancelledSoFar(db: DB, lib: int, seen: set<int>): DB {
    var gone := Emptied(db, lib) * seen;
    db.(rows := map id | id in db.rows && id !in gone ::
          if id in Trimmed(db, lib) * seen then db.rows[id].(outputPaths := PathsLeft(db, id, lib)) else db.rows[id],
        links := (set l | l in db.links && l.0 !in gone))
  }

  lemma CancelledSoFarEnds(db: DB, lib: int)
    ensures CancelledSoFar(db, lib, {}) == db
    ensures CancelledSoFar(db, lib, Candidates(db, lib)) == CancelStep(db, lib)
  {
    assert Emptied(db, lib) * Candidates(db, lib) == Emptied(db, lib);
    assert Trimmed(db, lib) * Candidates(db, lib) == Trimmed(db, lib);
    assert CancelledSoFar(db, lib, {}).rows == db.rows;
    assert CancelledSoFar(db, lib, {}).links == db.links;
  }

  /** A candidate not yet visited still has its row, its links and so its keep set. */
  lemma UnvisitedIsIntact(db: DB, lib: int, seen: set<int>, id: int)
    requires id in db.rows && id !in seen
    ensures id in CancelledSoFar(db, lib, seen).rows && CancelledSoFar(db, lib, seen).rows[id] == db.rows[id]
    ensures KeepSet(CancelledSoFar(db, lib, seen), id, lib) == KeepSet(db, id, lib)
  {
    var mid := CancelledSoFar(db, lib, seen);
    assert forall l: (int, int) :: l.0 == id ==> (l in mid.links <==> l in db.links);
  }

  /** Reviving scan results row by row flips what flipping them all at once does. */
  lemma FlipOneMore(db: DB, ids: set<int>, id: int, lib: Option<int>)
    ensures FlipLinked(db.(scans := FlipLinked(db, ids, {ScanDone}, ScanPending, lib)), {id}, {ScanDone}, ScanPending,
            lib)
            == FlipLinked(db, ids + {id}, {ScanDone}, ScanPending, lib)
  {
  }

  lemma FlipNone(db: DB, lib: Option<int>)
    ensures FlipLinked(db, {}, {ScanDone}, ScanPending, lib) == db.scans
  {
  }

  lemma FlipIgnoresRows(db: DB, mid: DB, ids: set<int>, lib: Option<int>)
    requires mid.scans == db.scans && mid.links == db.links
    ensures FlipLinked(mid, ids, {ScanDone}, ScanPending, lib) == FlipLinked(db, ids, {ScanDone}, ScanPending, lib)
  {
  }

  lemma NoneRetired(db: DB, lib: Option<int>, now: int)
    requires RetiredIds(db, lib) == {}
    ensures RecheckRetiredStep(db, lib, now) == db
  {
    FlipNone(db, lib);
    assert RecheckRetiredStep(db, lib, now).rows == db.rows;
  }

  lemma CountOneMore(s: set<int>, seen: set<int>, id: int)
    requires id !in seen
    ensures |s * (seen + {id})| == |s * seen| + if id in s then 1 else 0
  {
    if id in s {
      assert s * (seen + {id}) == s * seen + {id};
    } else {
      assert s * (seen + {id}) == s * seen;
    }
  }

  lemma SeenGrows(all: set<int>, todo: set<int>, seen: set<int>, id: int)
    requires todo <= all && seen == all - todo && id in todo
    ensures id !in seen && todo - {id} <= all && seen + {id} == all - (todo - {id})
  {
  }

  lemma MeetAll(s: set<int>, all: set<int>)
    requires s <= all
    ensures |s * (all - {})| == |s|
  {
    assert s * (all - {}) == s;
  }

  lemma CandidatesOnly(db: DB, lib: int)
    ensures Emptied(db, lib) <= Candidates(db, lib) && Trimmed(db, lib) <= Candidates(db, lib)
  {
  }

  lemma DeleteOneMore(db: DB, lib: int, seen: set<int>, id: int)
    requires id in Emptied(db, lib) && id !in seen
    ensures var mid := CancelledSoFar(db, lib, seen);
      CancelledSoFar(db, lib, seen + {id})
      == mid.(rows := mid.rows - {id}, links := (set l | l in mid.links && l.0 != id))
  {
    var mid, next := CancelledSoFar(db, lib, seen), CancelledSoFar(db, lib, seen + {id});
    assert next.rows == mid.rows - {id};
    assert next.links == set l | l in mid.links && l.0 != id;
  }

  lemma TrimOneMore(db: DB, lib: int, seen: set<int>, id: int)
    requires id in Trimmed(db, lib) && id !in seen && id in CancelledSoFar(db, lib, seen).rows
    requires CancelledSoFar(db, lib, seen).rows[id] == db.rows[id]
    ensures var mid := CancelledSoFar(db, lib, seen);
      CancelledSoFar(db, lib, seen + {id})
      == mid.(rows := mid.rows[id := mid.rows[id].(outputPaths := PathsLeft(db, id, lib))])
  {
    var mid, next := CancelledSoFar(db, lib, seen), CancelledSoFar(db, lib, seen + {id});
    assert Emptied(db, lib) * (seen + {id}) == Emptied(db, lib) * seen;
    assert next.rows == mid.rows[id := mid.rows[id].(outputPaths := PathsLeft(db, id, lib))];
  }

  lemma KeepOneMore(db: DB, lib: int, seen: set<int>, id: int)
    requires id !in Emptied(db, lib) && id !in Trimmed(db, lib)
    ensures CancelledSoFar(db, lib, seen + {id}) == CancelledSoFar(db, lib, seen)
  {
    assert Emptied(db, lib) * (seen + {id}) == Emptied(db, lib) * seen;
    assert Trimmed(db, lib) * (seen + {id}) == Trimmed(db, lib) * seen;
  }

  /** Rows have distinct keys, so a key has at most one. */
  lemma AtMostOneOfKey(db: DB, key: (string, string))
    requires UniqueKeys(db)
    ensures |CleanupIds(db, key)| <= 1
  {
    var ids := CleanupIds(db, key);
    if ids != {} {
      var id := AnyOf(ids);
      forall i | i in ids
        ensures i == id
      {
        assert db.rows[i].key == db.rows[id].key;
      }
      assert ids == {id};
    }
  }

  method Pick<T>(s: set<T>) returns (x: T)
    requires s != {}
    ensures x in s
  {
    x :| x in s;
  }

  class DBQueue {
    var rows: map<int, Row>
    var scans: map<int, ScanRow>
    var links: set<(int, int)>
    var nextId: int
    var cfg: Config

    function View(): DB
      reads this
    {
      DB(rows, scans, links, nextId)
    }

    constructor (cfg: Config)
      ensures View() == EMPTY && Inv(View()) && this.cfg == cfg
    {
      this.cfg := cfg;
      rows, scans, links, nextId := map[], map[], {}, 1;
    }

    method SetProvidersVersion(v: int)
      modifies `cfg
      ensures cfg == old(cfg).(providersVersion := v)
    {
      cfg := cfg.(providersVersion := v);
    }

    method SetRandomized(b: bool)
      modifies `cfg
      ensures cfg == old(cfg).(randomized := b)
    {
      cfg := cfg.(randomized := b);
    }

    /** Insert or refresh the row of this key, then link the scan result. A dangling scan result id
        violates the foreign key and rolls the whole transaction back. */
    method Enqueue(inputs: Inputs, priority: int, now: int) returns (r: Result, item: int)
      requires Inv(View())
      modifies `rows, `scans, `links, `nextId
      ensures View() == EnqueueStep(cfg, old(View()), inputs, priority, now) && Inv(View())
      ensures r == if Dangling(old(View()), inputs) then ForeignKeyViolation else Ok
      ensures r == Ok ==> HasKey(View(), inputs.key, item) && item == TargetOf(old(View()), inputs.key)
      ensures r == Ok && inputs.scanResultID > 0 ==> (item, inputs.scanResultID) in links
    {
      ghost var before := View();
      StepKeepsInv(cfg, before, Op.Enqueue(inputs, priority, now));
      var savedRows, savedNextId := rows, nextId;
      var e := NewRow(cfg, inputs, priority, now);
      if i :| i in rows && rows[i].key == inputs.key {
        item := i;
        TargetIsUnique(before, inputs.key, i);
        rows := rows[i := Merged(rows[i], e)];
      } else {
        item := nextId;
        assert forall i :: !HasKey(before, inputs.key, i);
        rows, nextId := rows[nextId := e], nextId + 1;
      }
      if inputs.scanResultID > 0 {
        if inputs.scanResultID !in scans {
          rows, nextId := savedRows, savedNextId;
          return ForeignKeyViolation, 0;
        }
        links := links + {(item, inputs.scanResultID)};
      }
      r := Ok;
    }

    /** Claims a due row no other due row goes before; None is sql.ErrNoRows. When `randomized`, rows
        of equal priority are not ordered and any of them may be claimed. */
    method Dequeue(now: int) returns (pick: Option<int>)
      requires Inv(View())
      modifies `rows, `scans, `links, `nextId
      ensures LegalPick(cfg, old(View()), now, pick)
      ensures View() == DequeueStep(old(View()), pick) && Inv(View())
      ensures pick.Some? ==> Claimed(View(), pick.value)
    {
      ghost var before := View();
      ghost var legal := SomeLegalPick(cfg, before, now);
      pick := None;
      if p :| p in rows && Eligible(rows[p], now)
              && forall id :: id in rows && Eligible(rows[id], now) ==> !Before(cfg, View(), id, p) {
        pick := Some(p);
        rows := rows[p := rows[p].(status := Processing)];
      }
      StepKeepsInv(cfg, before, Op.Dequeue(now, pick));
    }

    /** The scan results a closed row was made from close with it. */
    method Complete(id: int, now: int) returns (r: Result)
      requires Inv(View())
      modifies `rows, `scans, `links, `nextId
      ensures View() == CompleteStep(old(View()), id, now) && Inv(View())
      ensures r == if Claimed(old(View()), id) then Ok else NoRows
      ensures r == Ok ==> LinkedScansDone(View(), id)
    {
      StepKeepsInv(cfg, View(), Op.Complete(id, now));
      if id !in rows || rows[id].status != Processing {
        return NoRows;
      }
      ClosingClosesScans(View(), id, now);
      rows := rows[id := rows[id].(status := Done, completedAt := Some(Secs(now)), lastError := "")];
      scans := FlipLinked(View(), {id}, NOT_DONE, ScanDone, None);
      r := Ok;
    }

    method Release(id: int) returns (r: Result)
      requires Inv(View())
      modifies `rows, `scans, `links, `nextId
      ensures View() == ReleaseStep(old(View()), id) && Inv(View())
      ensures r == if Claimed(old(View()), id) then Ok else NoRows
    {
      StepKeepsInv(cfg, View(), Op.Release(id));
      if id !in rows || rows[id].status != Processing {
        return NoRows;
      }
      rows := rows[id := rows[id].(status := Pending, lastError := "")];
      r := Ok;
    }

    method Cleanup(key: (string, string)) returns (n: int)
      requires Inv(View())
      modifies `rows, `scans, `links, `nextId
      ensures View() == DeleteRows(old(View()), CleanupIds(old(View()), key)) && Inv(View())
      ensures n == |CleanupIds(old(View()), key)| && n <= 1
    {
      StepKeepsInv(cfg, View(), Op.Cleanup(key));
      var ids := CleanupIds(View(), key);
      AtMostOneOfKey(View(), key);
      rows, links := rows - ids, (set l | l in links && l.0 !in ids);
      n := |ids|;
    }

    /** Schedules the retry with the geometric delay of the attempt just counted. */
    method Fail(id: int, now: int, cause: string) returns (r: Result)
      requires Inv(View())
      modifies `rows, `scans, `links, `nextId
      ensures View() == FailStep(cfg, old(View()), id, now, cause) && Inv(View())
      ensures r == if Claimed(old(View()), id) then Ok else NoRows
    {
      StepKeepsInv(cfg, View(), Op.Fail(id, now, cause));
      if id !in rows || rows[id].status != Processing {
        return NoRows;
      }
      var nextAttempts := rows[id].attempts + 1;
      var delay := Geometric(nextAttempts, cfg.baseBackoff, cfg.maxBackoff);
      rows := rows[id := rows[id].(status := Failed, attempts := nextAttempts,
                                   nextAttemptAt := Secs(now + delay as int), lastError := cause)];
      r := Ok;
    }

    method Defer(id: int, now: int, retryAfter: int, cause: string) returns (r: Result)
      requires Inv(View())
      modifies `rows, `scans, `links, `nextId
      ensures View() == DeferStep(old(View()), id, now, retryAfter, cause) && Inv(View())
      ensures r == if Claimed(old(View()), id) then Ok else NoRows
    {
      StepKeepsInv(cfg, View(), Op.Defer(id, now, retryAfter, cause));
      if id !in rows || rows[id].status != Processing {
        return NoRows;
      }
      rows := rows[id := rows[id].(status := Deferred, missCount := rows[id].missCount + 1, priority := PRIORITY_MISS,
                                   nextAttemptAt := Secs(now + retryAfter), lastError := cause)];
      r := Ok;
    }

    method RetireMiss(id: int, now: int) returns (r: Result)
      requires Inv(View())
      modifies `rows, `scans, `links, `nextId
      ensures View() == RetireMissStep(old(View()), id, now) && Inv(View())
      ensures r == if Claimed(old(View()), id) then Ok else NoRows
      ensures r == Ok ==> LinkedScansDone(View(), id)
    {
      StepKeepsInv(cfg, View(), Op.RetireMiss(id, now));
      if id !in rows || rows[id].status != Processing {
        return NoRows;
      }
      ClosingClosesScans(View(), id, now);
      rows := rows[id := rows[id].(status := Done, completedAt := Some(Secs(now)), lastError := MISS_LIMIT_REACHED)];
      scans := FlipLinked(View(), {id}, NOT_DONE, ScanDone, None);
      r := Ok;
    }

    method RecheckDeferred(lib: Option<int>, now: int) returns (n: int)
      requires Inv(View())
      modifies `rows, `scans, `links, `nextId
      ensures View() == RecheckDeferredStep(old(View()), lib, now) && Inv(View())
      ensures n == |DeferredIds(old(View()), lib)|
    {
      RecheckDeferredKeepsInv(cfg, View(), lib, now);
      var ids := DeferredIds(View(), lib);
      rows := map id | id in rows :: if id in ids then rows[id].(nextAttemptAt := Secs(now)) else rows[id];
      n := |ids|;
    }

    /** Counts row by row; RecheckDeferred on the same state reports the same number. */
    method CountRecheckDeferred(lib: Option<int>) returns (n: int)
      ensures n == |DeferredIds(View(), lib)|
    {
      ghost var ids, seen := DeferredIds(View(), lib), {};
      n := 0;
      var todo := rows.Keys;
      while todo != {}
        invariant todo <= rows.Keys && seen == rows.Keys - todo && n == |ids * seen|
        decreases |todo|
      {
        var id := Pick(todo);
        SeenGrows(rows.Keys, todo, seen, id);
        CountOneMore(ids, seen, id);
        if rows[id].status == Deferred && InScope(View(), id, lib) {
          n := n + 1;
        }
        seen, todo := seen + {id}, todo - {id};
      }
      MeetAll(ids, rows.Keys);
    }

    /** The writeback loop: one statement for each revived row. */
    method WriteBack(ids: set<int>, lib: Option<int>)
      modifies this`scans
      ensures scans == FlipLinked(old(View()), ids, {ScanDone}, ScanPending, lib)
    {
      ghost var before := View();
      FlipNone(before, lib);
      var todo := ids;
      assert ids - todo == {};
      while todo != {}
        invariant todo <= ids
        invariant View() == before.(scans := FlipLinked(before, ids - todo, {ScanDone}, ScanPending, lib))
        decreases |todo|
      {
        var id := Pick(todo);
        FlipOneMore(before, ids - todo, id, lib);
        scans := FlipLinked(View(), {id}, {ScanDone}, ScanPending, lib);
        assert ids - todo + {id} == ids - (todo - {id});
        todo := todo - {id};
      }
      assert ids - todo == ids;
    }

    /** Select the retired rows, revive them with one update, then write the scan results back. */
    method ReviveRetired(lib: Option<int>, now: int) returns (n: int)
      modifies `rows, `scans, `links, `nextId
      ensures View() == RecheckRetiredStep(old(View()), lib, now)
      ensures n == |RetiredIds(old(View()), lib)|
    {
      ghost var before := View();
      var ids := RetiredIds(View(), lib);
      if ids == {} {
        NoneRetired(before, lib, now);
        return 0;
      }
      rows := map id | id in rows :: if id in ids then Revived(rows[id], now) else rows[id];
      assert rows == RecheckRetiredStep(before, lib, now).rows;
      FlipIgnoresRows(before, View(), ids, lib);
      WriteBack(ids, lib);
      n := |ids|;
    }

    /** Revives exactly the retired rows in scope, and reports how many; none is left behind. */
    method RecheckRetired(lib: Option<int>, now: int) returns (n: int)
      requires Inv(View())
      modifies `rows, `scans, `links, `nextId
      ensures View() == RecheckRetiredStep(old(View()), lib, now) && Inv(View())
      ensures n == |RetiredIds(old(View()), lib)|
      ensures RetiredIds(View(), lib) == {}
    {
      RecheckRetiredKeepsInv(cfg, View(), lib, now);
      SecondRecheckIsIdle(View(), lib, now, now);
      n := ReviveRetired(lib, now);
    }

    /** Counts row by row; RecheckRetired on the same state reports the same number. */
    method CountRecheckRetired(lib: Option<int>) returns (n: int)
      ensures n == |RetiredIds(View(), lib)|
    {
      ghost var ids, seen := RetiredIds(View(), lib), {};
      n := 0;
      var todo := rows.Keys;
      while todo != {}
        invariant todo <= rows.Keys && seen == rows.Keys - todo && n == |ids * seen|
        decreases |todo|
      {
        var id := Pick(todo);
        SeenGrows(rows.Keys, todo, seen, id);
        CountOneMore(ids, seen, id);
        if rows[id].status == Done && rows[id].lastError == MISS_LIMIT_REACHED && InScope(View(), id, lib) {
          n := n + 1;
        }
        seen, todo := seen + {id}, todo - {id};
      }
      MeetAll(ids, rows.Keys);
    }

    method Retry(id: int, now: int) returns (r: Result)
      requires Inv(View())
      modifies `rows, `scans, `links, `nextId
      ensures View() == RetryStep(old(View()), id, now) && Inv(View())
      ensures r == if id !in old(rows) then NoRows else if old(rows)[id].status == Failed then Ok else NotRetryable
    {
      StepKeepsInv(cfg, View(), Op.Retry(id, now));
      if id !in rows {
        return NoRows;
      }
      if rows[id].status != Failed {
        return NotRetryable;
      }
      rows := rows[id := rows[id].(status := Pending, attempts := 0, nextAttemptAt := Secs(now), lastError := "")];
      scans := FlipLinked(View(), {id}, {ScanProcessing}, ScanPending, None);
      r := Ok;
    }

    method ClearDone() returns (n: int)
      requires Inv(View())
      modifies `rows, `scans, `links, `nextId
      ensures View() == DeleteRows(old(View()), DoneIds(old(View()))) && Inv(View())
      ensures n == |DoneIds(old(View()))| && DoneIds(View()) == {}
    {
      StepKeepsInv(cfg, View(), Op.ClearDone);
      var ids := DoneIds(View());
      rows, links := rows - ids, (set l | l in links && l.0 !in ids);
      n := |ids|;
    }

    /** Counts row by row; ClearDone on the same state reports the same number. */
    method CountDone() returns (n: int)
      ensures n == |DoneIds(View())|
    {
      ghost var ids, seen := DoneIds(View()), {};
      n := 0;
      var todo := rows.Keys;
      while todo != {}
        invariant todo <= rows.Keys && seen == rows.Keys - todo && n == |ids * seen|
        decreases |todo|
      {
        var id := Pick(todo);
        SeenGrows(rows.Keys, todo, seen, id);
        CountOneMore(ids, seen, id);
        if rows[id].status == Done {
          n := n + 1;
        }
        seen, todo := seen + {id}, todo - {id};
      }
      MeetAll(ids, rows.Keys);
    }

    method ResetInstrumental(id: int, now: int) returns (n: int)
      requires Inv(View())
      modifies `rows, `scans, `links, `nextId
      ensures View() == ResetInstrumentalStep(old(View()), id, now) && Inv(View())
      ensures n == if ConfirmedInstrumental(old(View()), id) then 1 else 0
    {
      StepKeepsInv(cfg, View(), Op.ResetInstrumental(id, now));
      if id !in rows || rows[id].instrumentalResult != Some(1) || rows[id].status != Done {
        return 0;
      }
      rows := rows[id := Revived(rows[id], now).(instrumentalResult := None)];
      scans := FlipLinked(View(), {id}, {ScanDone}, ScanPending, None);
      n := 1;
    }

    method SetInstrumentalResult(id: int, result: int)
      requires Inv(View())
      modifies `rows, `scans, `links, `nextId
      ensures View() == SetInstrumentalStep(old(View()), id, result) && Inv(View())
    {
      StepKeepsInv(cfg, View(), Op.SetInstrumental(id, result));
      if id in rows {
        rows := rows[id := rows[id].(instrumentalResult := Some(result))];
      }
    }

    /** The filter loop of one candidate. */
    static method FilterPaths(paths: seq<OutputPath>, keep: set<string>) returns (filtered: seq<OutputPath>)
      ensures filtered == Filtered(paths, keep)
    {
      filtered := [];
      var i := 0;
      while i < |paths|
        invariant i <= |paths| && filtered == Filtered(paths[..i], keep)
      {
        assert paths[..i + 1][..i] == paths[..i];
        if OutputPathKey(paths[i]) in keep {
          filtered := filtered + [paths[i]];
        }
        i := i + 1;
      }
      assert paths[..|paths|] == paths;
    }

    /** One candidate: delete the row when nothing is left of its paths, trim it when some are gone. A
        dry run only counts. */
    method CancelOne(lib: int, dryRun: bool, ghost before: DB, ghost seen: set<int>, id: int, paths: seq<OutputPath>)
      returns (deleted: int, updated: int)
      requires id in Candidates(before, lib) && id !in seen && paths == before.rows[id].outputPaths
      requires View() == if dryRun then before else CancelledSoFar(before, lib, seen)
      modifies `rows, `scans, `links, `nextId
      ensures View() == if dryRun then before else CancelledSoFar(before, lib, seen + {id})
      ensures deleted == if id in Emptied(before, lib) then 1 else 0
      ensures updated == if id in Trimmed(before, lib) then 1 else 0
    {
      UnvisitedIsIntact(before, lib, seen, id);
      deleted, updated := 0, 0;
      var filtered := FilterPaths(paths, KeepSet(View(), id, lib));
      if filtered == [] {
        if dryRun {
          deleted := 1;
        } else if id in rows && rows[id].status.Retryable() {
          DeleteOneMore(before, lib, seen, id);
          rows, links := rows - {id}, (set l | l in links && l.0 != id);
          deleted := 1;
        }
      } else if |filtered| != |paths| {
        if dryRun {
          updated := 1;
        } else if id in rows && rows[id].status.Retryable() {
          TrimOneMore(before, lib, seen, id);
          rows := rows[id := rows[id].(outputPaths := filtered)];
          updated := 1;
        }
      } else {
        KeepOneMore(before, lib, seen, id);
      }
    }

    /** CancelOne with the running counters. */
    method CountOne(lib: int, dryRun: bool, ghost before: DB, ghost seen: set<int>, id: int, paths: seq<OutputPath>,
                    deleted: int, updated: int) returns (deleted': int, updated': int)
      requires id in Candidates(before, lib) && id !in seen && paths == before.rows[id].outputPaths
      requires View() == if dryRun then before else CancelledSoFar(before, lib, seen)
      requires deleted == |Emptied(before, lib) * seen| && updated == |Trimmed(before, lib) * seen|
      modifies `rows, `scans, `links, `nextId
      ensures View() == if dryRun then before else CancelledSoFar(before, lib, seen + {id})
      ensures deleted' == |Emptied(before, lib) * (seen + {id})| && updated' == |Trimmed(before, lib) * (seen + {id})|
    {
      var d, u := CancelOne(lib, dryRun, before, seen, id, paths);
      CountOneMore(Emptied(before, lib), seen, id);
      CountOneMore(Trimmed(before, lib), seen, id);
      deleted', updated' := deleted + d, updated + u;
    }

    /** Visits the candidates; `dryRun` is CountCancelByLibrary. */
    method VisitCandidates(lib: int, dryRun: bool) returns (deleted: int, updated: int)
      modifies `rows, `scans, `links, `nextId
      ensures View() == if dryRun then old(View()) else CancelledSoFar(old(View()), lib, Candidates(old(View()), lib))
      ensures deleted == |Emptied(old(View()), lib)| && updated == |Trimmed(old(View()), lib)|
    {
      ghost var before := View();
      CancelledSoFarEnds(before, lib);
      var candidates := Candidates(View(), lib);
      var pathsOf := map id | id in candidates :: rows[id].outputPaths;
      deleted, updated := 0, 0;
      var todo := candidates;
      ghost var seen := {};
      while todo != {}
        invariant todo <= candidates && seen == candidates - todo
        invariant View() == if dryRun then before else CancelledSoFar(before, lib, seen)
        invariant deleted == |Emptied(before, lib) * seen| && updated == |Trimmed(before, lib) * seen|
        decreases |todo|
      {
        var id := Pick(todo);
        SeenGrows(candidates, todo, seen, id);
        deleted, updated := CountOne(lib, dryRun, before, seen, id, pathsOf[id], deleted, updated);
        seen, todo := seen + {id}, todo - {id};
      }
      assert seen == candidates;
      CandidatesOnly(before, lib);
      MeetAll(Emptied(before, lib), candidates);
      MeetAll(Trimmed(before, lib), candidates);
    }

    /** Both report the rows a real run deletes and those it leaves with fewer paths; only the real run
        changes anything. */
    method CancelByLibrary(lib: int, dryRun: bool) returns (deleted: int, updated: int)
      requires Inv(View())
      modifies `rows, `scans, `links, `nextId
      ensures View() == (if dryRun then old(View()) else CancelStep(old(View()), lib)) && Inv(View())
      ensures deleted == |GoneRows(old(View()), CancelStep(old(View()), lib))|
      ensures updated == |RepathedRows(old(View()), CancelStep(old(View()), lib))|
    {
      CancelKeepsInv(cfg, View(), lib);
      CancelledSoFarEnds(View(), lib);
      CountersAreEffects(View(), lib);
      deleted, updated := VisitCandidates(lib, dryRun);
    }
  }
}
