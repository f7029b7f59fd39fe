/** Library-scoped maintenance of the queue: exact revival of retired rows, and cancelling a library
    (internal/queue/queue.go, RecheckRetired and CancelByLibrary). */
module QueueLibraries {
  import opened Prelude
  import opened Queue
  import opened QueueLaws
  import opened QueueHistory

  // ----- RecheckRetired -----

  /** The row was given up for good: it is done, and what closed it last was RetireMiss. */
  ghost predicate GivenUp(run: seq<DB>, ops: seq<Op>, k: nat, id: int)
    requires |run| == |ops| + 1 && k < |run|
  {
    id in run[k].rows && run[k].rows[id].status == Done && LastClosedByRetirement(run, ops, k, id)
  }

  /** The sentinel text finds, in every reachable state, exactly the rows given up. */
  lemma RetiredIsGivenUp(cfgs: seq<Config>, run: seq<DB>, ops: seq<Op>, k: nat, lib: Option<int>, id: int)
    requires IsRun(cfgs, run, ops) && k < |run|
    ensures id in RetiredIds(run[k], lib) <==> GivenUp(run, ops, k, id) && InScope(run[k], id, lib)
  {
    if id in run[k].rows && run[k].rows[id].status == Done { SentinelIsExact(cfgs, run, ops, k, id); }
  }

  /** In every run RecheckRetired revives exactly the rows in scope that were given up, by their whole
      history, and leaves every other row as it was. */
  lemma RevivalIsExact(cfgs: seq<Config>, run: seq<DB>, ops: seq<Op>, k: nat, id: int)
    requires IsRun(cfgs, run, ops) && k < |ops| && ops[k].RecheckRetired? && id in run[k].rows
    ensures run[k + 1].rows.Keys == run[k].rows.Keys && run[k + 1].links == run[k].links
    ensures run[k + 1].rows[id] == if GivenUp(run, ops, k, id) && InScope(run[k], id, ops[k].lib)
                                   then Revived(run[k].rows[id], ops[k].now) else run[k].rows[id]
  {
    assert StepAt(cfgs, run, ops, k);
    RetiredIsGivenUp(cfgs, run, ops, k, ops[k].lib, id);
  }

  /** A scan result goes back to pending exactly when it was done, belongs to the library when the
      call is scoped, and is linked to a row in scope that was given up. No other changes. */
  lemma RevivedScansAreExact(cfgs: seq<Config>, run: seq<DB>, ops: seq<Op>, k: nat, sid: int)
    requires IsRun(cfgs, run, ops) && k < |ops| && ops[k].RecheckRetired? && sid in run[k].scans
    ensures sid in run[k + 1].scans
    ensures run[k + 1].scans[sid] ==
            if && run[k].scans[sid].status == ScanDone
               && (ops[k].lib.Some? ==> run[k].scans[sid].libraryID == ops[k].lib.value)
               && (exists id ::
                     GivenUp(run, ops, k, id) && InScope(run[k], id, ops[k].lib) && (id, sid) in run[k].links)
            then run[k].scans[sid].(status := ScanPending) else run[k].scans[sid]
  {
    assert StepAt(cfgs, run, ops, k);
    forall id
      ensures id in RetiredIds(run[k], ops[k].lib) <==> GivenUp(run, ops, k, id) && InScope(run[k], id, ops[k].lib)
    {
      RetiredIsGivenUp(cfgs, run, ops, k, ops[k].lib, id);
    }
  }

  lemma ScopeIsStable(db: DB, lib: Option<int>, now: int, id: int)
    ensures InScope(RecheckRetiredStep(db, lib, now), id, lib) <==> InScope(db, id, lib)
  {
    var db' := RecheckRetiredStep(db, lib, now);
    if lib.Some? {
      if InLibrary(db, id, lib.value) {
        var l :| l in db.links && l.0 == id && l.1 in db.scans && db.scans[l.1].libraryID == lib.value;
        assert l in db'.links && db'.scans[l.1].libraryID == lib.value;
      }
      if InLibrary(db', id, lib.value) {
        var l :| l in db'.links && l.0 == id && l.1 in db'.scans && db'.scans[l.1].libraryID == lib.value;
        assert l in db.links && db.scans[l.1].libraryID == lib.value;
      }
    }
  }

  /** An immediate second call finds nothing and changes nothing. */
  lemma SecondRecheckIsIdle(db: DB, lib: Option<int>, now: int, later: int)
    ensures var db' := RecheckRetiredStep(db, lib, now);
      RetiredIds(db', lib) == {} && RecheckRetiredStep(db', lib, later) == db'
  {
    var db' := RecheckRetiredStep(db, lib, now);
    forall id | id in db'.rows
      ensures !(Retired(db'.rows[id]) && InScope(db', id, lib))
    {
      ScopeIsStable(db, lib, now, id);
    }
    assert RetiredIds(db', lib) == {};
    assert RecheckRetiredStep(db', lib, later).rows == db'.rows;
    assert RecheckRetiredStep(db', lib, later).scans == db'.scans;
  }

  /** Reviving undoes a retirement as the queue sees it: retire a claimed row, recheck, and the row
      waits at miss priority with its counters intact, its scan results pending again. */
  lemma RecheckUndoesRetirement(db: DB, id: int, sid: int, now: int, later: int)
    requires Claimed(db, id)
    ensures var db' := RecheckRetiredStep(RetireMissStep(db, id, now), None, later);
      && id in db'.rows && db'.rows[id] == Revived(db.rows[id], later)
      && ((id, sid) in db.links && sid in db.scans ==> db'.scans[sid] == db.scans[sid].(status := ScanPending))
  {
    var mid := RetireMissStep(db, id, now);
    assert id in RetiredIds(mid, None);
    if (id, sid) in db.links && sid in db.scans {
      assert mid.scans[sid].status == ScanDone;
    }
  }

  // ----- CancelByLibrary: the path filter -----

  /** `s` is `t` with some elements left out. */
  ghost predicate Subsequence(s: seq<OutputPath>, t: seq<OutputPath>) {
    if s == [] then true
    else if t == [] then false
    else if s[|s| - 1] == t[|t| - 1] then Subsequence(s[..|s| - 1], t[..|t| - 1]) || Subsequence(s, t[..|t| - 1])
    else Subsequence(s, t[..|t| - 1])
  }

  lemma {:induction false} FilterIsSubsequence(paths: seq<OutputPath>, keep: set<string>)
    ensures Subsequence(Filtered(paths, keep), paths)
  {
    if paths != [] {
      var init, last := paths[..|paths| - 1], paths[|paths| - 1];
      FilterIsSubsequence(init, keep);
      if OutputPathKey(last) in keep {
        assert Filtered(paths, keep)[..|Filtered(init, keep)|] == Filtered(init, keep);
      }
    }
  }

  lemma {:induction false} FilterShortens(paths: seq<OutputPath>, keep: set<string>)
    ensures |Filtered(paths, keep)| <= |paths|
    ensures |Filtered(paths, keep)| == |paths| ==> Filtered(paths, keep) == paths
  {
    if paths != [] {
      var init := paths[..|paths| - 1];
      FilterShortens(init, keep);
      assert paths == init + [paths[|paths| - 1]];
    }
  }

  lemma {:induction false} FilterKeeps(paths: seq<OutputPath>, keep: set<string>, p: OutputPath)
    ensures p in Filtered(paths, keep) <==> p in paths && OutputPathKey(p) in keep
  {
    if paths != [] {
      var init, last := paths[..|paths| - 1], paths[|paths| - 1];
      FilterKeeps(init, keep, p);
      assert paths == init + [last];
    }
  }

  lemma {:induction false} FilterTwice(paths: seq<OutputPath>, keep: set<string>)
    ensures Filtered(Filtered(paths, keep), keep) == Filtered(paths, keep)
  {
    if paths != [] {
      var init := paths[..|paths| - 1];
      FilterTwice(init, keep);
      if OutputPathKey(paths[|paths| - 1]) in keep {
        assert Filtered(paths, keep)[..|Filtered(init, keep)|] == Filtered(init, keep);
      }
    }
  }

  predicate NulFreeName(name: string) {
    '\0' !in name
  }

  /** On NUL-free names the key tells paths apart. */
  lemma KeyIsInjective(p: OutputPath, q: OutputPath)
    requires NulFreeName(p.outdir) && NulFreeName(q.outdir)
    requires OutputPathKey(p) == OutputPathKey(q)
    ensures p == q
  {
    var s := OutputPathKey(p);
    FirstNul(p);
    FirstNul(q);
    assert |p.outdir| == |q.outdir|;
    assert s[..|p.outdir|] == p.outdir && s[..|q.outdir|] == q.outdir;
    assert s[|p.outdir| + 1..] == p.filename && s[|q.outdir| + 1..] == q.filename;
  }

  lemma FirstNul(p: OutputPath)
    requires '\0' !in p.outdir
    ensures OutputPathKey(p)[|p.outdir|] == '\0'
    ensures forall k :: 0 <= k < |p.outdir| ==> OutputPathKey(p)[k] != '\0'
  {
  }

  /** A path shares its key with no other exactly when neither of its two names holds a NUL. */
  lemma KeyIsUniqueIff(p: OutputPath)
    ensures (forall q :: OutputPathKey(q) == OutputPathKey(p) ==> q == p) <==>
            NulFreeName(p.outdir) && NulFreeName(p.filename)
  {
    if !NulFreeName(p.outdir) || !NulFreeName(p.filename) {
      var q := Collision(p);
    } else {
      forall q | OutputPathKey(q) == OutputPathKey(p)
        ensures q == p
      {
        OnlyNul(p, q);
        KeyIsInjective(q, p);
      }
    }
  }

  /** The key's only NUL is the separator, so any path with that key is cut there. */
  lemma OnlyNul(p: OutputPath, q: OutputPath)
    requires NulFreeName(p.outdir) && NulFreeName(p.filename) && OutputPathKey(q) == OutputPathKey(p)
    ensures NulFreeName(q.outdir)
  {
    var s, n := OutputPathKey(p), |p.outdir|;
    assert s == p.outdir + ['\0'] + p.filename == q.outdir + ['\0'] + q.filename;
    assert s[|q.outdir|] == '\0';
    assert forall i :: 0 <= i < |s| && s[i] == '\0' ==> i == n;
    assert s[..|q.outdir|] == q.outdir;
  }

  /** A NUL further on is as good a separator as the one the key was built with. */
  lemma Collision(p: OutputPath) returns (q: OutputPath)
    requires !NulFreeName(p.outdir) || !NulFreeName(p.filename)
    ensures q != p && OutputPathKey(q) == OutputPathKey(p)
  {
    if !NulFreeName(p.outdir) {
      var i :| 0 <= i < |p.outdir| && p.outdir[i] == '\0';
      q := OutputPath(p.outdir[..i], p.outdir[i + 1..] + ['\0'] + p.filename);
      assert p.outdir == p.outdir[..i] + ['\0'] + p.outdir[i + 1..];
    } else {
      var i :| 0 <= i < |p.filename| && p.filename[i] == '\0';
      q := OutputPath(p.outdir + ['\0'] + p.filename[..i], p.filename[i + 1..]);
      assert p.filename == p.filename[..i] + ['\0'] + p.filename[i + 1..];
    }
  }

  // ----- CancelByLibrary: the rows -----

  /** A path of the row that some linked scan result of another library also writes. */
  ghost predicate WrittenElsewhere(db: DB, id: int, lib: int, p: OutputPath) {
    exists l :: l in db.links && l.0 == id && l.1 in db.scans && db.scans[l.1].libraryID != lib
                && OutputPath(db.scans[l.1].outdir, db.scans[l.1].filename) == p
  }

  ghost predicate NulFree(db: DB) {
    && (forall sid :: sid in db.scans ==> NulFreeName(db.scans[sid].outdir))
    && (forall id :: id in db.rows ==> forall p :: p in db.rows[id].outputPaths ==> NulFreeName(p.outdir))
  }

  function TargetOfScan(row: ScanRow): OutputPath {
    OutputPath(row.outdir, row.filename)
  }

  lemma KeptIsWrittenElsewhere(db: DB, id: int, lib: int, p: OutputPath)
    requires NulFree(db) && id in db.rows && p in db.rows[id].outputPaths
    ensures OutputPathKey(p) in KeepSet(db, id, lib) <==> WrittenElsewhere(db, id, lib, p)
  {
    if OutputPathKey(p) in KeepSet(db, id, lib) {
      var l :| l in db.links && l.0 == id && l.1 in db.scans && db.scans[l.1].libraryID != lib
               && OutputPathKey(OutputPath(db.scans[l.1].outdir, db.scans[l.1].filename)) == OutputPathKey(p);
      var sid: int := l.1;
      var scan := db.scans[sid];
      assert NulFreeName(scan.outdir);
      KeyIsInjective(TargetOfScan(scan), p);
    }
  }

  lemma LeftIsWrittenElsewhere(db: DB, id: int, lib: int)
    requires NulFree(db) && id in db.rows
    ensures forall p :: p in PathsLeft(db, id, lib) <==>
            p in db.rows[id].outputPaths && WrittenElsewhere(db, id, lib, p)
  {
    forall p
      ensures p in PathsLeft(db, id, lib) <==> p in db.rows[id].outputPaths && WrittenElsewhere(db, id, lib, p)
    {
      FilterKeeps(db.rows[id].outputPaths, KeepSet(db, id, lib), p);
      if p in db.rows[id].outputPaths { KeptIsWrittenElsewhere(db, id, lib, p); }
    }
  }

  /** A waiting row with a linked scan result in the library: what a cancellation may touch. */
  ghost predicate Reached(db: DB, lib: int, id: int) {
    && id in db.rows && db.rows[id].status in {Pending, Failed, Deferred}
    && exists sid: int :: (id, sid) in db.links && sid in db.scans && db.scans[sid].libraryID == lib
  }

  lemma CandidatesAreReached(db: DB, lib: int, id: int)
    ensures id in Candidates(db, lib) <==> Reached(db, lib, id)
  {
    if id in Candidates(db, lib) {
      var l :| l in db.links && l.0 == id && l.1 in db.scans && db.scans[l.1].libraryID == lib;
      var sid: int := l.1;
      assert (id, sid) in db.links && sid in db.scans;
    }
    if Reached(db, lib, id) {
      var sid: int :| (id, sid) in db.links && sid in db.scans && db.scans[sid].libraryID == lib;
      var l := (id, sid);
      assert l in db.links && l.0 == id;
    }
  }

  lemma {:induction false} FilterKeepsCount(paths: seq<OutputPath>, keep: set<string>, p: OutputPath)
    ensures multiset(Filtered(paths, keep))[p] == if OutputPathKey(p) in keep then multiset(paths)[p] else 0
  {
    if paths != [] {
      var init, last := paths[..|paths| - 1], paths[|paths| - 1];
      FilterKeepsCount(init, keep, p);
      assert paths == init + [last];
    }
  }

  /** The paths a cancellation leaves: those also written for another library, in order and as often. */
  ghost predicate LeftElsewhere(db: DB, lib: int, id: int, left: seq<OutputPath>)
    requires id in db.rows
  {
    && Subsequence(left, db.rows[id].outputPaths)
    && forall p :: p in db.rows[id].outputPaths || p in left ==>
         multiset(left)[p] == if WrittenElsewhere(db, id, lib, p) then multiset(db.rows[id].outputPaths)[p] else 0
  }

  lemma LeftIsLeftElsewhere(db: DB, lib: int, id: int)
    requires NulFree(db) && id in db.rows
    ensures LeftElsewhere(db, lib, id, PathsLeft(db, id, lib))
  {
    var paths, keep := db.rows[id].outputPaths, KeepSet(db, id, lib);
    FilterIsSubsequence(paths, keep);
    forall p | p in paths || p in PathsLeft(db, id, lib)
      ensures multiset(PathsLeft(db, id, lib))[p] == if WrittenElsewhere(db, id, lib, p) then multiset(paths)[p] else 0
    {
      FilterKeeps(paths, keep, p);
      FilterKeepsCount(paths, keep, p);
      KeptIsWrittenElsewhere(db, id, lib, p);
    }
  }

  /** A reached row survives exactly when one of its paths is written for some other library too; then
      it keeps exactly those paths, and nothing else about it changes. */
  lemma ReachedRowsKeepOtherLibraries(db: DB, lib: int, id: int)
    requires NulFree(db) && Reached(db, lib, id)
    ensures var db' := CancelStep(db, lib);
      && (id in db'.rows <==> exists p :: p in db.rows[id].outputPaths && WrittenElsewhere(db, id, lib, p))
      && (id in db'.rows ==>
            && db'.rows[id] == db.rows[id].(outputPaths := db'.rows[id].outputPaths)
            && db'.rows[id].outputPaths != [] && LeftElsewhere(db, lib, id, db'.rows[id].outputPaths))
  {
    var left := PathsLeft(db, id, lib);
    CandidatesAreReached(db, lib, id);
    LeftIsWrittenElsewhere(db, id, lib);
    LeftIsLeftElsewhere(db, lib, id);
    FilterShortens(db.rows[id].outputPaths, KeepSet(db, id, lib));
    if left != [] { assert left[0] in left; }
  }

  /** Some linked scan result of another library has the path's key. */
  ghost predicate KeyedElsewhere(db: DB, id: int, lib: int, p: OutputPath) {
    exists sid: int :: (id, sid) in db.links && sid in db.scans && db.scans[sid].libraryID != lib
                       && db.scans[sid].outdir + ['\0'] + db.scans[sid].filename == p.outdir + ['\0'] + p.filename
  }

  lemma KeptIsKeyedElsewhere(db: DB, id: int, lib: int, p: OutputPath)
    ensures OutputPathKey(p) in KeepSet(db, id, lib) <==> KeyedElsewhere(db, id, lib, p)
  {
    if OutputPathKey(p) in KeepSet(db, id, lib) {
      var l :| l in db.links && l.0 == id && l.1 in db.scans && db.scans[l.1].libraryID != lib
               && OutputPathKey(OutputPath(db.scans[l.1].outdir, db.scans[l.1].filename)) == OutputPathKey(p);
      var sid: int := l.1;
      assert (id, sid) in db.links && sid in db.scans;
    }
    if sid: int :| (id, sid) in db.links && sid in db.scans && db.scans[sid].libraryID != lib
                   && db.scans[sid].outdir + ['\0'] + db.scans[sid].filename == p.outdir + ['\0'] + p.filename {
      var l := (id, sid);
      assert l in db.links && l.0 == id && OutputPathKey(TargetOfScan(db.scans[l.1])) == OutputPathKey(p);
    }
  }

  /** Whatever the names hold, the comparison is by key: a reached row survives exactly when one of its
      paths has the key of a linked scan result of another library, and keeps exactly those paths. */
  lemma ReachedRowsSurviveByKey(db: DB, lib: int, id: int)
    requires Reached(db, lib, id)
    ensures var db' := CancelStep(db, lib);
      && (id in db'.rows <==> exists p :: p in db.rows[id].outputPaths && KeyedElsewhere(db, id, lib, p))
      && (id in db'.rows ==>
            && Subsequence(db'.rows[id].outputPaths, db.rows[id].outputPaths)
            && forall p :: p in db'.rows[id].outputPaths <==>
                             p in db.rows[id].outputPaths && KeyedElsewhere(db, id, lib, p))
  {
    var paths, keep, left := db.rows[id].outputPaths, KeepSet(db, id, lib), PathsLeft(db, id, lib);
    CandidatesAreReached(db, lib, id);
    FilterIsSubsequence(paths, keep);
    FilterShortens(paths, keep);
    forall p
      ensures p in left <==> p in paths && KeyedElsewhere(db, id, lib, p)
    {
      FilterKeeps(paths, keep, p);
      KeptIsKeyedElsewhere(db, id, lib, p);
    }
    if left != [] { assert left[0] in left; }
  }

  /** Rows being processed or done, and rows not linked to the library, are left alone; so are the scan
      results. */
  lemma OthersAreUntouched(db: DB, lib: int, id: int)
    requires id in db.rows && !Reached(db, lib, id)
    ensures var db' := CancelStep(db, lib);
      && id in db'.rows && db'.rows[id] == db.rows[id] && db'.scans == db.scans
  {
    CandidatesAreReached(db, lib, id);
  }

  /** No row appears. */
  lemma CancelAddsNoRow(db: DB, lib: int)
    ensures CancelStep(db, lib).rows.Keys <= db.rows.Keys && CancelStep(db, lib).nextId == db.nextId
  {
  }

  /** The rows an operation deleted, and those it left with other paths. */
  function GoneRows(before: DB, after: DB): set<int> {
    before.rows.Keys - after.rows.Keys
  }

  function RepathedRows(before: DB, after: DB): set<int> {
    set id | id in after.rows && id in before.rows && after.rows[id].outputPaths != before.rows[id].outputPaths
  }

  lemma CountersAreEffects(db: DB, lib: int)
    ensures Emptied(db, lib) == GoneRows(db, CancelStep(db, lib))
    ensures Trimmed(db, lib) == RepathedRows(db, CancelStep(db, lib))
  {
    forall id | id in db.rows
      ensures |PathsLeft(db, id, lib)| != |db.rows[id].outputPaths| <==>
              PathsLeft(db, id, lib) != db.rows[id].outputPaths
    {
      FilterShortens(db.rows[id].outputPaths, KeepSet(db, id, lib));
    }
  }

  /** The links that go are those of the rows deleted; no row that stays loses or gains one. */
  lemma LinksGoWithTheirRows(db: DB, lib: int)
    requires WellFormed(db)
    ensures forall l :: l in CancelStep(db, lib).links <==> l in db.links && l.0 in CancelStep(db, lib).rows
  {
  }

  lemma LinksOfSurvivors(db: DB, lib: int, id: int)
    requires id in CancelStep(db, lib).rows
    ensures InLibrary(CancelStep(db, lib), id, lib) <==> InLibrary(db, id, lib)
    ensures KeepSet(CancelStep(db, lib), id, lib) == KeepSet(db, id, lib)
  {
    var db' := CancelStep(db, lib);
    assert forall l: (int, int) :: l.0 == id ==> (l in db'.links <==> l in db.links);
  }

  /** A second cancellation changes nothing, so it deletes and updates no row. */
  lemma SecondCancelIsIdle(db: DB, lib: int)
    ensures var db' := CancelStep(db, lib);
      && CancelStep(db', lib) == db' && GoneRows(db', CancelStep(db', lib)) == {}
      && RepathedRows(db', CancelStep(db', lib)) == {}
  {
    var db' := CancelStep(db, lib);
    NothingLeftToCancel(db, lib);
    CountersAreEffects(db', lib);
    assert CancelStep(db', lib).rows == db'.rows;
    assert CancelStep(db', lib).links == db'.links;
  }

  lemma NothingLeftToCancel(db: DB, lib: int)
    ensures Emptied(CancelStep(db, lib), lib) == {} && Trimmed(CancelStep(db, lib), lib) == {}
  {
    var db' := CancelStep(db, lib);
    forall id | id in Candidates(db', lib)
      ensures PathsLeft(db', id, lib) == db'.rows[id].outputPaths != []
    {
      LinksOfSurvivors(db, lib, id);
      assert id in Candidates(db, lib) && id !in Emptied(db, lib);
      FilterTwice(db.rows[id].outputPaths, KeepSet(db, id, lib));
      FilterShortens(db.rows[id].outputPaths, KeepSet(db, id, lib));
    }
  }
}
