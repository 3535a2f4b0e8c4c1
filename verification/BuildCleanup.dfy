/** The cleanup commands: plan or delete the candidate entries of `target`. */
module BuildCleanup {
  import opened BuildArtifacts
  import opened CargoLocks
  import opened FileSystem
  import opened Results

  /** `target` as the command finds it. A path that does not resolve is `Absent`. */
  datatype Target = Absent | NotRealDirectory | Directory(entries: seq<Entry>)

  datatype Error =
    BudgetInvalid | BoundaryInvalid | ScanFailed | TargetBusy | LockUnreadable | CleanFailed

  datatype Summary = Summary(
    applied: bool, targetBytes: nat, reclaimableBytes: nat, reclaimedBytes: nat,
    candidates: seq<string>, preserved: seq<string>, skipped: seq<string>)

  datatype Budget = Budget(warningBytes: int, projectedBytes: nat, overBudget: bool, cleanup: Summary)

  function NamesOf(entries: seq<Entry>, category: Category, automaticOnly: bool): seq<string> {
    if entries == [] then [] else
      var n := |entries| - 1;
      var before := NamesOf(entries[..n], category, automaticOnly);
      if CategoryOf(entries[n].name, automaticOnly) == category then before + [entries[n].name] else before
  }

  lemma {:induction false} NoCandidatesNoUnlinks(entries: seq<Entry>, automaticOnly: bool)
    requires NamesOf(entries, Candidate, automaticOnly) == []
    ensures CandidateUnlinks(entries, automaticOnly) == []
  {
    if entries != [] {
      NoCandidatesNoUnlinks(entries[..|entries| - 1], automaticOnly);
    }
  }

  lemma {:induction false} ForestUnlinksPrefix(ts: seq<Tree>, k: nat)
    requires k < |ts|
    ensures ForestUnlinks(ts[..k + 1]) == ForestUnlinks(ts[..k]) + Unlinks(ts[k])
    ensures ForestUnlinks(ts[..k + 1]) <= ForestUnlinks(ts)
  {
    if k == 0 {
      assert ts[..1] == [ts[0]] && ts[..1][1..] == [] && ts[..0] == [];
      assert ForestUnlinks(ts[..1]) == Unlinks(ts[0]) + ForestUnlinks([]);
    } else {
      ForestUnlinksPrefix(ts[1..], k - 1);
      assert ts[..k + 1][1..] == ts[1..][..k] && ts[..k][1..] == ts[1..][..k - 1];
    }
  }

  lemma {:induction false} CandidateUnlinksNext(entries: seq<Entry>, k: nat, automaticOnly: bool)
    requires k < |entries|
    ensures CandidateUnlinks(entries[..k + 1], automaticOnly)
         == CandidateUnlinks(entries[..k], automaticOnly)
            + if IsCandidate(entries[k].name, automaticOnly) then Unlinks(entries[k].tree) else []
  {
    assert entries[..k + 1][..k] == entries[..k];
  }

  lemma {:induction false} CandidateUnlinksPrefix(entries: seq<Entry>, k: nat, automaticOnly: bool)
    requires k <= |entries|
    ensures CandidateUnlinks(entries[..k], automaticOnly) <= CandidateUnlinks(entries, automaticOnly)
  {
    var n := |entries|;
    if k == n {
      assert entries[..k] == entries;
    } else {
      CandidateUnlinksPrefix(entries[..n - 1], k, automaticOnly);
      assert entries[..n - 1][..k] == entries[..k];
    }
  }

  lemma EmptyTableScansNothing(automaticOnly: bool)
    ensures Scanned([], automaticOnly, map[])
  {
    forall i: Ino
      ensures ScannedAt([], automaticOnly, map[], i)
    {
    }
  }

  lemma ScanNextEntry(entries: seq<Entry>, k: nat, automaticOnly: bool, before: Table, after: Table)
    requires k < |entries| && Scanned(entries[..k], automaticOnly, before)
    requires Adds(before, after, multiset(Names(entries[k].tree)), CategoryOf(entries[k].name, automaticOnly))
    ensures Scanned(entries[..k + 1], automaticOnly, after)
  {
    assert entries[..k + 1][..k] == entries[..k];
    ScanExtends(entries[..k + 1], automaticOnly, before, after);
  }

  /** Adds up the allocated bytes of some of the table's inodes. */
  method BytesOf(table: Table, keys: set<Ino>, ghost meta: map<Ino, Meta>) returns (total: nat)
    requires Consistent(table, meta) && keys <= table.Keys
    ensures keys <= meta.Keys && total == Bytes(keys, meta)
  {
    total := 0;
    var left := keys;
    while left != {}
      invariant left <= keys <= meta.Keys
      invariant total + Bytes(left, meta) == Bytes(keys, meta)
      decreases left
    {
      var i :| i in left;
      BytesPick(left, meta, i);
      total := total + table[i].bytes;
      left := left - {i};
    }
  }

  predicate AllScannable(entries: seq<Entry>) {
    forall k :: 0 <= k < |entries| ==> Scannable(entries[k].tree)
  }

  /** What a completed command reports, against the names that really went. */
  ghost predicate Accurate(s: Summary, entries: seq<Entry>, names: multiset<Ino>, meta: map<Ino, Meta>,
                           apply: bool, automaticOnly: bool, unlinked: seq<Ino>)
    requires WellFormed(entries, names, meta)
  {
    && s.applied == apply
    && s.candidates == NamesOf(entries, Candidate, automaticOnly)
    && s.preserved == NamesOf(entries, Preserved, automaticOnly)
    && s.skipped == NamesOf(entries, Skipped, automaticOnly)
    && Inodes(AllNames(entries)) <= meta.Keys
    && s.targetBytes == Bytes(Inodes(AllNames(entries)), meta)
    && s.reclaimableBytes
       == Usage(names, meta) - Usage(names - NamesIn(entries, Candidate, automaticOnly), meta)
    && s.reclaimedBytes == Usage(names, meta) - Usage(names - multiset(unlinked), meta)
    && s.targetBytes - s.reclaimedBytes
       == Bytes(Inodes(AllNames(entries)) * Inodes(names - multiset(unlinked)), meta)
  }

  /** Which way a command on a scannable `target` ends, and what it unlinked:
      everything planned, a prefix when a deletion fails, otherwise nothing. */
  ghost predicate Concludes(r: Result<Summary, Error>, entries: seq<Entry>, apply: bool, automaticOnly: bool,
                            obtainable: bool, budget: nat, unlinked: seq<Ino>)
  {
    var planned := CandidateUnlinks(entries, automaticOnly);
    if apply && NamesOf(entries, Candidate, automaticOnly) != [] then
      if !obtainable then r in {Err(TargetBusy), Err(LockUnreadable)} && unlinked == []
      else if budget < |planned| then r == Err(CleanFailed) && unlinked == planned[..budget]
      else r.Ok? && unlinked == planned
    else
      r.Ok? && unlinked == []
  }

  class Repository {
    const target: Target
    const meta: map<Ino, Meta>
    /** Every name on the file system before the command. */
    const names: multiset<Ino>
    /** The unlink operations carried out so far. */
    var unlinked: seq<Ino>

    constructor (target: Target, meta: map<Ino, Meta>, names: multiset<Ino>)
      ensures this.target == target && this.meta == meta && this.names == names && unlinked == []
    {
      this.target := target;
      this.meta := meta;
      this.names := names;
      unlinked := [];
    }

    ghost predicate Valid() {
      target.Directory? ==> WellFormed(target.entries, names, meta)
    }

    method ScanEntries(automaticOnly: bool) returns (ok: bool, table: Table)
      requires Valid() && target.Directory?
      ensures ok <==> AllScannable(target.entries)
      ensures ok ==> Consistent(table, meta) && Scanned(target.entries, automaticOnly, table)
    {
      var entries := target.entries;
      var scan := new Scan(meta);
      table := map[];
      EmptyTableScansNothing(automaticOnly);
      assert entries[..0] == [];
      var k := 0;
      while k < |entries|
        invariant 0 <= k <= |entries|
        invariant scan.meta == meta && fresh(scan)
        invariant Consistent(scan.inodes, meta) && Scanned(entries[..k], automaticOnly, scan.inodes)
        invariant AllScannable(entries[..k])
      {
        ghost var before := scan.inodes;
        ok := scan.ScanPath(entries[k].tree, CategoryOf(entries[k].name, automaticOnly));
        if !ok {
          return;
        }
        ScanNextEntry(entries, k, automaticOnly, before, scan.inodes);
        k := k + 1;
      }
      assert entries[..k] == entries;
      return true, scan.inodes;
    }

    /** Unlinks a whole tree, or as much of it as `budget` operations allow. */
    method Remove(t: Tree, budget: nat) returns (ok: bool, left: nat)
      modifies this
      ensures ok <==> |Unlinks(t)| <= budget
      ensures ok ==> unlinked == old(unlinked) + Unlinks(t) && left == budget - |Unlinks(t)|
      ensures !ok ==> unlinked == old(unlinked) + Unlinks(t)[..budget]
      decreases t
    {
      left := budget;
      if t.Unreadable? {
        return true, left;
      }
      if t.Dir? {
        var k := 0;
        while k < |t.children|
          invariant 0 <= k <= |t.children|
          invariant unlinked == old(unlinked) + ForestUnlinks(t.children[..k])
          invariant left + |ForestUnlinks(t.children[..k])| == budget
        {
          ForestUnlinksPrefix(t.children, k);
          ok, left := Remove(t.children[k], left);
          if !ok {
            return;
          }
          k := k + 1;
        }
        assert t.children[..k] == t.children;
      }
      if left == 0 {
        return false, 0;
      }
      unlinked := unlinked + [t.ino];
      return true, left - 1;
    }

    method RemoveCandidates(automaticOnly: bool, budget: nat) returns (ok: bool)
      requires target.Directory? && unlinked == []
      modifies this
      ensures var planned := CandidateUnlinks(target.entries, automaticOnly);
              && (ok <==> |planned| <= budget)
              && unlinked == if ok then planned else planned[..budget]
    {
      var entries := target.entries;
      var left: nat := budget;
      var k := 0;
      while k < |entries|
        invariant 0 <= k <= |entries|
        invariant unlinked == CandidateUnlinks(entries[..k], automaticOnly)
        invariant left + |unlinked| == budget
      {
        CandidateUnlinksNext(entries, k, automaticOnly);
        CandidateUnlinksPrefix(entries, k + 1, automaticOnly);
        if IsCandidate(entries[k].name, automaticOnly) {
          ok, left := Remove(entries[k].tree, left);
          if !ok {
            return;
          }
        }
        k := k + 1;
      }
      assert entries[..k] == entries;
      return true;
    }

    /** Plans a cleanup of a scannable `target`, from the scanned table. */
    method Plan(table: Table, apply: bool, automaticOnly: bool) returns (s: Summary)
      requires Valid() && target.Directory?
      requires Consistent(table, meta) && Scanned(target.entries, automaticOnly, table)
      ensures Accurate(s, target.entries, names, meta, apply, automaticOnly,
                if apply then CandidateUnlinks(target.entries, automaticOnly) else [])
    {
      var entries := target.entries;
      PredictionExact(entries, names, meta, automaticOnly, table);
      ReclaimableLosesLastName(entries, names, meta, automaticOnly, table);
      CandidateUnlinksAreNames(entries, automaticOnly);
      var total := BytesOf(table, table.Keys, meta);
      var reclaimable := BytesOf(table, Reclaimable(table), meta);
      s := Summary(apply, total, reclaimable, if apply then reclaimable else 0,
        NamesOf(entries, Candidate, automaticOnly),
        NamesOf(entries, Preserved, automaticOnly),
        NamesOf(entries, Skipped, automaticOnly));
      assert names - multiset([]) == names;
      assert table.Keys * Inodes(names) == table.Keys;
    }

    /** Plans or carries out one cleanup. `budget` is the number of unlink operations
        that succeed before the operating system reports an error. */
    method Clean(apply: bool, automaticOnly: bool, locks: Locks, budget: nat) returns (r: Result<Summary, Error>)
      requires Valid() && unlinked == [] && locks.handles == []
      modifies this, locks
      ensures locks.handles == []
      ensures target.Absent? ==> r == Ok(Summary(apply, 0, 0, 0, [], [], [])) && unlinked == []
      ensures target.NotRealDirectory? ==> r == Err(BoundaryInvalid) && unlinked == []
      ensures target.Directory? && !AllScannable(target.entries) ==> r == Err(ScanFailed) && unlinked == []
      ensures target.Directory? && AllScannable(target.entries) ==>
                Concludes(r, target.entries, apply, automaticOnly,
                  Obtainable(locks.paths, locks.foreign), budget, unlinked)
      ensures r == Err(TargetBusy) ==> StopsAt(locks.paths, locks.foreign, true)
      ensures r == Err(LockUnreadable) ==> StopsAt(locks.paths, locks.foreign, false)
      ensures target.Directory? && r.Ok? ==>
                Accurate(r.value, target.entries, names, meta, apply, automaticOnly, unlinked)
    {
      if target.Absent? {
        return Ok(Summary(apply, 0, 0, 0, [], [], []));
      }
      if target.NotRealDirectory? {
        return Err(BoundaryInvalid);
      }
      var ok, table := ScanEntries(automaticOnly);
      if !ok {
        return Err(ScanFailed);
      }
      var summary := Plan(table, apply, automaticOnly);
      if apply && summary.candidates != [] {
        var held := locks.Hold();
        if held != Held {
          return Err(if held == Busy then TargetBusy else LockUnreadable);
        }
        ok := RemoveCandidates(automaticOnly, budget);
        locks.Release();
        if !ok {
          return Err(CleanFailed);
        }
      } else if apply {
        NoCandidatesNoUnlinks(target.entries, automaticOnly);
      }
      return Ok(summary);
    }

    /** Removes transient outputs and reports whether the surviving cache exceeds the
        warning threshold; a threshold that is not positive touches nothing. */
    method AutoClean(warningBytes: int, locks: Locks, budget: nat) returns (r: Result<Budget, Error>)
      requires Valid() && unlinked == [] && locks.handles == []
      modifies this, locks
      ensures locks.handles == []
      ensures r == Err(BudgetInvalid) <==> warningBytes <= 0
      ensures warningBytes <= 0 ==> unlinked == []
      ensures warningBytes > 0 && target.Absent? ==>
                && r == Ok(Budget(warningBytes, 0, false, Summary(true, 0, 0, 0, [], [], [])))
                && unlinked == []
      ensures warningBytes > 0 && target.NotRealDirectory? ==> r == Err(BoundaryInvalid) && unlinked == []
      ensures warningBytes > 0 && target.Directory? && !AllScannable(target.entries) ==>
                r == Err(ScanFailed) && unlinked == []
      ensures warningBytes > 0 && target.Directory? && AllScannable(target.entries) ==>
                Concludes(if r.Ok? then Ok(r.value.cleanup) else Err(r.error), target.entries, true, true,
                  Obtainable(locks.paths, locks.foreign), budget, unlinked)
      ensures r == Err(TargetBusy) ==> StopsAt(locks.paths, locks.foreign, true)
      ensures r == Err(LockUnreadable) ==> StopsAt(locks.paths, locks.foreign, false)
      ensures r.Ok? ==> warningBytes > 0 && r.value.warningBytes == warningBytes
      ensures r.Ok? ==> (r.value.overBudget <==> r.value.projectedBytes > warningBytes)
      ensures r.Ok? && target.Directory? ==>
                && Accurate(r.value.cleanup, target.entries, names, meta, true, true, unlinked)
                && r.value.projectedBytes
                   == Bytes(Inodes(AllNames(target.entries)) * Inodes(names - multiset(unlinked)), meta)
    {
      if warningBytes <= 0 {
        return Err(BudgetInvalid);
      }
      var cleanup := Clean(true, true, locks, budget);
      if cleanup.Err? {
        return Err(cleanup.error);
      }
      var projected := cleanup.value.targetBytes - cleanup.value.reclaimedBytes;
      return Ok(Budget(warningBytes, projected, projected > warningBytes, cleanup.value));
    }
  }
}
