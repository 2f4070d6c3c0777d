/**
 * The `__main__` block of main.py: the backup root comes from the
 * environment, and every row of `config.conf` that is not a comment is
 * handed to `backup_mikrotik`, in file order. Nothing catches what
 * `backup_mikrotik` raises, so the first failure ends the whole program.
 */
module Driver {
  import opened Results
  import opened Strings
  import opened Errors
  import opened Device
  import opened Backup
  import opened BackupFacts

  /** How the program ends. */
  datatype Exit =
    | MissingBackupPath     // `MIKROTIK_BACKUP_PATH` is not set: `exit(1)`
    | Crashed(error: Error) // an exception escaped the loop
    | Completed             // every row was handled

  /** The process exit status: `exit(1)` and an uncaught exception both give 1. */
  function ExitCode(e: Exit): (code: int)
    ensures code == 0 <==> e.Completed?
    ensures code == 0 || code == 1
  {
    if e.Completed? then 0 else 1
  }

  /** A row whose first field starts with `#` is skipped. */
  predicate IsCommentRow(row: seq<string>)
    requires row != []
  {
    HasPrefix(row[0], "#")
  }

  /** The rows that are not comments, in file order; an empty row is kept. */
  function Active(rows: seq<seq<string>>): seq<seq<string>> {
    if rows == [] then []
    else (if rows[0] != [] && IsCommentRow(rows[0]) then [] else [rows[0]]) + Active(rows[1..])
  }

  /** The addresses the rows name. */
  function Addresses(rows: seq<seq<string>>): set<string> {
    set r | r in rows && r != [] :: r[0]
  }

  /**
   * What the loop did: how it ended, the backup root it left, the rows it
   * handed to `backup_mikrotik`, and every operation attempted.
   */
  datatype RunReport = RunReport(exit: Exit, tree: Tree, attempted: seq<seq<string>>, steps: seq<Step>)

  /** The loop over the rows of `config.conf`. */
  function Drive(tree: Tree, rows: seq<seq<string>>, date: string, network: map<string, Device>, faults: Faults): RunReport
    decreases |rows|
  {
    if rows == [] then RunReport(Completed, tree, [], [])
    else if rows[0] == [] then RunReport(Crashed(MissingField), tree, [], [])
    else if IsCommentRow(rows[0]) then Drive(tree, rows[1..], date, network, faults)
    else
      var one := BackupRow(tree, rows[0], date, network, faults);
      if one.outcome.Fail? then RunReport(Crashed(one.outcome.error), one.tree, [rows[0]], one.steps)
      else
        var rest := Drive(one.tree, rows[1..], date, network, faults);
        RunReport(rest.exit, rest.tree, [rows[0]] + rest.attempted, one.steps + rest.steps)
  }

  /** The whole program, given the environment variable and the rows of `config.conf`. */
  function Program(basePath: Option<string>, tree: Tree, rows: seq<seq<string>>, date: string,
                   network: map<string, Device>, faults: Faults): RunReport
  {
    if basePath.None? then RunReport(MissingBackupPath, tree, [], [])
    else Drive(tree, rows, date, network, faults)
  }

  /** The `__main__` loop, one row at a time. */
  method RunBackups(store: Store, basePath: Option<string>, rows: seq<seq<string>>, date: string) returns (exit: Exit)
    modifies store`tree, store`steps
    ensures var rep := Program(basePath, old(store.tree), rows, date, store.network, store.faults);
      exit == rep.exit && store.tree == rep.tree && store.steps == old(store.steps) + rep.steps
    ensures basePath.None? ==> exit == MissingBackupPath && store.tree == old(store.tree) && store.steps == old(store.steps)
  {
    if basePath.None? {
      return MissingBackupPath;
    }
    ghost var done: seq<Step> := [];
    var i := 0;
    while i < |rows|
      invariant 0 <= i <= |rows|
      invariant var whole := Drive(old(store.tree), rows, date, store.network, store.faults);
        var rest := Drive(store.tree, rows[i..], date, store.network, store.faults);
        whole.exit == rest.exit && whole.tree == rest.tree && whole.steps == done + rest.steps
      invariant store.steps == old(store.steps) + done
    {
      var row := rows[i];
      DriveFirst(store.tree, rows, i, date, store.network, store.faults);
      if row == [] {
        return Crashed(MissingField);
      }
      if IsCommentRow(row) {
        i := i + 1;
        continue;
      }
      ghost var one := BackupRow(store.tree, row, date, store.network, store.faults);
      ghost var rest := Drive(one.tree, rows[i + 1..], date, store.network, store.faults);
      var r := store.BackupMikrotik(date, row);
      AppendTwice(old(store.steps), done, one.steps);
      if r.Fail? {
        return Crashed(r.error);
      }
      AppendTwice(done, one.steps, rest.steps);
      done := done + one.steps;
      i := i + 1;
    }
    assert rows[i..] == [];
    exit := Completed;
  }

  /** How `Drive` handles the row at `i`, the first of `rows[i..]`. */
  lemma DriveFirst(tree: Tree, rows: seq<seq<string>>, i: nat, date: string, network: map<string, Device>, faults: Faults)
    requires i < |rows|
    ensures var here := Drive(tree, rows[i..], date, network, faults);
      && (rows[i] == [] ==> here == RunReport(Crashed(MissingField), tree, [], []))
      && (rows[i] != [] && IsCommentRow(rows[i]) ==> here == Drive(tree, rows[i + 1..], date, network, faults))
    ensures rows[i] != [] && !IsCommentRow(rows[i]) ==>
      var one := BackupRow(tree, rows[i], date, network, faults);
      var rest := Drive(one.tree, rows[i + 1..], date, network, faults);
      Drive(tree, rows[i..], date, network, faults)
      == if one.outcome.Fail? then RunReport(Crashed(one.outcome.error), one.tree, [rows[i]], one.steps)
         else RunReport(rest.exit, rest.tree, [rows[i]] + rest.attempted, one.steps + rest.steps)
  {
    assert rows[i..][0] == rows[i] && rows[i..][1..] == rows[i + 1..];
  }

  /** Comment rows play no part: the loop does the same on the rows that are not comments. */
  lemma {:induction false} CommentRowsSkipped(tree: Tree, rows: seq<seq<string>>, date: string,
                                              network: map<string, Device>, faults: Faults)
    ensures Drive(tree, rows, date, network, faults) == Drive(tree, Active(rows), date, network, faults)
    decreases |rows|
  {
    if rows != [] {
      var tail := Active(rows[1..]);
      if rows[0] != [] && IsCommentRow(rows[0]) {
        assert Active(rows) == tail;
        CommentRowsSkipped(tree, rows[1..], date, network, faults);
      } else {
        assert Active(rows) == [rows[0]] + tail;
        assert ([rows[0]] + tail)[1..] == tail;
        if rows[0] != [] {
          var one := BackupRow(tree, rows[0], date, network, faults);
          CommentRowsSkipped(one.tree, rows[1..], date, network, faults);
        }
      }
    }
  }

  /**
   * The rows handed to `backup_mikrotik` are the first non-comment rows, in
   * order; a run that completes handed over all of them, and had no empty row.
   */
  lemma {:induction false} AttemptedRows(tree: Tree, rows: seq<seq<string>>, date: string,
                                         network: map<string, Device>, faults: Faults)
    ensures Drive(tree, rows, date, network, faults).attempted <= Active(rows)
    ensures Drive(tree, rows, date, network, faults).exit == Completed ==>
      Drive(tree, rows, date, network, faults).attempted == Active(rows) && [] !in rows
    decreases |rows|
  {
    if rows != [] && rows[0] != [] {
      var tail := Active(rows[1..]);
      if IsCommentRow(rows[0]) {
        AttemptedRows(tree, rows[1..], date, network, faults);
        assert Active(rows) == tail;
        assert rows == [rows[0]] + rows[1..];
      } else {
        var one := BackupRow(tree, rows[0], date, network, faults);
        AttemptedRows(one.tree, rows[1..], date, network, faults);
        assert Active(rows) == [rows[0]] + tail;
        assert rows == [rows[0]] + rows[1..];
      }
    }
  }

  /** Once a row fails, the rows after it change nothing: they are never read. */
  lemma {:induction false} CrashIgnoresLaterRows(tree: Tree, rows: seq<seq<string>>, later: seq<seq<string>>, date: string,
                                                 network: map<string, Device>, faults: Faults)
    requires Drive(tree, rows, date, network, faults).exit.Crashed?
    ensures Drive(tree, rows + later, date, network, faults) == Drive(tree, rows, date, network, faults)
    decreases |rows|
  {
    assert (rows + later)[0] == rows[0];
    assert (rows + later)[1..] == rows[1..] + later;
    if rows[0] != [] {
      var one := BackupRow(tree, rows[0], date, network, faults);
      if IsCommentRow(rows[0]) {
        CrashIgnoresLaterRows(tree, rows[1..], later, date, network, faults);
      } else if one.outcome.Pass? {
        CrashIgnoresLaterRows(one.tree, rows[1..], later, date, network, faults);
      }
    }
  }

  /** A run over two blocks of rows that completes the first goes on from the root the first left. */
  lemma {:induction false} CompletedThenContinues(tree: Tree, rows: seq<seq<string>>, later: seq<seq<string>>, date: string,
                                                  network: map<string, Device>, faults: Faults)
    requires Drive(tree, rows, date, network, faults).exit == Completed
    ensures var first := Drive(tree, rows, date, network, faults);
      var second := Drive(first.tree, later, date, network, faults);
      Drive(tree, rows + later, date, network, faults)
      == RunReport(second.exit, second.tree, first.attempted + second.attempted, first.steps + second.steps)
    decreases |rows|
  {
    if rows == [] {
      assert rows + later == later;
    } else {
      assert (rows + later)[0] == rows[0];
      assert (rows + later)[1..] == rows[1..] + later;
      if IsCommentRow(rows[0]) {
        CompletedThenContinues(tree, rows[1..], later, date, network, faults);
      } else {
        var one := BackupRow(tree, rows[0], date, network, faults);
        CompletedThenContinues(one.tree, rows[1..], later, date, network, faults);
        var rest := Drive(one.tree, rows[1..], date, network, faults);
        var second := Drive(rest.tree, later, date, network, faults);
        AppendTwice([rows[0]], rest.attempted, second.attempted);
        AppendTwice(one.steps, rest.steps, second.steps);
      }
    }
  }

  /** The folder of an address that no non-comment row names is never touched. */
  lemma {:induction false} UnlistedFoldersUntouched(tree: Tree, rows: seq<seq<string>>, date: string,
                                                    network: map<string, Device>, faults: Faults)
    ensures forall a :: a !in Addresses(Active(rows)) ==>
      Lookup(Drive(tree, rows, date, network, faults).tree, a) == Lookup(tree, a)
    decreases |rows|
  {
    if rows != [] && rows[0] != [] {
      var later := Active(rows[1..]);
      if IsCommentRow(rows[0]) {
        assert Active(rows) == [] + later;
        UnlistedFoldersUntouched(tree, rows[1..], date, network, faults);
      } else {
        assert Active(rows) == [rows[0]] + later;
        assert rows[0] in Active(rows);
        assert Addresses(later) <= Addresses(Active(rows)) by {
          forall a | a in Addresses(later)
            ensures a in Addresses(Active(rows))
          {
            var r :| r in later && r != [] && r[0] == a;
            assert r in Active(rows);
          }
        }
        var one := BackupRow(tree, rows[0], date, network, faults);
        RowTouchesOnlyItsFolder(tree, rows[0], date, network, faults);
        UnlistedFoldersUntouched(one.tree, rows[1..], date, network, faults);
      }
    }
  }

  /** `SameOutside` composes along successive runs. */
  lemma SameOutsideTrans(a: Folder, b: Folder, c: Folder, names: set<string>)
    requires SameOutside(a, b, names) && SameOutside(b, c, names)
    ensures SameOutside(a, c, names)
  {
  }

  /** The folder `f` holds for `a` in `tree`, the empty folder when there is none yet. */
  function FolderOf(tree: Tree, a: string): Folder {
    if a in tree then tree[a] else map[]
  }

  /**
   * However many rows, every folder keeps every file except `current.rsc`,
   * `previous.rsc` and the two archives dated with this run's timestamp;
   * and no folder disappears.
   */
  lemma {:induction false} RunWritesOnlyDatedArchives(tree: Tree, rows: seq<seq<string>>, date: string,
                                                      network: map<string, Device>, faults: Faults)
    ensures var after := Drive(tree, rows, date, network, faults).tree;
      tree.Keys <= after.Keys && forall a :: a in after ==> SameOutside(FolderOf(tree, a), after[a], Touched(a, date))
    decreases |rows|
  {
    var after := Drive(tree, rows, date, network, faults).tree;
    if rows == [] || rows[0] == [] {
      forall a | a in after
        ensures SameOutside(FolderOf(tree, a), after[a], Touched(a, date))
      {
      }
    } else if IsCommentRow(rows[0]) {
      RunWritesOnlyDatedArchives(tree, rows[1..], date, network, faults);
    } else {
      var one := BackupRow(tree, rows[0], date, network, faults);
      OneRowWritesOnlyDatedArchives(tree, rows[0], date, network, faults);
      if one.outcome.Pass? {
        RunWritesOnlyDatedArchives(one.tree, rows[1..], date, network, faults);
        forall a | a in after
          ensures SameOutside(FolderOf(tree, a), after[a], Touched(a, date))
        {
          if a in one.tree {
            SameOutsideTrans(FolderOf(tree, a), one.tree[a], after[a], Touched(a, date));
          }
        }
      }
    }
  }

  /** `RunWritesOnlyDatedArchives` for one row. */
  lemma OneRowWritesOnlyDatedArchives(tree: Tree, row: seq<string>, date: string,
                                      network: map<string, Device>, faults: Faults)
    ensures var after := BackupRow(tree, row, date, network, faults).tree;
      tree.Keys <= after.Keys && forall a :: a in after ==> SameOutside(FolderOf(tree, a), after[a], Touched(a, date))
  {
    var after := BackupRow(tree, row, date, network, faults).tree;
    RowTouchesOnlyItsFolder(tree, row, date, network, faults);
    if |row| >= 3 {
      var job := JobOf(row, date, network).value;
      RowRuns(tree, row, date, network, faults, job);
      OnlyTouchedNamesChange(Lookup(tree, job.address), job, faults);
      forall a | a in after
        ensures SameOutside(FolderOf(tree, a), after[a], Touched(a, date))
      {
        if a != job.address {
          assert Lookup(after, a) == Lookup(tree, a);
        }
      }
    }
  }
}
