/**
 * What one call of `backup_mikrotik` guarantees, stated on `Backup.Run`:
 * the order of its operations, the rotation of `current.rsc`, the
 * comparison against the previous export, and the archives that a change
 * (and only a change) produces.
 *
 * The facts are first proved of `Fetch` (everything from the download of
 * `current.rsc` on) and then carried to `Run` by `RunSteps`.
 */
module BackupFacts {
  import opened Results
  import opened Lines
  import opened Compare
  import opened Device
  import opened Errors
  import opened Session
  import opened Backup

  /** The device accepted the login and the export command. */
  predicate Exported(job: Job) {
    && ConnectOutcome(job.device, job.address, job.username, job.password) == Pass
    && ExportCommand(CurrentFile) !in job.device.refused
  }

  /** `x` is attempted, and `y` after it. */
  predicate Before(steps: seq<Step>, x: Step, y: Step) {
    exists i, j :: 0 <= i < j < |steps| && steps[i] == x && steps[j] == y
  }

  /** The only names one backup writes in the device's folder. */
  function Touched(address: string, date: string): set<string> {
    {CurrentFile, PreviousFile, ArchiveExport(address, date), ArchiveBinary(address, date)}
  }

  /** Outside `names`, `after` holds the same files as `before`, with the same contents. */
  ghost predicate SameOutside(before: Folder, after: Folder, names: set<string>) {
    forall n :: n !in names ==> (n in before <==> n in after) && (n in before ==> before[n] == after[n])
  }

  /** The copy of the export to its dated archive. */
  function CopyStep(job: Job): Step {
    Copy(CurrentFile, ArchiveExport(job.address, job.date))
  }

  /** The download of the binary backup to its dated archive. */
  function BinaryStep(job: Job): Step {
    Download(BackupFile(BackupName), ArchiveBinary(job.address, job.date))
  }

  /** The operations that can follow the download of `current.rsc`. */
  predicate LateStep(s: Step, job: Job) {
    s.Compared? || s == CopyStep(job) || s == Exec(BackupCommand(BackupName)) || s == BinaryStep(job)
  }

  /** The operations of a run that got past the export, up to and including the download of `current.rsc`. */
  function Early(folder: Option<Folder>, job: Job, faults: Faults): seq<Step> {
    [Connect, Exec(ExportCommand(CurrentFile))] + Preparation(folder, job, faults) + [Download(CurrentFile, CurrentFile)]
  }

  // ---------------------------------------------------------------------
  // From the download of `current.rsc` on

  /**
   * The steps that can follow the download of `current.rsc`: none when it
   * fails, the comparison alone when nothing changed, and otherwise the
   * comparison followed by the archiving operations in order, up to the
   * first failure: `[]`, `[Compared(true)]`, or a non-empty prefix of
   * `[Compared(false), CopyStep(job), Exec(BackupCommand(BackupName)), BinaryStep(job)]`
   * that holds at least the copy.
   */
  predicate AfterDownload(rest: seq<Step>, job: Job) {
    && |rest| <= 4
    && (|rest| == 1 ==> rest[0] == Compared(true))
    && (|rest| >= 2 ==> rest[0] == Compared(false) && rest[1] == CopyStep(job))
    && (|rest| >= 3 ==> rest[2] == Exec(BackupCommand(BackupName)))
    && (|rest| == 4 ==> rest[3] == BinaryStep(job))
  }

  /** Archiving attempts the copy, the binary backup and its download in that order, up to the first failure. */
  lemma ArchiveStepsInOrder(fetched: Folder, job: Job, faults: Faults)
    requires CurrentFile in fetched
    ensures var steps := Archive(fetched, job, faults).steps;
      || steps == [CopyStep(job)]
      || steps == [CopyStep(job), Exec(BackupCommand(BackupName))]
      || steps == [CopyStep(job), Exec(BackupCommand(BackupName)), BinaryStep(job)]
  {
    if job.address !in faults.copy {
      var copied := fetched[ArchiveExport(job.address, job.date) := fetched[CurrentFile]];
      var rest := SaveBinary(copied, job);
      assert rest.steps == [Exec(BackupCommand(BackupName))]
        || rest.steps == [Exec(BackupCommand(BackupName)), BinaryStep(job)];
    }
  }

  /** What `Fetch` attempts has the shape `AfterDownload` describes. */
  lemma FetchStepsShape(rotated: Option<Folder>, job: Job, faults: Faults)
    ensures AfterDownload(Fetch(rotated, job, faults).steps, job)
  {
    if rotated.Some? && CurrentFile !in job.device.unreadable {
      var fetched := rotated.value[CurrentFile := job.device.config];
      assert Fetch(rotated, job, faults) == Judge(fetched, job, faults);
      JudgeStepsShape(fetched, job, faults);
    }
  }

  /** What the comparison and the archiving attempt has the shape `AfterDownload` describes. */
  lemma JudgeStepsShape(fetched: Folder, job: Job, faults: Faults)
    requires CurrentFile in fetched
    ensures AfterDownload(Judge(fetched, job, faults).steps, job)
  {
    if !Identical(fetched[CurrentFile], PreviousOf(fetched)) {
      ArchiveStepsInOrder(fetched, job, faults);
    }
  }

  /** In such steps every step is late, and a comparison can only come first. */
  lemma AfterDownloadLate(rest: seq<Step>, job: Job)
    requires AfterDownload(rest, job)
    ensures forall s :: s in rest ==> LateStep(s, job)
    ensures forall b :: Compared(b) in rest ==> rest[0] == Compared(b)
  {
    forall i | 0 <= i < |rest|
      ensures LateStep(rest[i], job) && (rest[i].Compared? ==> i == 0)
    {
      LateAt(rest, job, i);
    }
  }

  /** The step at index `i` of such steps is late, and only index 0 can be a comparison. */
  lemma LateAt(rest: seq<Step>, job: Job, i: nat)
    requires AfterDownload(rest, job) && i < |rest|
    ensures LateStep(rest[i], job) && (rest[i].Compared? ==> i == 0)
  {
    if i == 1 {
      assert rest[1] == CopyStep(job);
    } else if i == 2 {
      assert rest[2] == Exec(BackupCommand(BackupName));
    } else if i == 3 {
      assert rest[3] == BinaryStep(job);
    }
  }

  /**
   * In such steps the binary backup comes third, after a comparison that
   * reported a change, and its download fourth.
   */
  lemma AfterDownloadOrder(rest: seq<Step>, job: Job)
    requires AfterDownload(rest, job)
    ensures Exec(BackupCommand(BackupName)) in rest ==>
      && |rest| >= 3 && rest[0] == Compared(false) && rest[2] == Exec(BackupCommand(BackupName))
      && Compared(true) !in rest
    ensures BinaryStep(job) in rest ==>
      |rest| == 4 && rest[2] == Exec(BackupCommand(BackupName)) && rest[3] == BinaryStep(job)
  {
    var backup := Exec(BackupCommand(BackupName));
    if |rest| < 3 {
      assert backup !in rest && BinaryStep(job) !in rest;
    } else if |rest| == 3 {
      assert rest == [Compared(false), CopyStep(job), backup];
      assert BinaryStep(job) !in rest;
    } else {
      assert rest == [Compared(false), CopyStep(job), backup, BinaryStep(job)];
    }
  }

  /**
   * Once the export is downloaded into an existing folder, the first step is
   * the comparison of the fresh export with the folder's `previous.rsc`.
   */
  lemma FetchComparesFirst(rotated: Option<Folder>, job: Job, faults: Faults)
    requires rotated.Some? && CurrentFile !in job.device.unreadable
    ensures var steps := Fetch(rotated, job, faults).steps;
      |steps| > 0 && steps[0] == Compared(Identical(job.device.config, PreviousOf(rotated.value)))
  {
    var fetched := rotated.value[CurrentFile := job.device.config];
    assert PreviousOf(fetched) == PreviousOf(rotated.value);
  }

  /** A comparison is attempted only after a download into an existing folder. */
  lemma FetchCompared(rotated: Option<Folder>, job: Job, faults: Faults, identical: bool)
    requires Compared(identical) in Fetch(rotated, job, faults).steps
    ensures rotated.Some? && CurrentFile !in job.device.unreadable
    ensures identical == Identical(job.device.config, PreviousOf(rotated.value))
  {
    var steps := Fetch(rotated, job, faults).steps;
    FetchStepsShape(rotated, job, faults);
    AfterDownloadLate(steps, job);
    assert steps != [];
    FetchComparesFirst(rotated, job, faults);
  }

  /** When the comparison finds no change, nothing follows it and the run completes. */
  lemma FetchUnchanged(rotated: Option<Folder>, job: Job, faults: Faults)
    requires rotated.Some? && CurrentFile !in job.device.unreadable
    requires Identical(job.device.config, PreviousOf(rotated.value))
    ensures Fetch(rotated, job, faults) == Report(Pass, Some(rotated.value[CurrentFile := job.device.config]), [Compared(true)])
  {
    var fetched := rotated.value[CurrentFile := job.device.config];
    assert PreviousOf(fetched) == PreviousOf(rotated.value);
  }

  /** A change that completes stores the export under `current.rsc` and its archive, and the binary backup. */
  lemma FetchChangedPass(rotated: Option<Folder>, job: Job, faults: Faults)
    requires Fetch(rotated, job, faults).outcome == Pass && Compared(false) in Fetch(rotated, job, faults).steps
    ensures rotated.Some?
    ensures Fetch(rotated, job, faults).folder
      == Some(rotated.value[CurrentFile := job.device.config]
                [ArchiveExport(job.address, job.date) := job.device.config][ArchiveBinary(job.address, job.date) := job.device.binary])
  {
    FetchCompared(rotated, job, faults, false);
  }

  /** A run that completes leaves the downloaded export as `current.rsc`. */
  lemma FetchPassStoresExport(rotated: Option<Folder>, job: Job, faults: Faults)
    requires Fetch(rotated, job, faults).outcome == Pass
    ensures rotated.Some? && CurrentFile !in job.device.unreadable
    ensures var g := Fetch(rotated, job, faults).folder.value;
      CurrentFile in g && g[CurrentFile] == job.device.config
  {
    ArchiveNamesDistinct(job.address, job.date);
  }

  /** From the download on, only `current.rsc` and the two dated archives are written. */
  lemma FetchWritesOnly(rotated: Option<Folder>, job: Job, faults: Faults)
    requires rotated.Some?
    ensures SameOutside(rotated.value, Fetch(rotated, job, faults).folder.value,
                        {CurrentFile, ArchiveExport(job.address, job.date), ArchiveBinary(job.address, job.date)})
  {
    var names := {CurrentFile, ArchiveExport(job.address, job.date), ArchiveBinary(job.address, job.date)};
    var before := rotated.value;
    if CurrentFile !in job.device.unreadable {
      var fetched := before[CurrentFile := job.device.config];
      assert SameOutside(before, fetched, names);
      var copied := fetched[ArchiveExport(job.address, job.date) := fetched[CurrentFile]];
      assert SameOutside(before, copied, names);
      assert SameOutside(before, copied[ArchiveBinary(job.address, job.date) := job.device.binary], names);
    }
  }

  // ---------------------------------------------------------------------
  // Up to the download of `current.rsc`

  /** A late step is none of the steps that come before the download of `current.rsc`. */
  lemma EarlyStepsAreNotLate(job: Job)
    ensures !LateStep(Connect, job) && !LateStep(Exec(ExportCommand(CurrentFile)), job)
    ensures !LateStep(MakeDir, job) && !LateStep(Rotate, job)
    ensures !LateStep(Download(CurrentFile, CurrentFile), job)
  {
    CommandsDistinct(CurrentFile, BackupName);
    RemoteNames();
    assert BackupFile(BackupName) != CurrentFile by {
      assert BackupFile(BackupName)[|BackupFile(BackupName)| - 1] == 'p';
    }
  }

  /**
   * Up to the download: connect, export, the preparation, the download; none
   * of them late, none a copy, and a rotation among them exactly when the
   * folder held a `current.rsc` once it existed.
   */
  lemma EarlyShape(folder: Option<Folder>, job: Job, faults: Faults)
    ensures var pre := Early(folder, job, faults);
      && |pre| == 3 + |Preparation(folder, job, faults)|
      && pre[1] == Exec(ExportCommand(CurrentFile)) && pre[|pre| - 1] == Download(CurrentFile, CurrentFile)
    ensures forall s :: s in Early(folder, job, faults) ==> !LateStep(s, job) && !s.Copy?
    ensures var made := AfterMkdir(folder, job, faults);
      Rotate in Early(folder, job, faults) <==> made.Some? && CurrentFile in made.value
    ensures Rotate in Early(folder, job, faults) ==> Early(folder, job, faults)[2] == Rotate
  {
    EarlyStepsAreNotLate(job);
  }

  /** After a successful export a run is `Early`, followed by what `Fetch` does. */
  lemma RunSteps(folder: Option<Folder>, job: Job, faults: Faults)
    requires Exported(job)
    ensures var rest := Fetch(Prepared(folder, job, faults), job, faults);
      && Run(folder, job, faults).outcome == rest.outcome
      && Run(folder, job, faults).folder == rest.folder
      && Run(folder, job, faults).steps == Early(folder, job, faults) + rest.steps
  {
    var rest := Fetch(Prepared(folder, job, faults), job, faults);
    var collect := Collect(folder, job, faults);
    var exporting := Exporting(folder, job, faults);
    assert collect.steps == Preparation(folder, job, faults) + ([Download(CurrentFile, CurrentFile)] + rest.steps);
    assert exporting.steps == [Exec(ExportCommand(CurrentFile))] + collect.steps;
    assert Run(folder, job, faults).steps == [Connect] + exporting.steps;
    Regroup(Connect, Exec(ExportCommand(CurrentFile)), Preparation(folder, job, faults),
            Download(CurrentFile, CurrentFile), rest.steps);
  }

  /** The nesting in which `Run` builds its steps, flattened. */
  lemma Regroup<T>(a: T, b: T, p: seq<T>, d: T, r: seq<T>)
    ensures [a] + ([b] + (p + ([d] + r))) == [a, b] + p + [d] + r
  {
    AppendTwice(p, [d], r);
    AppendTwice([b], p + [d], r);
    AppendTwice([a], [b], p + [d] + r);
    AppendTwice([a] + [b], p + [d], r);
    AppendTwice([a] + [b], p, [d]);
    assert [a] + [b] == [a, b];
  }

  /** Where `x` and `y` occur in that order in `rest`, they do so in `pre + rest`. */
  lemma BeforeInSuffix(pre: seq<Step>, rest: seq<Step>, x: Step, y: Step, i: nat, j: nat)
    requires i < j < |rest| && rest[i] == x && rest[j] == y
    ensures Before(pre + rest, x, y)
  {
    assert (pre + rest)[|pre| + i] == x && (pre + rest)[|pre| + j] == y;
  }

  // ---------------------------------------------------------------------
  // One whole run

  /**
   * The export is downloaded exactly when the device accepted the login and
   * the export command: a failed `mkdir` or rename never prevents it.
   */
  lemma DownloadIffExported(folder: Option<Folder>, job: Job, faults: Faults)
    ensures Download(CurrentFile, CurrentFile) in Run(folder, job, faults).steps <==> Exported(job)
  {
    if Exported(job) {
      RunSteps(folder, job, faults);
      EarlyShape(folder, job, faults);
      var pre := Early(folder, job, faults);
      assert Run(folder, job, faults).steps[|pre| - 1] == Download(CurrentFile, CurrentFile);
    }
  }

  /** The export command comes before the download of `current.rsc`. */
  lemma ExportPrecedesDownload(folder: Option<Folder>, job: Job, faults: Faults)
    ensures Download(CurrentFile, CurrentFile) in Run(folder, job, faults).steps ==>
      Before(Run(folder, job, faults).steps, Exec(ExportCommand(CurrentFile)), Download(CurrentFile, CurrentFile))
  {
    DownloadIffExported(folder, job, faults);
    if Exported(job) {
      RunSteps(folder, job, faults);
      EarlyShape(folder, job, faults);
      var steps := Run(folder, job, faults).steps;
      var j := |Early(folder, job, faults)| - 1;
      assert steps[1] == Exec(ExportCommand(CurrentFile)) && steps[j] == Download(CurrentFile, CurrentFile);
    }
  }

  /**
   * The rotation of `current.rsc` is attempted exactly when the session got
   * as far as the export and the folder already held a `current.rsc`, and it
   * comes before the download that replaces it.
   */
  lemma RotationPrecedesDownload(folder: Option<Folder>, job: Job, faults: Faults)
    ensures Rotate in Run(folder, job, faults).steps <==> Exported(job) && folder.Some? && CurrentFile in folder.value
    ensures Rotate in Run(folder, job, faults).steps ==>
      Before(Run(folder, job, faults).steps, Rotate, Download(CurrentFile, CurrentFile))
  {
    if Exported(job) {
      RunSteps(folder, job, faults);
      EarlyShape(folder, job, faults);
      var pre := Early(folder, job, faults);
      var rest := Fetch(Prepared(folder, job, faults), job, faults).steps;
      FetchStepsShape(Prepared(folder, job, faults), job, faults);
      AfterDownloadLate(rest, job);
      assert Rotate !in rest;
      var steps := Run(folder, job, faults).steps;
      assert steps[|pre| - 1] == Download(CurrentFile, CurrentFile);
      if Rotate in pre {
        assert steps[2] == Rotate;
      }
    }
  }

  /**
   * A comparison is made only once the fresh export has been downloaded into
   * the prepared folder, and its result is that of `compare_files` on the
   * fresh export and the `previous.rsc` the preparation left.
   */
  lemma ComparisonUsesFreshDownload(folder: Option<Folder>, job: Job, faults: Faults, identical: bool)
    requires Compared(identical) in Run(folder, job, faults).steps
    ensures Exported(job) && Prepared(folder, job, faults).Some? && CurrentFile !in job.device.unreadable
    ensures identical == Identical(job.device.config, PreviousOf(Prepared(folder, job, faults).value))
  {
    assert Exported(job);
    RunSteps(folder, job, faults);
    EarlyShape(folder, job, faults);
    assert Compared(identical) in Fetch(Prepared(folder, job, faults), job, faults).steps;
    FetchCompared(Prepared(folder, job, faults), job, faults, identical);
  }

  /**
   * With `current.rsc` present and the rename allowed, the comparison is
   * between the new export and the one the previous run stored, and
   * `previous.rsc` now holds that stored export, whatever it held before.
   */
  lemma ComparesWithLastExport(f: Folder, job: Job, faults: Faults)
    requires Exported(job) && CurrentFile in f && job.address !in faults.rename
    requires CurrentFile !in job.device.unreadable
    ensures Compared(Identical(job.device.config, Some(f[CurrentFile]))) in Run(Some(f), job, faults).steps
    ensures Run(Some(f), job, faults).folder.Some?
    ensures var g := Run(Some(f), job, faults).folder.value;
      PreviousFile in g && g[PreviousFile] == f[CurrentFile]
  {
    RunSteps(Some(f), job, faults);
    ArchiveNamesDistinct(job.address, job.date);
    var rotated := Some(Rotated(f));
    assert Prepared(Some(f), job, faults) == rotated;
    FetchComparesFirst(rotated, job, faults);
    FetchWritesOnly(rotated, job, faults);
    var steps := Run(Some(f), job, faults).steps;
    assert steps[|Early(Some(f), job, faults)|] == Fetch(rotated, job, faults).steps[0];
  }

  /** Without a `current.rsc` there is no rotation, and `previous.rsc` is left as it was. */
  lemma NoCurrentKeepsPrevious(f: Folder, job: Job, faults: Faults)
    requires CurrentFile !in f && PreviousFile in f
    ensures Run(Some(f), job, faults).folder.Some?
    ensures var g := Run(Some(f), job, faults).folder.value;
      PreviousFile in g && g[PreviousFile] == f[PreviousFile]
  {
    ArchiveNamesDistinct(job.address, job.date);
    if Exported(job) {
      RunSteps(Some(f), job, faults);
      assert Prepared(Some(f), job, faults) == Some(f);
      FetchWritesOnly(Some(f), job, faults);
    }
  }

  /**
   * The binary backup is requested only after a comparison that reported a
   * change, and `current.backup` is downloaded only after that request.
   */
  lemma BinaryBackupOrder(folder: Option<Folder>, job: Job, faults: Faults)
    ensures var steps := Run(folder, job, faults).steps;
      Exec(BackupCommand(BackupName)) in steps ==>
        Before(steps, Compared(false), Exec(BackupCommand(BackupName))) && Compared(true) !in steps
    ensures var steps := Run(folder, job, faults).steps;
      BinaryStep(job) in steps ==> Before(steps, Exec(BackupCommand(BackupName)), BinaryStep(job))
  {
    var backup := Exec(BackupCommand(BackupName));
    EarlyStepsAreNotLate(job);
    if !Exported(job) {
      CommandsDistinct(CurrentFile, BackupName);
      return;
    }
    RunSteps(folder, job, faults);
    EarlyShape(folder, job, faults);
    var pre := Early(folder, job, faults);
    var rest := Fetch(Prepared(folder, job, faults), job, faults).steps;
    FetchStepsShape(Prepared(folder, job, faults), job, faults);
    AfterDownloadOrder(rest, job);
    if backup in pre + rest {
      assert backup in rest;
      BeforeInSuffix(pre, rest, Compared(false), backup, 0, 2);
    }
    if BinaryStep(job) in pre + rest {
      assert BinaryStep(job) in rest;
      BeforeInSuffix(pre, rest, backup, BinaryStep(job), 2, 3);
    }
  }

  /** A comparison that finds no change leaves the fresh export in place and creates no archive. */
  lemma UnchangedCreatesNoArchive(folder: Option<Folder>, job: Job, faults: Faults)
    requires Compared(true) in Run(folder, job, faults).steps
    ensures Run(folder, job, faults).outcome == Pass
    ensures Prepared(folder, job, faults).Some?
    ensures Run(folder, job, faults).folder == Some(Prepared(folder, job, faults).value[CurrentFile := job.device.config])
    ensures forall s :: s in Run(folder, job, faults).steps ==> !s.Copy? && s != Exec(BackupCommand(BackupName))
  {
    ComparisonUsesFreshDownload(folder, job, faults, true);
    RunSteps(folder, job, faults);
    EarlyShape(folder, job, faults);
    FetchUnchanged(Prepared(folder, job, faults), job, faults);
  }

  /**
   * A run that reports a change and completes stores `{address}-{date}.rsc`
   * equal to the new `current.rsc` and `{address}-{date}.backup` equal to the
   * device's binary backup; apart from those and the rotation, the folder
   * is as the preparation left it.
   */
  lemma ChangeIsArchived(folder: Option<Folder>, job: Job, faults: Faults)
    requires Compared(false) in Run(folder, job, faults).steps && Run(folder, job, faults).outcome == Pass
    ensures Prepared(folder, job, faults).Some?
    ensures var archive := ArchiveExport(job.address, job.date);
      var binary := ArchiveBinary(job.address, job.date);
      Run(folder, job, faults).folder
      == Some(Prepared(folder, job, faults).value[CurrentFile := job.device.config]
                [archive := job.device.config][binary := job.device.binary])
    ensures var g := Run(folder, job, faults).folder.value;
      && ArchiveExport(job.address, job.date) in g && CurrentFile in g
      && g[ArchiveExport(job.address, job.date)] == g[CurrentFile] == job.device.config
      && ArchiveBinary(job.address, job.date) in g && g[ArchiveBinary(job.address, job.date)] == job.device.binary
  {
    ComparisonUsesFreshDownload(folder, job, faults, false);
    RunSteps(folder, job, faults);
    EarlyShape(folder, job, faults);
    FetchChangedPass(Prepared(folder, job, faults), job, faults);
    ArchiveNamesDistinct(job.address, job.date);
  }

  /**
   * One run writes nothing but `current.rsc`, `previous.rsc` and the two
   * dated archives; every other file of the folder is kept as it was. A
   * folder that is still missing afterwards was missing before.
   */
  lemma OnlyTouchedNamesChange(folder: Option<Folder>, job: Job, faults: Faults)
    ensures Run(folder, job, faults).folder.None? ==> folder.None?
    ensures Run(folder, job, faults).folder.Some? ==>
      SameOutside(if folder.Some? then folder.value else map[], Run(folder, job, faults).folder.value,
                  Touched(job.address, job.date))
  {
    var names := Touched(job.address, job.date);
    var before: Folder := if folder.Some? then folder.value else map[];
    if Exported(job) {
      RunSteps(folder, job, faults);
      var rotated := Prepared(folder, job, faults);
      if rotated.Some? {
        assert SameOutside(before, rotated.value, names);
        FetchWritesOnly(rotated, job, faults);
      }
    }
  }

  /**
   * The first run for a device, with no folder yet: the folder is created,
   * the missing `previous.rsc` makes the comparison report a change, and the
   * dated copy of the export is made.
   */
  lemma FirstRunArchives(job: Job, faults: Faults)
    requires Exported(job) && job.address !in faults.mkdir && CurrentFile !in job.device.unreadable
    ensures Compared(false) in Run(None, job, faults).steps
    ensures Run(None, job, faults).folder.Some?
    ensures PreviousFile !in Run(None, job, faults).folder.value
    ensures job.address !in faults.copy ==>
      var g := Run(None, job, faults).folder.value;
      ArchiveExport(job.address, job.date) in g && g[ArchiveExport(job.address, job.date)] == job.device.config
  {
    RunSteps(None, job, faults);
    ArchiveNamesDistinct(job.address, job.date);
    var rotated: Option<Folder> := Some(map[]);
    assert Prepared(None, job, faults) == rotated;
    FetchComparesFirst(rotated, job, faults);
    var steps := Run(None, job, faults).steps;
    assert steps[|Early(None, job, faults)|] == Compared(false);
  }

  /** A completed run leaves the downloaded export as `current.rsc`. */
  lemma PassStoresExport(folder: Option<Folder>, job: Job, faults: Faults)
    requires Run(folder, job, faults).outcome == Pass
    ensures Exported(job) && CurrentFile !in job.device.unreadable
    ensures Run(folder, job, faults).folder.Some?
    ensures var g := Run(folder, job, faults).folder.value;
      CurrentFile in g && g[CurrentFile] == job.device.config
  {
    assert Exported(job);
    RunSteps(folder, job, faults);
    FetchPassStoresExport(Prepared(folder, job, faults), job, faults);
  }

  /**
   * Running again against an unchanged export: the stored export is rotated
   * to `previous.rsc`, the comparison finds no change, and no archive is made.
   */
  lemma SecondRunCreatesNoArchive(folder: Option<Folder>, first: Job, second: Job, faults: Faults)
    requires Run(folder, first, faults).outcome == Pass
    requires Exported(second) && second.device == first.device && second.address == first.address
    requires first.address !in faults.rename
    ensures var g := Run(folder, first, faults).folder;
      && Run(g, second, faults).outcome == Pass
      && Compared(true) in Run(g, second, faults).steps
      && Run(g, second, faults).folder == Some(g.value[PreviousFile := first.device.config])
  {
    PassStoresExport(folder, first, faults);
    SecondRunFromStored(Run(folder, first, faults).folder.value, second, faults);
  }

  /** The second run of `SecondRunCreatesNoArchive`, on the folder the first one left. */
  lemma SecondRunFromStored(g: Folder, job: Job, faults: Faults)
    requires Exported(job) && job.address !in faults.rename
    requires CurrentFile in g && g[CurrentFile] == job.device.config && CurrentFile !in job.device.unreadable
    ensures Run(Some(g), job, faults).outcome == Pass
    ensures Compared(true) in Run(Some(g), job, faults).steps
    ensures Run(Some(g), job, faults).folder == Some(g[PreviousFile := job.device.config])
  {
    var config := job.device.config;
    RunSteps(Some(g), job, faults);
    var rotated := Rotated(g);
    assert Prepared(Some(g), job, faults) == Some(rotated);
    assert PreviousOf(rotated) == Some(config);
    IdenticalCopy(config);
    FetchUnchanged(Some(rotated), job, faults);
    assert rotated[CurrentFile := config] == g[PreviousFile := config];
    var steps := Run(Some(g), job, faults).steps;
    assert steps[|Early(Some(g), job, faults)|] == Compared(true);
  }

  /**
   * A row touches only the folder of its own address; a row without the
   * three fields fails before anything is attempted.
   */
  lemma RowTouchesOnlyItsFolder(tree: Tree, row: seq<string>, date: string, network: map<string, Device>, faults: Faults)
    ensures |row| < 3 ==> BackupRow(tree, row, date, network, faults) == RowReport(Fail(MissingField), tree, [])
    ensures forall a :: (|row| == 0 || a != row[0]) ==>
      Lookup(BackupRow(tree, row, date, network, faults).tree, a) == Lookup(tree, a)
  {
  }
}
