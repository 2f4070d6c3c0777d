/**
 * `backup_mikrotik` of main.py: one device's backup, from connecting to
 * storing the archives. `Run` states what one call does to the device's
 * backup folder; `Store.BackupMikrotik` performs it step by step.
 */
module Backup {
  import opened Results
  import opened Lines
  import opened Compare
  import opened Device
  import opened Errors
  import opened Session

  /** A device's backup folder: file name to content. */
  type Folder = map<string, seq<Line>>

  /** The backup root: device address to its folder, for the folders that exist. */
  type Tree = map<string, Folder>

  const CurrentFile := "current.rsc"
  const PreviousFile := "previous.rsc"
  const BackupName := "current"

  /** The text of the error raised when a file is downloaded into a folder that is missing. */
  const NoFolder := "[Errno 2] No such file or directory"

  function ArchiveExport(address: string, date: string): string {
    address + "-" + date + ".rsc"
  }

  function ArchiveBinary(address: string, date: string): string {
    address + "-" + date + ".backup"
  }

  /** Which local operations fail, by device address. */
  datatype Faults = Faults(mkdir: set<string>, rename: set<string>, copy: set<string>)

  /** One call of `backup_mikrotik`: the device, its credentials and the run's timestamp. */
  datatype Job = Job(address: string, username: string, password: string, device: Device, date: string)

  /** The operations one backup attempts, in the order it attempts them. */
  datatype Step =
    | Connect
    | Exec(command: string)
    | MakeDir
    | Rotate
    | Download(source: string, target: string)
    | Compared(identical: bool)
    | Copy(source: string, target: string)

  datatype Report = Report(outcome: Outcome<Error>, folder: Option<Folder>, steps: seq<Step>)

  /** `os.replace(current_file, previous_file)` */
  function Rotated(f: Folder): Folder
    requires CurrentFile in f
  {
    (f - {CurrentFile})[PreviousFile := f[CurrentFile]]
  }

  /** The folder after the tolerated `os.mkdir`. */
  function AfterMkdir(folder: Option<Folder>, job: Job, faults: Faults): Option<Folder> {
    if folder.Some? then folder
    else if job.address in faults.mkdir then None
    else Some(map[])
  }

  /** The folder after the tolerated rotation of `current.rsc` to `previous.rsc`. */
  function AfterRotate(folder: Option<Folder>, job: Job, faults: Faults): Option<Folder> {
    if folder.Some? && CurrentFile in folder.value && job.address !in faults.rename then
      Some(Rotated(folder.value))
    else folder
  }

  /** The previous export as `compare_files` finds it, `None` when `previous.rsc` is missing. */
  function PreviousOf(f: Folder): Option<seq<Line>> {
    if PreviousFile in f then Some(f[PreviousFile]) else None
  }

  /** What one call of `backup_mikrotik` does to the device's folder. */
  function Run(folder: Option<Folder>, job: Job, faults: Faults): Report {
    var login := ConnectOutcome(job.device, job.address, job.username, job.password);
    if login.Fail? then Report(login, folder, [Connect])
    else
      var rest := Exporting(folder, job, faults);
      Report(rest.outcome, rest.folder, [Connect] + rest.steps)
  }

  /** Once connected: the export command, then `Collect` when the device accepted it. */
  function Exporting(folder: Option<Folder>, job: Job, faults: Faults): Report {
    if ExportCommand(CurrentFile) in job.device.refused then
      Report(Fail(ExportFailed(job.device.fault)), folder, [Exec(ExportCommand(CurrentFile))])
    else
      var rest := Collect(folder, job, faults);
      Report(rest.outcome, rest.folder, [Exec(ExportCommand(CurrentFile))] + rest.steps)
  }

  /**
   * Once the device has written `current.rsc`: the folder is prepared, the export
   * downloaded into it, and compared.
   */
  function Collect(folder: Option<Folder>, job: Job, faults: Faults): Report {
    var rest := Fetch(Prepared(folder, job, faults), job, faults);
    Report(rest.outcome, rest.folder, Preparation(folder, job, faults) + ([Download(CurrentFile, CurrentFile)] + rest.steps))
  }

  /** The folder as the download of `current.rsc` finds it. */
  function Prepared(folder: Option<Folder>, job: Job, faults: Faults): Option<Folder> {
    AfterRotate(AfterMkdir(folder, job, faults), job, faults)
  }

  /** The folder creation and rotation that are attempted. */
  function Preparation(folder: Option<Folder>, job: Job, faults: Faults): seq<Step> {
    var made := AfterMkdir(folder, job, faults);
    (if folder.None? then [MakeDir] else [])
    + (if made.Some? && CurrentFile in made.value then [Rotate] else [])
  }

  /**
   * From the download of `current.rsc` on, once the folder has been prepared;
   * the steps are those after that download.
   */
  function Fetch(rotated: Option<Folder>, job: Job, faults: Faults): (r: Report)
    ensures r.folder.Some? <==> rotated.Some?
  {
    var dev := job.device;
    if rotated.None? then Report(Fail(DownloadFailed(NoFolder)), rotated, [])
    else if CurrentFile in dev.unreadable then Report(Fail(DownloadFailed(dev.fault)), rotated, [])
    else Judge(rotated.value[CurrentFile := dev.config], job, faults)
  }

  /** The comparison of the fresh export with `previous.rsc`, and the archiving a change leads to. */
  function Judge(fetched: Folder, job: Job, faults: Faults): (r: Report)
    requires CurrentFile in fetched
    ensures r.folder.Some?
  {
    if Identical(fetched[CurrentFile], PreviousOf(fetched)) then Report(Pass, Some(fetched), [Compared(true)])
    else
      var rest := Archive(fetched, job, faults);
      Report(rest.outcome, rest.folder, [Compared(false)] + rest.steps)
  }

  /** The archiving branch, taken when the comparison reports a change. */
  function Archive(fetched: Folder, job: Job, faults: Faults): (r: Report)
    requires CurrentFile in fetched
    ensures r.folder.Some?
  {
    var copying := [Copy(CurrentFile, ArchiveExport(job.address, job.date))];
    if job.address in faults.copy then Report(Fail(CopyFailed), Some(fetched), copying)
    else
      var rest := SaveBinary(fetched[ArchiveExport(job.address, job.date) := fetched[CurrentFile]], job);
      Report(rest.outcome, rest.folder, copying + rest.steps)
  }

  /** The binary backup on the device, downloaded next to the archived export. */
  function SaveBinary(copied: Folder, job: Job): (r: Report)
    ensures r.folder.Some?
  {
    var dev := job.device;
    var saving := [Exec(BackupCommand(BackupName))];
    if BackupCommand(BackupName) in dev.refused then
      Report(Fail(BackupFailed(dev.fault)), Some(copied), saving)
    else
      var binary := ArchiveBinary(job.address, job.date);
      var fetching := saving + [Download(BackupFile(BackupName), binary)];
      if BackupFile(BackupName) in dev.unreadable then
        Report(Fail(DownloadFailed(dev.fault)), Some(copied), fetching)
      else
        Report(Pass, Some(copied[binary := dev.binary]), fetching)
  }

  /** The job a config row describes, when it has the three fields `backup_mikrotik` reads. */
  function JobOf(row: seq<string>, date: string, network: map<string, Device>): Option<Job> {
    if |row| < 3 then None
    else Some(Job(row[0], row[1], NormalizePassword(Some(row[2])), DeviceAt(network, row[0]), date))
  }

  function DeviceAt(network: map<string, Device>, address: string): Device {
    if address in network then network[address] else Offline
  }

  function Lookup(tree: Tree, address: string): Option<Folder> {
    if address in tree then Some(tree[address]) else None
  }

  function Put(tree: Tree, address: string, folder: Option<Folder>): Tree {
    if folder.Some? then tree[address := folder.value] else tree
  }

  datatype RowReport = RowReport(outcome: Outcome<Error>, tree: Tree, steps: seq<Step>)

  /** `backup_mikrotik(curr_date, base_path, line)` on the whole backup root. */
  function BackupRow(tree: Tree, row: seq<string>, date: string, network: map<string, Device>, faults: Faults): RowReport {
    match JobOf(row, date, network)
    case None => RowReport(Fail(MissingField), tree, [])
    case Some(job) =>
      var rep := Run(Lookup(tree, job.address), job, faults);
      RowReport(rep.outcome, Put(tree, job.address, rep.folder), rep.steps)
  }

  lemma AppendTwice<T>(a: seq<T>, b: seq<T>, c: seq<T>)
    ensures (a + b) + c == a + (b + c)
  {
  }

  /** A row with its three fields is one `Run` on the folder of the row's address. */
  lemma RowRuns(tree: Tree, row: seq<string>, date: string, network: map<string, Device>, faults: Faults, job: Job)
    requires JobOf(row, date, network) == Some(job)
    ensures var rep := Run(Lookup(tree, job.address), job, faults);
      BackupRow(tree, row, date, network, faults) == RowReport(rep.outcome, Put(tree, job.address, rep.folder), rep.steps)
  {
  }

  /** The names the device gives the files the two commands write. */
  lemma RemoteNames()
    ensures ExportFile(CurrentFile) == CurrentFile
    ensures BackupFile(BackupName) == "current.backup"
  {
    assert CurrentFile[|CurrentFile| - 4..] == ".rsc";
    assert BackupName[0] != ".backup"[0];
  }

  /** An archive never takes the name of a working file, nor of the other archive. */
  lemma ArchiveNamesDistinct(address: string, date: string)
    ensures ArchiveExport(address, date) != CurrentFile && ArchiveExport(address, date) != PreviousFile
    ensures ArchiveBinary(address, date) != CurrentFile && ArchiveBinary(address, date) != PreviousFile
    ensures ArchiveExport(address, date) != ArchiveBinary(address, date)
  {
    var e, b := ArchiveExport(address, date), ArchiveBinary(address, date);
    assert e[|address|] == '-' && b[|address|] == '-';
    assert forall k :: 0 <= k < |CurrentFile| ==> CurrentFile[k] != '-';
    assert forall k :: 0 <= k < |PreviousFile| ==> PreviousFile[k] != '-';
    assert e[|e| - 1] == 'c' && b[|b| - 1] == 'p';
  }

  class Store {
    const faults: Faults
    const network: map<string, Device>
    var tree: Tree
    ghost var steps: seq<Step>    // every operation attempted so far, in order

    constructor (faults: Faults, network: map<string, Device>, tree: Tree)
      ensures this.faults == faults && this.network == network && this.tree == tree && steps == []
    {
      this.faults := faults;
      this.network := network;
      this.tree := tree;
      steps := [];
    }

    /** `backup_mikrotik`, performed one operation at a time. */
    method BackupMikrotik(date: string, row: seq<string>) returns (r: Outcome<Error>)
      modifies this`tree, this`steps
      ensures var rep := BackupRow(old(tree), row, date, network, faults);
        r == rep.outcome && tree == rep.tree && steps == old(steps) + rep.steps
    {
      if |row| < 3 {
        return Fail(MissingField);
      }
      var address := row[0];
      ghost var job := JobOf(row, date, network).value;
      RowRuns(tree, row, date, network, faults, job);
      var mk := new Mikrotik(address, row[1], Some(row[2]), DeviceAt(network, address));
      r := BackupJob(mk, date, job);
    }

    /** One device's backup, with a session that is not connected yet. */
    method BackupJob(mk: Mikrotik, date: string, ghost job: Job) returns (r: Outcome<Error>)
      requires !mk.connected && mk.device == job.device && mk.address == job.address && job.date == date
      requires mk.username == job.username && mk.password == job.password && mk.remote == job.device.files
      modifies this`tree, this`steps, mk`connected, mk`remote, mk`sent
      ensures var rep := Run(Lookup(old(tree), job.address), job, faults);
        r == rep.outcome && tree == Put(old(tree), job.address, rep.folder) && steps == old(steps) + rep.steps
    {
      steps := steps + [Connect];
      r := mk.ConnectSsh();
      if r.Fail? {
        return;
      }
      ghost var rest := Exporting(Lookup(tree, job.address), job, faults);
      r := ExportAndCollect(mk, date, job);
      AppendTwice(old(steps), [Connect], rest.steps);
    }

    /** The export command, and what follows it when the device accepts it. */
    method ExportAndCollect(mk: Mikrotik, date: string, ghost job: Job) returns (r: Outcome<Error>)
      requires mk.connected && mk.device == job.device && mk.address == job.address && job.date == date
      requires mk.remote == job.device.files
      modifies this`tree, this`steps, mk`remote, mk`sent
      ensures var rep := Exporting(Lookup(old(tree), job.address), job, faults);
        r == rep.outcome && tree == Put(old(tree), job.address, rep.folder) && steps == old(steps) + rep.steps
    {
      RemoteNames();
      steps := steps + [Exec(ExportCommand(CurrentFile))];
      r := mk.BackupExport(CurrentFile);
      if r.Fail? {
        return;
      }
      ghost var rest := Collect(Lookup(tree, job.address), job, faults);
      r := CollectExport(mk, date, job);
      AppendTwice(old(steps), [Exec(ExportCommand(CurrentFile))], rest.steps);
    }

    /** The part of `backup_mikrotik` that follows the export command. */
    method CollectExport(mk: Mikrotik, date: string, ghost job: Job) returns (r: Outcome<Error>)
      requires mk.connected && mk.device == job.device && mk.address == job.address && job.date == date
      requires CurrentFile in mk.remote && mk.remote[CurrentFile] == job.device.config
      modifies this`tree, this`steps, mk`remote, mk`sent
      ensures var rep := Collect(Lookup(old(tree), job.address), job, faults);
        r == rep.outcome && tree == Put(old(tree), job.address, rep.folder) && steps == old(steps) + rep.steps
    {
      var address := mk.address;
      ghost var folder := Lookup(tree, address);
      ghost var rotated := Prepared(folder, job, faults);
      ghost var rest := Fetch(rotated, job, faults);
      PrepareFolder(address, job);
      ghost var prepared := tree;
      steps := steps + [Download(CurrentFile, CurrentFile)];
      r := FetchAndCompare(mk, date, job, rotated);
      assert tree == Put(prepared, address, rest.folder);
      AppendTwice(old(steps), Preparation(folder, job, faults), [Download(CurrentFile, CurrentFile)]);
      AppendTwice(old(steps) + Preparation(folder, job, faults), [Download(CurrentFile, CurrentFile)], rest.steps);
      AppendTwice(old(steps), Preparation(folder, job, faults), [Download(CurrentFile, CurrentFile)] + rest.steps);
    }

    /** Creates the folder when it is missing and rotates `current.rsc`; both failures are tolerated. */
    method PrepareFolder(address: string, ghost job: Job)
      requires job.address == address
      modifies this`tree, this`steps
      ensures var folder := Lookup(old(tree), address);
        && tree == Put(old(tree), address, Prepared(folder, job, faults))
        && steps == old(steps) + Preparation(folder, job, faults)
    {
      ghost var folder := Lookup(tree, address);
      if address !in tree {
        steps := steps + [MakeDir];
        if address !in faults.mkdir {
          tree := tree[address := map[]];
        }
      }
      assert Lookup(tree, address) == AfterMkdir(folder, job, faults);
      if address in tree && CurrentFile in tree[address] {
        steps := steps + [Rotate];
        if address !in faults.rename {
          tree := tree[address := Rotated(tree[address])];
        }
      }
    }

    /** The steps of `backup_mikrotik` from the download of `current.rsc` on. */
    method FetchAndCompare(mk: Mikrotik, date: string, ghost job: Job, ghost rotated: Option<Folder>)
      returns (r: Outcome<Error>)
      requires mk.connected && mk.device == job.device && mk.address == job.address && job.date == date
      requires CurrentFile in mk.remote && mk.remote[CurrentFile] == job.device.config
      requires Lookup(tree, job.address) == rotated
      modifies this`tree, this`steps, mk`remote, mk`sent
      ensures var rep := Fetch(rotated, job, faults);
        r == rep.outcome && tree == Put(old(tree), job.address, rep.folder) && steps == old(steps) + rep.steps
    {
      var address := mk.address;
      if address !in tree {
        return Fail(DownloadFailed(NoFolder));
      }
      var fetched := mk.DownloadFile(CurrentFile);
      if fetched.Err? {
        return Fail(fetched.error);
      }
      var folder := tree[address][CurrentFile := fetched.value];
      tree := tree[address := folder];
      r := CompareAndArchive(mk, date, job, folder);
    }

    /** The comparison with `previous.rsc`, and the archiving when the export changed. */
    method CompareAndArchive(mk: Mikrotik, date: string, ghost job: Job, ghost fetched: Folder)
      returns (r: Outcome<Error>)
      requires mk.connected && mk.device == job.device && mk.address == job.address && job.date == date
      requires job.address in tree && tree[job.address] == fetched && CurrentFile in fetched
      modifies this`tree, this`steps, mk`remote, mk`sent
      ensures var rep := Judge(fetched, job, faults);
        r == rep.outcome && rep.folder.Some? && tree == old(tree)[job.address := rep.folder.value]
        && steps == old(steps) + rep.steps
    {
      var address := mk.address;
      var identical := CompareFiles(tree[address][CurrentFile], PreviousOf(tree[address]));
      steps := steps + [Compared(identical)];
      if identical {
        return Pass;
      }
      assert !Identical(fetched[CurrentFile], PreviousOf(fetched));
      ghost var rest := Archive(fetched, job, faults);
      assert Judge(fetched, job, faults) == Report(rest.outcome, rest.folder, [Compared(false)] + rest.steps);
      ghost var stepsBefore := old(steps);
      r := ArchiveChange(mk, date, job, fetched);
      AppendTwice(stepsBefore, [Compared(false)], rest.steps);
    }

    /** The archiving steps of `backup_mikrotik`, after a change was found. */
    method ArchiveChange(mk: Mikrotik, date: string, ghost job: Job, ghost fetched: Folder) returns (r: Outcome<Error>)
      requires mk.connected && mk.device == job.device && mk.address == job.address && job.date == date
      requires job.address in tree && tree[job.address] == fetched && CurrentFile in fetched
      modifies this`tree, this`steps, mk`remote, mk`sent
      ensures var rep := Archive(fetched, job, faults);
        r == rep.outcome && rep.folder.Some? && tree == old(tree)[job.address := rep.folder.value]
        && steps == old(steps) + rep.steps
    {
      var address := mk.address;
      var archive := ArchiveExport(address, date);
      steps := steps + [Copy(CurrentFile, archive)];
      if address in faults.copy {
        return Fail(CopyFailed);
      }
      ghost var copied := fetched[archive := fetched[CurrentFile]];
      tree := tree[address := tree[address][archive := tree[address][CurrentFile]]];
      r := SaveBinaryBackup(mk, date, job, copied);
      AppendTwice(old(steps), [Copy(CurrentFile, archive)], SaveBinary(copied, job).steps);
    }

    /** `backup_backup("current")` and the download of `current.backup` into the dated archive. */
    method SaveBinaryBackup(mk: Mikrotik, date: string, ghost job: Job, ghost copied: Folder) returns (r: Outcome<Error>)
      requires mk.connected && mk.device == job.device && mk.address == job.address && job.date == date
      requires job.address in tree && tree[job.address] == copied
      modifies this`tree, this`steps, mk`remote, mk`sent
      ensures var rep := SaveBinary(copied, job);
        r == rep.outcome && rep.folder.Some? && tree == old(tree)[job.address := rep.folder.value]
        && steps == old(steps) + rep.steps
    {
      var address := mk.address;
      RemoteNames();
      steps := steps + [Exec(BackupCommand(BackupName))];
      r := mk.BackupBackup(BackupName);
      if r.Fail? {
        return;
      }
      var binaryFile := ArchiveBinary(address, date);
      steps := steps + [Download(BackupFile(BackupName), binaryFile)];
      AppendTwice(old(steps), [Exec(BackupCommand(BackupName))], [Download(BackupFile(BackupName), binaryFile)]);
      var binary := mk.DownloadFile(BackupFile(BackupName));
      if binary.Err? {
        return Fail(binary.error);
      }
      tree := tree[address := tree[address][binaryFile := binary.value]];
      r := Pass;
    }
  }
}
