# MikroTik configuration backup, modelled in Dafny

The tool logs in to each MikroTik router listed in `config.conf` over SSH. It
asks the router for a text export of its configuration (`/export`) and
downloads it as `current.rsc` into a folder named after the router's address.
The folder lives under the backup root taken from `MIKROTIK_BACKUP_PATH`. The
tool then compares the new export with the one it stored last time, which it
has just renamed to `previous.rsc`. Only when the comparison reports a change
does it keep dated archives of this run:

- a copy of the export, `{address}-{date}.rsc`;
- a binary backup made on the router (`/system backup save`), downloaded as
  `{address}-{date}.backup`.

The model covers four parts of the code:

- the change detector `compare_files`;
- the per-device workflow `backup_mikrotik`;
- the `__main__` loop over the rows of `config.conf`;
- the `Mikrotik` session class.

Modules, one per file:

| file | module | what it holds |
|---|---|---|
| `lines.dfy` | `Lines` | `Line`, a line of a file as `readline` returns it |
| `results.dfy` | `Results` | `Option`, `Result` and `Outcome` (pass, or fail with an error) |
| `strings.dfy` | `Strings` | `startswith`, `str.find`, `str.strip` and Python's whitespace set |
| `compare.dfy` | `Compare` | `compare_files`: the recursive function `Same`, the reference definition `Aligned`, the loop method `CompareFiles` |
| `errors.dfy` | `Errors` | the exceptions that end a device's backup, and their texts |
| `device.dfy` | `Device` | the router at the other end of the session (see "Left out") |
| `session.dfy` | `Session` | the `Mikrotik` class, its exact command strings and the parsing of the identity |
| `backup.dfy` | `Backup` | `backup_mikrotik`: the function `Run` and the class `Store`, whose methods perform it step by step |
| `backup_facts.dfy` | `BackupFacts` | what one `backup_mikrotik` call guarantees: order of operations, rotation, comparison, archives |
| `driver.dfy` | `Driver` | the `__main__` loop: `Drive`, the method `RunBackups`, and what a whole run guarantees |

The backup root is a map from device address to folder. A folder is a map
from file name to lines. `Backup.Run` describes one `backup_mikrotik` call as
a `Report` with three parts:

- the outcome;
- the folder afterwards;
- the operations attempted, in order.

`Store.BackupMikrotik` changes the root one operation at a time and is proved
to end in the state `Run` describes. `Driver.RunBackups` is proved the same
way against `Driver.Drive`.

**`compare_files` compares positions, not content.** Its docstring says it
ignores lines with `#`, which reads as if each file skipped its own comment
lines. The loop does not do that: both files are read in lock step. A step
where either line starts with `#` drops both lines, so a comment hides the
line aligned with it in the other file. The
model keeps that positional behaviour. `Compare.AlignedCommentsCompareContent`
shows when it equals comparing the non-comment content: when comments sit at
the same positions in both files. `Compare.PositionalComparisonIsNotContentEquality`
shows that outside that case it differs in both directions.

**Failures are fatal, as the code is written.** A batch tool might be
expected to go on after a failed device and keep a result per device. This
code does neither, and the model follows the code. Every `Mikrotik` call
raises on failure, and nothing in `backup_mikrotik` or the loop catches it.
The first failed row therefore ends the program, and later rows are never
read. Two failures are tolerated: a failed `mkdir` and a failed rename. Each is printed
and the run goes on. The handler around `shutil.copy` names `Error`, which is
not defined in main.py. A failed copy therefore surfaces as a `NameError`, and
the model ends the run with `CopyFailed`. Indexing a row without three fields
raises `IndexError`, modelled as `MissingField`. This covers an empty row at
main.py:101 and a short row at main.py:38.

## Model

| member | source | states |
|---|---|---|
| Compare.CompareFiles | main.py:9-32 | The two-cursor loop returns "changed" when `previous.rsc` does not exist, whatever the current file holds. Otherwise it returns exactly `Identical(current, previous)`, the recursive reading of the same loop. It always terminates. |
| Compare.SameIsAligned | main.py:19-32 | The comparator reports "identical" exactly when every aligned pair of reads agrees, up to the longer file. A pair agrees when either line is a comment or both are equal; `""` stands for end of file. A longer file can still compare identical when every line after the end of the shorter file is a comment. Any non-comment line there gives "changed". |
| Compare.SameReflexive | main.py:19-32 | A file compared with itself is reported identical. |
| Compare.SameSymmetric | main.py:19-32 | The result does not depend on which file is current and which previous. |
| Compare.MismatchIsChange | main.py:27-31 | An aligned pair of non-comment reads that differ gives "changed". This includes one file at end of file facing a line of the other. |
| Compare.CommentMasksAlignedLine | main.py:22-28 | A comment line in one file hides whatever line is aligned with it in the other: replacing that line never changes the result. |
| Compare.AlignedCommentsCompareContent | main.py:19-32 | When both files have their comments at the same positions, "identical" holds exactly when their non-comment lines are equal. |
| Compare.PositionalComparisonIsNotContentEquality | main.py:19-32 | Two concrete pairs of files. In the first, one extra header comment makes equal content "changed". In the second, a comment aligned with an edited line makes different content "identical". |
| Compare.IdenticalCopy | main.py:16-32 | An existing previous file equal to the current one gives "identical". |
| Errors.ConnectMessagesDistinct | mikrotik.py:40-43 | The authentication failure and every other connection failure raise different messages. |
| Strings.IndexOf | mikrotik.py:85 | The search behind `split`: it returns the first index at or after `from` where the separator occurs, or none when there is no such index. |
| Strings.StripShape | mikrotik.py:85 | `strip()` removes a whitespace prefix and a whitespace suffix and nothing else. Its result starts and ends with non-whitespace. |
| Strings.StripPadded | mikrotik.py:85 | Stripping a whitespace margin off a string without one gives the string back. |
| Session.ExportCommandRoundTrip | mikrotik.py:50 | The router reads back from `"/export file=" + n + "\n"` the file name `n`. |
| Session.BackupCommandRoundTrip | mikrotik.py:61 | The router reads back from `"/system backup save name=" + n + "\n"` the backup name `n`. |
| Session.CommandsDistinct | mikrotik.py:45-89 | The export command, the backup command and the identity query are never the same text. |
| Session.SecondPiece | mikrotik.py:85 | `output.split(sep)[1]` is missing exactly when `sep` does not occur. Otherwise it starts right after the first occurrence of `sep`. It runs up to the first occurrence that starts at or after that point, or to the end when there is none. It contains no `sep`. |
| Session.IdentityShape | mikrotik.py:85-86 | The name `define_name` keeps is missing exactly when the output has no `"name: "`. Otherwise it is the prefix, of length min(14, length), of the stripped piece after the first `"name: "`. |
| Session.IdentityOfPrint | mikrotik.py:82-86 | From the identity print `"  name: " + n + "\r\n\r\n"` of a trimmed name `n` that holds no `"name: "`, `define_name` recovers `n` cut to 14 characters. A name that does hold `"name: "` is cut at it, because `split` keeps only the text up to the next marker (`Session.SecondPiece`). |
| Session.Mikrotik.constructor | mikrotik.py:9-17 | The fields are set from the arguments. A `None` password is stored as `""`; any other password is stored unchanged, `""` included. There is no session and no name yet. |
| Session.Mikrotik.ToString | mikrotik.py:24-25 | `__str__` is the address, `(`, the name (`None` while unset, at most 14 characters once set), `)`. |
| Session.Mikrotik.ConnectSsh | mikrotik.py:27-43 | With a session already open it does nothing. Otherwise it reports the login's outcome, and the session is set exactly when the login succeeded. |
| Session.Mikrotik.Exec | mikrotik.py:50 | `exec_command` succeeds exactly when a session is open and the router accepts the text. On success the text is recorded as sent and the router's files are updated. On failure nothing changes, and without a session the error is Python's `NoneType` error. |
| Session.Mikrotik.BackupExport | mikrotik.py:45-54 | It sends exactly `"/export file=" + n + "\n"`, after which the router holds the export under its `.rsc` name. On failure it raises the export error and changes nothing. |
| Session.Mikrotik.BackupBackup | mikrotik.py:56-65 | It sends exactly `"/system backup save name=" + n + "\n"`, after which the router holds the binary backup under its `.backup` name. On failure it raises the backup error and changes nothing. |
| Session.Mikrotik.DownloadFile | mikrotik.py:67-76 | The transfer yields the file's content exactly when a session is open, the file exists on the router and its transfer does not fail. Each failure gives its own download error. |
| Session.Mikrotik.DefineName | mikrotik.py:78-89 | It sends the identity query and succeeds exactly when the query ran and its output holds `"name: "`. The name then becomes `Identity(output)`. On failure the old name stays. |
| Session.Mikrotik.ExecuteCommand | mikrotik.py:91-101 | It sends `c + "\n"`, returns what the router printed for it, and raises the command error on failure. |
| Backup.RemoteNames | main.py:42-80 | The export of `"current.rsc"` is stored on the router as `current.rsc`, and the backup named `"current"` as `current.backup`. |
| Backup.ArchiveNamesDistinct | main.py:52-79 | The two dated archives never take the name of `current.rsc`, of `previous.rsc` or of each other. |
| Backup.Store.BackupMikrotik | main.py:35-80 | One `backup_mikrotik` call, performed step by step. It returns the outcome `BackupRow` describes, and leaves the root and the trace of operations as `BackupRow` describes. |
| Backup.Store.BackupJob | main.py:38-80 | From an unconnected session: the connection, then the rest, ending as `Run` describes. |
| Backup.Store.ExportAndCollect | main.py:42-80 | The export command, then the rest, ending as `Exporting` describes. |
| Backup.Store.CollectExport | main.py:43-80 | The preparation, the download and the comparison, ending as `Collect` describes. |
| Backup.Store.PrepareFolder | main.py:43-58 | The folder is created when missing, and an existing `current.rsc` is rotated. A failure of either is tolerated. The folder ends as `Prepared` says, and `MakeDir`/`Rotate` are recorded exactly when attempted. |
| Backup.Store.FetchAndCompare | main.py:59-80 | From the download of `current.rsc` on, ending as `Fetch` describes. |
| Backup.Store.CompareAndArchive | main.py:61-80 | The comparison, and the archiving a change leads to, ending as `Judge` describes. |
| Backup.Store.ArchiveChange | main.py:66-80 | The dated copy of the export, then the binary backup, ending as `Archive` describes. |
| Backup.Store.SaveBinaryBackup | main.py:76-80 | The binary backup command, then its download into the dated `.backup`, ending as `SaveBinary` describes. |
| BackupFacts.ArchiveStepsInOrder | main.py:68-80 | Archiving attempts the copy, the backup command and the download, in that order, up to the first failure. |
| BackupFacts.FetchStepsShape | main.py:59-80 | After the download, the steps are one of five sequences: none, when the download fails; an "unchanged" comparison alone; or a "changed" comparison followed by the copy and then, up to the first failure, the backup command and the `.backup` download. |
| BackupFacts.FetchComparesFirst | main.py:59-62 | Once the export is downloaded into an existing folder, the first step is the comparison of the fresh export with that folder's `previous.rsc`. |
| BackupFacts.FetchCompared | main.py:59-62 | A comparison happens only after a successful download into an existing folder, and its result is `compare_files` on the fresh export and `previous.rsc`. |
| BackupFacts.FetchUnchanged | main.py:62-65 | When the comparison finds no change, the run ends successfully right there. The folder holds the new `current.rsc` and nothing else changes. |
| BackupFacts.FetchChangedPass | main.py:66-80 | A change that completes stores the export as `current.rsc` and as the dated `.rsc`, and the router's binary backup as the dated `.backup`. |
| BackupFacts.FetchPassStoresExport | main.py:59-80 | A completed run leaves the downloaded export in `current.rsc`. |
| BackupFacts.FetchWritesOnly | main.py:59-80 | From the download on, no file is written except `current.rsc` and the two dated archives. |
| BackupFacts.EarlyShape | main.py:38-60 | Up to the download: connect, export, the preparation, the download. None of these is a comparison, copy or binary-backup step. A rotation is among them exactly when the folder held a `current.rsc` once it existed. |
| BackupFacts.RunSteps | main.py:35-80 | After a successful export, a run is exactly the early steps followed by what `Fetch` does on the prepared folder, with `Fetch`'s outcome and folder. |
| BackupFacts.DownloadIffExported | main.py:42-60 | `current.rsc` is downloaded exactly when the router accepted the login and the export. A failed `mkdir` or rename never prevents it. |
| BackupFacts.ExportPrecedesDownload | main.py:42-60 | The export command comes before the download of `current.rsc`. |
| BackupFacts.RotationPrecedesDownload | main.py:52-60 | The rotation is attempted exactly when the session got past the export and the folder held a `current.rsc`. It comes before the download. |
| BackupFacts.ComparisonUsesFreshDownload | main.py:59-62 | A comparison is made only after the fresh export was downloaded into the prepared folder, and it compares that export with the `previous.rsc` the preparation left. |
| BackupFacts.ComparesWithLastExport | main.py:52-62 | Once the login, the export and the download succeed, with `current.rsc` present and the rename allowed, the new export is compared with the stored one. `previous.rsc` then holds the stored export, whatever it held before. |
| BackupFacts.NoCurrentKeepsPrevious | main.py:54-58 | Without a `current.rsc`, `previous.rsc` is left as it was. |
| BackupFacts.BinaryBackupOrder | main.py:62-80 | The binary backup command is sent only after a comparison that reported a change, and never in a run that found none. The `.backup` download comes after that command. |
| BackupFacts.UnchangedCreatesNoArchive | main.py:62-65 | An "unchanged" result ends the run successfully with the fresh `current.rsc` in place, with no copy and no binary backup. |
| BackupFacts.ChangeIsArchived | main.py:66-80 | A run that reports a change and completes stores `{address}-{date}.rsc` equal to the new `current.rsc` and `{address}-{date}.backup` equal to the router's binary backup. Nothing else in the prepared folder changes. |
| BackupFacts.OnlyTouchedNamesChange | main.py:43-80 | One run writes nothing but `current.rsc`, `previous.rsc` and the two dated archives; every other file keeps its content. A folder still missing afterwards was missing before. |
| BackupFacts.FirstRunArchives | main.py:43-80 | The first run for a router, with login, export, `mkdir` and download succeeding, creates its folder and leaves no `previous.rsc`. The comparison reports a change, and unless the copy fails the dated `.rsc` holds the export. |
| BackupFacts.PassStoresExport | main.py:59-60 | A completed run got past the export and the download, and leaves the export in `current.rsc`. |
| BackupFacts.SecondRunCreatesNoArchive | main.py:52-65 | After a completed run, a second run against the same router with an unchanged export passes, provided its login and export succeed and the rename is allowed. It rotates the stored export to `previous.rsc` and finds no change. The folder differs from the first run's only in `previous.rsc`, so no archive is made. |
| BackupFacts.SecondRunFromStored | main.py:52-65 | The same, starting from any folder whose `current.rsc` holds the router's export. |
| BackupFacts.RowTouchesOnlyItsFolder | main.py:35-43 | A row touches only the folder of its own address. A row without three fields fails before anything is attempted. |
| Driver.ExitCode | main.py:90-94 | The process exits with 0 exactly when every row was handled, and with 1 otherwise. |
| Driver.RunBackups | main.py:84-103 | The loop ends with the exit, root and trace that `Program` describes. Without `MIKROTIK_BACKUP_PATH` it exits with `MissingBackupPath` before touching anything. |
| Driver.CommentRowsSkipped | main.py:99-103 | Rows whose first field starts with `#` play no part: the run is the same on the rows without them. |
| Driver.AttemptedRows | main.py:99-103 | The rows handed to `backup_mikrotik` are the first non-comment rows, in file order. A run that completes handed over all of them and met no empty row. |
| Driver.CrashIgnoresLaterRows | main.py:99-103 | Once a row fails, later rows are never read: appending rows changes nothing. |
| Driver.CompletedThenContinues | main.py:99-103 | A run over two blocks of rows that completes the first block carries on from the root the first block left, with the same timestamp. |
| Driver.UnlistedFoldersUntouched | main.py:99-103 | The folder of an address that no non-comment row names is never touched. |
| Driver.RunWritesOnlyDatedArchives | main.py:86-103 | However many rows there are, every folder keeps every file except `current.rsc`, `previous.rsc` and the two archives dated with this run's single timestamp. No folder disappears. |
| Driver.OneRowWritesOnlyDatedArchives | main.py:35-80 | The same for one row. |

## Left out

- The SSH and SFTP machinery of paramiko is not modelled: client set-up, host keys, keepalive and timeouts. `Device.Device` stands for it and for RouterOS together, with these parts:
  - whether the router is reachable, and which credentials it accepts;
  - its export text and binary backup;
  - the answers it prints and the files it stores;
  - which commands and which transfers fail, and with what text.
- The router's own file naming is an assumption of the model, not code in the repository. `/export file=current.rsc` is taken to write `current.rsc`, and `/system backup save name=current` to write `current.backup`.
- The settling delays `time.sleep(5)` are left out because they only affect timing.
- All `print` output and the elapsed-time report are left out because they are console output only.
- The `datetime` formatting of the timestamp is left out. The timestamp is an opaque string parameter, shared by all rows of one run.
- Reading `config.conf` with `csv` and reading the environment with `os.getenv` are left out. The rows and an optional backup root are inputs.
- UTF-8 decoding of command output is left out. Output is already a string.
- The finaliser `__del__` that closes the connection is left out because nothing observable depends on it.
- Session.Mikrotik.constructor: `__init__` ends by calling `connect_ssh`. In the model the caller makes that call right after construction (`Store.BackupJob`), because a constructor here cannot fail.
- Session.Mikrotik.DownloadFile: a failed transfer is modelled as leaving the local target untouched. A partly written local file is not modelled.
- Local files are sequences of lines, as `readline` returns them. How the file's bytes split into lines is not modelled, and the binary backup is stored as an opaque value of the same type.
- Paths are not modelled. Each address names its own folder. `os.path.join` with an address that holds a path separator, or that is an absolute path, is not modelled.
- Filesystem failures are modelled only as fail or succeed, per address, for `mkdir`, the rename and the copy. The text of the OS error is printed and then dropped, so it is not modelled.
- The stored name of the binary backup, `"current"`, is the only one the tool uses, and it is the only one modelled.
