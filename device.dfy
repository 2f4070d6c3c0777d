/**
 * The router at the other end of the SSH session, as far as the backup tool
 * can observe it. It is not part of the repository: it stands for paramiko and
 * RouterOS together, reduced to what each call can return or raise.
 */
module Device {
  import opened Strings
  import opened Lines

  datatype Device = Device(
    reachable: bool,                  // the TCP/SSH handshake succeeds
    fault: string,                    // text of the transport error when a call fails
    accounts: map<string, string>,    // user name to the password the device accepts
    config: seq<Line>,                // what `/export` writes
    binary: seq<Line>,                // what `/system backup save` writes, taken as opaque lines
    answers: map<string, string>,     // output of other commands, by command text
    files: map<string, seq<Line>>,    // files already stored on the device
    refused: set<string>,             // command texts whose execution raises
    unreadable: set<string>)          // stored files whose transfer raises

  /** A host nobody answers at. */
  const Offline := Device(false, "timed out", map[], [], [], map[], map[], {}, {})

  datatype Login = Accepted | Refused | Unreachable

  function LoginWith(d: Device, username: string, password: string): Login {
    if !d.reachable then Unreachable
    else if username in d.accounts && d.accounts[username] == password then Accepted
    else Refused
  }

  /** How RouterOS reads a command line it receives. */
  datatype Command = Export(file: string) | SaveBackup(name: string) | Query(text: string)

  const ExportPrefix := "/export file="
  const BackupPrefix := "/system backup save name="

  function Parse(text: string): Command {
    if |ExportPrefix| < |text| && HasPrefix(text, ExportPrefix) && text[|text| - 1] == '\n' then
      Export(text[|ExportPrefix|..|text| - 1])
    else if |BackupPrefix| < |text| && HasPrefix(text, BackupPrefix) && text[|text| - 1] == '\n' then
      SaveBackup(text[|BackupPrefix|..|text| - 1])
    else
      Query(text)
  }

  /** RouterOS adds the `.rsc` extension to an export file name that lacks it. */
  function ExportFile(name: string): string {
    if HasSuffix(name, ".rsc") then name else name + ".rsc"
  }

  /** RouterOS adds the `.backup` extension to a backup name that lacks it. */
  function BackupFile(name: string): string {
    if HasSuffix(name, ".backup") then name else name + ".backup"
  }

  /** The device's files after it ran `text`. */
  function Stored(d: Device, files: map<string, seq<Line>>, text: string): map<string, seq<Line>> {
    match Parse(text)
    case Export(file) => files[ExportFile(file) := d.config]
    case SaveBackup(name) => files[BackupFile(name) := d.binary]
    case Query(_) => files
  }

  /** What the device prints for `text`. */
  function Output(d: Device, text: string): string {
    if text in d.answers then d.answers[text] else ""
  }
}
