/** The exceptions that can end one device's backup, and the text each one carries. */
module Errors {

  datatype Error =
    | AuthFailed(address: string)     // the device refused the credentials
    | ConnectFailed(detail: string)   // any other failure to open the SSH session
    | ExportFailed(detail: string)
    | BackupFailed(detail: string)
    | DownloadFailed(detail: string)
    | NameFailed(detail: string)
    | CommandFailed(detail: string)
    | CopyFailed                      // `except Error` names nothing, so a failed copy surfaces as NameError
    | MissingField                    // a config row too short for `line[0]`, `line[1]` or `line[2]`

  function Message(e: Error): string {
    match e
    case AuthFailed(address) => "ERROR: Authentication failed when connecting to " + address
    case ConnectFailed(detail) => "ERROR: Can't connect to SSH:\n" + detail
    case ExportFailed(detail) => "ERROR: Can't create export backup:\n" + detail
    case BackupFailed(detail) => "ERROR: Can't create backup backup:\n" + detail
    case DownloadFailed(detail) => "ERROR: Can't download file:\n" + detail
    case NameFailed(detail) => "ERROR: Can't define name:\n" + detail
    case CommandFailed(detail) => "ERROR: Can't execute command:\n" + detail
    case CopyFailed => "name 'Error' is not defined"
    case MissingField => "list index out of range"
  }

  /** An authentication failure and any other connection failure never read alike. */
  lemma ConnectMessagesDistinct(address: string, detail: string)
    ensures Message(AuthFailed(address)) != Message(ConnectFailed(detail))
  {
    assert Message(AuthFailed(address))[7] == 'A';
    assert Message(ConnectFailed(detail))[7] == 'C';
  }
}
