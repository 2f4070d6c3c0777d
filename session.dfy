/**
 * The `Mikrotik` session class of mikrotik.py: credentials, the SSH handle
 * (reduced to a connected flag), the device name, and the remote commands
 * the backup tool sends.
 */
module Session {
  import opened Results
  import opened Strings
  import opened Lines
  import opened Device
  import opened Errors

  const MaxNameLength := 14
  const NameMarker := "name: "
  const IdentityQuery := "/system identity print" + "\n"

  /** The exception text Python gives for a call on `self.ssh` while it is still `None`. */
  const NoSession := "'NoneType' object has no attribute 'exec_command'"
  const NoTransfer := "'NoneType' object has no attribute 'open_sftp'"
  /** The text of the error raised when a file to download is not on the device. */
  const NoSuchFile := "[Errno 2] No such file"

  function ExportCommand(file: string): string {
    "/export file=" + file + "\n"
  }

  function BackupCommand(name: string): string {
    "/system backup save name=" + name + "\n"
  }

  /** `execute_command` sends the command text with a newline appended. */
  function CommandLine(command: string): string {
    command + "\n"
  }

  /** The device reads back the file name that `backup_export` put into its command. */
  lemma ExportCommandRoundTrip(file: string)
    ensures Parse(ExportCommand(file)) == Export(file)
  {
    var t := ExportCommand(file);
    assert t[..|ExportPrefix|] == ExportPrefix;
    assert t[|ExportPrefix|..|t| - 1] == file;
  }

  /** The device reads back the name that `backup_backup` put into its command. */
  lemma BackupCommandRoundTrip(name: string)
    ensures Parse(BackupCommand(name)) == SaveBackup(name)
  {
    var t := BackupCommand(name);
    assert t[..|BackupPrefix|] == BackupPrefix;
    assert t[1] == 's' != ExportPrefix[1];
    assert t[|BackupPrefix|..|t| - 1] == name;
  }

  /** The identity query changes nothing stored on the device. */
  lemma IdentityQueryIsQuery()
    ensures Parse(IdentityQuery) == Query(IdentityQuery)
  {
    assert IdentityQuery[1] == 's' != ExportPrefix[1];
    assert IdentityQuery[8] == 'i' != BackupPrefix[8];
  }

  /** The three fixed commands can never be mistaken for one another. */
  lemma CommandsDistinct(file: string, name: string)
    ensures ExportCommand(file) != BackupCommand(name)
    ensures ExportCommand(file) != IdentityQuery && BackupCommand(name) != IdentityQuery
  {
    ExportCommandRoundTrip(file);
    BackupCommandRoundTrip(name);
    IdentityQueryIsQuery();
  }

  lemma {:induction false} OccursInPrefix(s: string, p: string, j: nat, i: nat)
    requires j <= |s| && OccursAt(s[..j], p, i)
    ensures OccursAt(s, p, i)
  {
    assert s[..j][i..i + |p|] == s[i..i + |p|];
  }

  /** An occurrence in a suffix of `s` is an occurrence in `s`, shifted by where the suffix starts. */
  lemma OccursInSuffix(s: string, p: string, m: nat, i: nat)
    requires m <= |s|
    ensures OccursAt(s[m..], p, i) <==> OccursAt(s, p, m + i)
  {
    if m + i + |p| <= |s| {
      assert s[m..][i..i + |p|] == s[m + i..m + i + |p|];
    }
  }

  /** The first occurrence of `sep` in `s` is at `k`. */
  predicate FirstAt(s: string, sep: string, k: nat) {
    OccursAt(s, sep, k) && forall i :: 0 <= i < k ==> !OccursAt(s, sep, i)
  }

  /**
   * `piece` starts right after a `sep` at `k` and runs up to the next
   * occurrence of `sep`, or to the end when there is none.
   */
  predicate PieceAfter(s: string, sep: string, k: nat, piece: string) {
    && k + |sep| <= |s|
    && HasPrefix(s[k + |sep|..], piece)
    && (forall t :: k + |sep| <= t < k + |sep| + |piece| ==> !OccursAt(s, sep, t))
    && (k + |sep| + |piece| == |s| || OccursAt(s, sep, k + |sep| + |piece|))
  }

  /**
   * `output.split(sep)[1]`: the text after the first occurrence of `sep`, up to
   * the next occurrence or the end; `None` where Python raises IndexError.
   */
  function SecondPiece(s: string, sep: string): (r: Option<string>)
    requires sep != []
    ensures r.None? <==> !Contains(s, sep)
    ensures r.Some? ==> !Contains(r.value, sep)
    ensures r.Some? ==> exists k :: FirstAt(s, sep, k) && PieceAfter(s, sep, k, r.value)
  {
    match IndexOf(s, sep, 0)
    case None =>
      assert forall i :: 0 <= i <= |s| ==> !OccursAt(s, sep, i);
      None
    case Some(k) =>
      assert FirstAt(s, sep, k);
      var rest := s[k + |sep|..];
      match IndexOf(rest, sep, 0)
      case None =>
        assert !Contains(rest, sep);
        PieceToEnd(s, sep, k);
        Some(rest)
      case Some(j) =>
        assert FirstAt(rest, sep, j);
        PieceUpToNext(s, sep, k, j);
        Some(rest[..j])
  }

  /** A stretch of `s[m..]` without `sep` is the same stretch of `s`, shifted by `m`. */
  lemma ShiftAbsent(s: string, sep: string, m: nat, hi: nat)
    requires m <= |s|
    requires forall i :: 0 <= i < hi ==> !OccursAt(s[m..], sep, i)
    ensures forall i :: m <= i < m + hi ==> !OccursAt(s, sep, i)
  {
    forall i | m <= i < m + hi
      ensures !OccursAt(s, sep, i)
    {
      OccursInSuffix(s, sep, m, i - m);
    }
  }

  /** With no further occurrence of `sep`, the piece after the one at `k` runs to the end. */
  lemma PieceToEnd(s: string, sep: string, k: nat)
    requires sep != [] && k + |sep| <= |s| && !Contains(s[k + |sep|..], sep)
    ensures !Contains(s[k + |sep|..], sep) && PieceAfter(s, sep, k, s[k + |sep|..])
  {
    var m := k + |sep|;
    var rest := s[m..];
    assert rest[..|rest|] == rest;
    ShiftAbsent(s, sep, m, |rest|);
  }

  /** The piece between an occurrence of `sep` at `k` and the next one, `j` characters further. */
  lemma PieceUpToNext(s: string, sep: string, k: nat, j: nat)
    requires sep != [] && k + |sep| <= |s| && FirstAt(s[k + |sep|..], sep, j)
    ensures var piece := s[k + |sep|..][..j];
      !Contains(piece, sep) && PieceAfter(s, sep, k, piece)
  {
    var m := k + |sep|;
    var rest := s[m..];
    var piece := rest[..j];
    forall i | 0 <= i <= |piece| && OccursAt(piece, sep, i)
      ensures false
    {
      OccursInPrefix(rest, sep, j, i);
    }
    ShiftAbsent(s, sep, m, j);
    OccursInSuffix(s, sep, m, j);
    assert |piece| == j && HasPrefix(rest, piece);
  }

  /** `identity[:14]` */
  function Truncate(s: string): string {
    if |s| <= MaxNameLength then s else s[..MaxNameLength]
  }

  /** The name `define_name` extracts from the output of `/system identity print`. */
  function Identity(output: string): Option<string> {
    match SecondPiece(output, NameMarker)
    case None => None
    case Some(piece) => Some(Truncate(Strip(piece)))
  }

  /**
   * What `define_name` keeps is a prefix of at most 14 characters of the
   * stripped piece after the first `"name: "`, and nothing when there is none.
   */
  lemma IdentityShape(output: string)
    ensures Identity(output).None? <==> !Contains(output, NameMarker)
    ensures Identity(output).Some? ==>
      var id := Strip(SecondPiece(output, NameMarker).value);
      var r := Identity(output).value;
      |r| <= MaxNameLength && HasPrefix(id, r)
      && |r| == (if |id| < MaxNameLength then |id| else MaxNameLength)
      && (r == [] || !IsSpace(r[0]))
  {
    if Identity(output).Some? {
      StripShape(SecondPiece(output, NameMarker).value);
    }
  }

  lemma NoMarkerAt(n: string, tail: string, i: nat)
    requires !Contains(n, NameMarker)
    requires forall k :: 0 <= k < |tail| ==> tail[k] == '\r' || tail[k] == '\n'
    ensures !OccursAt(n + tail, NameMarker, i)
  {
    var s := n + tail;
    if i + |NameMarker| <= |s| {
      if i + |NameMarker| <= |n| {
        assert s[i..i + |NameMarker|] == n[i..i + |NameMarker|];
        assert !OccursAt(n, NameMarker, i);
      } else {
        var m := if i < |n| then |n| else i;
        assert s[m] == tail[m - |n|];
        assert s[i..i + |NameMarker|][m - i] == s[m];
      }
    }
  }

  /** The piece after the marker runs to the end when the rest holds no further marker. */
  lemma PieceOfPrint(n: string)
    requires !Contains(n, NameMarker)
    ensures SecondPiece("  name: " + n + "\r\n\r\n", NameMarker) == Some(n + "\r\n\r\n")
  {
    var s := "  name: " + n + "\r\n\r\n";
    var tail := "\r\n\r\n";
    assert s[0..|NameMarker|] != NameMarker by {
      assert s[0..|NameMarker|][0] == ' ';
    }
    assert s[1..1 + |NameMarker|] != NameMarker by {
      assert s[1..1 + |NameMarker|][0] == ' ';
    }
    assert s[2..2 + |NameMarker|] == NameMarker;
    assert IndexOf(s, NameMarker, 2) == Some(2);
    assert IndexOf(s, NameMarker, 1) == IndexOf(s, NameMarker, 2);
    assert IndexOf(s, NameMarker, 0) == IndexOf(s, NameMarker, 1);
    var rest := s[2 + |NameMarker|..];
    assert rest == n + tail;
    forall i: nat
      ensures !OccursAt(rest, NameMarker, i)
    {
      NoMarkerAt(n, tail, i);
    }
    assert IndexOf(rest, NameMarker, 0).None?;
  }

  /**
   * Read back from the way RouterOS prints its identity, `define_name`
   * recovers the name, cut to 14 characters.
   */
  lemma IdentityOfPrint(n: string)
    requires Trimmed(n) && !Contains(n, NameMarker)
    ensures Identity("  name: " + n + "\r\n\r\n") == Some(Truncate(n))
  {
    PieceOfPrint(n);
    StripPrinted(n);
  }

  /** The line break RouterOS prints after the name is stripped away. */
  lemma StripPrinted(n: string)
    requires Trimmed(n)
    ensures Strip(n + "\r\n\r\n") == n
  {
    var tail := "\r\n\r\n";
    assert AllSpace(tail) by {
      assert IsSpace('\r') && IsSpace('\n');
    }
    assert "" + n + tail == n + tail;
    StripPadded("", n, tail);
  }

  /** Login outcomes as `connect_ssh` reports them. */
  function ConnectOutcome(d: Device, address: string, username: string, password: string): Outcome<Error> {
    match LoginWith(d, username, password)
    case Accepted => Pass
    case Refused => Fail(AuthFailed(address))
    case Unreachable => Fail(ConnectFailed(d.fault))
  }

  /** `None` is stored as the empty password; anything else as it is. */
  function NormalizePassword(password: Option<string>): string {
    match password
    case None => ""
    case Some(p) => p
  }

  class Mikrotik {
    const address: string
    const username: string
    const password: string
    const device: Device
    var connected: bool                    // `self.ssh` is set
    var name: Option<string>
    var remote: map<string, seq<Line>>     // the files stored on the device
    ghost var sent: seq<string>            // command texts the device received, in order

    ghost predicate Valid()
      reads this
    {
      name.Some? ==> |name.value| <= MaxNameLength
    }

    /**
     * The field set-up of `__init__`. Its final call to `connect_ssh` is made
     * by the caller right after construction, because a constructor here cannot fail.
     */
    constructor (address: string, username: string, password: Option<string>, device: Device)
      ensures Valid()
      ensures this.address == address && this.username == username && this.device == device
      ensures this.password == NormalizePassword(password)
      ensures password.None? ==> this.password == ""
      ensures password.Some? ==> this.password == password.value
      ensures !connected && name.None? && remote == device.files && sent == []
    {
      this.address := address;
      this.username := username;
      this.password := if password.None? then "" else password.value;
      this.device := device;
      connected := false;
      name := None;
      remote := device.files;
      sent := [];
    }

    /** `"{address}({name})"`, where an unset name prints as `None`. */
    function ToString(): (s: string)
      reads this
      requires Valid()
      ensures |address| + 2 <= |s| && HasPrefix(s, address) && s[|address|] == '(' && s[|s| - 1] == ')'
      ensures name.Some? ==> s[|address| + 1..|s| - 1] == name.value && |s| <= |address| + MaxNameLength + 2
      ensures name.None? ==> s[|address| + 1..|s| - 1] == "None"
    {
      address + "(" + (if name.None? then "None" else name.value) + ")"
    }

    /** Opens the session once; a second call leaves an open session alone. */
    method ConnectSsh() returns (r: Outcome<Error>)
      modifies this`connected
      ensures old(connected) ==> connected && r == Pass
      ensures !old(connected) ==> r == ConnectOutcome(device, address, username, password)
      ensures !old(connected) ==> connected == r.Pass?
    {
      if connected {
        return Pass;
      }
      r := ConnectOutcome(device, address, username, password);
      if r.Pass? {
        connected := true;
      }
    }

    /** `self.ssh.exec_command(text)` followed by reading its output. */
    method Exec(text: string) returns (r: Result<string, string>)
      modifies this`remote, this`sent
      ensures r.Ok? <==> connected && text !in device.refused
      ensures r.Ok? ==> r.value == Output(device, text)
      ensures r.Ok? ==> sent == old(sent) + [text] && remote == Stored(device, old(remote), text)
      ensures r.Err? ==> r.error == (if connected then device.fault else NoSession)
      ensures r.Err? ==> sent == old(sent) && remote == old(remote)
    {
      if !connected {
        return Err(NoSession);
      }
      if text in device.refused {
        return Err(device.fault);
      }
      sent := sent + [text];
      remote := Stored(device, remote, text);
      r := Ok(Output(device, text));
    }

    /** `backup_export`: the device writes its configuration export to `file`. */
    method BackupExport(file: string) returns (r: Outcome<Error>)
      modifies this`remote, this`sent
      ensures r.Pass? <==> connected && ExportCommand(file) !in device.refused
      ensures r.Pass? ==> sent == old(sent) + [ExportCommand(file)]
      ensures r.Pass? ==> remote == old(remote)[ExportFile(file) := device.config]
      ensures r.Fail? ==> r.error == ExportFailed(if connected then device.fault else NoSession)
      ensures r.Fail? ==> sent == old(sent) && remote == old(remote)
    {
      var out := Exec(ExportCommand(file));
      ExportCommandRoundTrip(file);
      if out.Err? {
        return Fail(ExportFailed(out.error));
      }
      r := Pass;
    }

    /** `backup_backup`: the device writes a binary backup under `name`. */
    method BackupBackup(name: string) returns (r: Outcome<Error>)
      modifies this`remote, this`sent
      ensures r.Pass? <==> connected && BackupCommand(name) !in device.refused
      ensures r.Pass? ==> sent == old(sent) + [BackupCommand(name)]
      ensures r.Pass? ==> remote == old(remote)[BackupFile(name) := device.binary]
      ensures r.Fail? ==> r.error == BackupFailed(if connected then device.fault else NoSession)
      ensures r.Fail? ==> sent == old(sent) && remote == old(remote)
    {
      var out := Exec(BackupCommand(name));
      BackupCommandRoundTrip(name);
      if out.Err? {
        return Fail(BackupFailed(out.error));
      }
      r := Pass;
    }

    /** The transfer half of `download_file`: the content of a file on the device. */
    method DownloadFile(source: string) returns (r: Result<seq<Line>, Error>)
      ensures r.Ok? <==> connected && source in remote && source !in device.unreadable
      ensures r.Ok? ==> r.value == remote[source]
      ensures r.Err? ==> r.error == DownloadFailed(
        if !connected then NoTransfer else if source !in remote then NoSuchFile else device.fault)
    {
      if !connected {
        return Err(DownloadFailed(NoTransfer));
      }
      if source !in remote {
        return Err(DownloadFailed(NoSuchFile));
      }
      if source in device.unreadable {
        return Err(DownloadFailed(device.fault));
      }
      r := Ok(remote[source]);
    }

    /**
     * `define_name`: asks for the identity and keeps at most 14 characters of
     * it; without a `"name: "` in the output the old name stays.
     */
    method DefineName() returns (r: Outcome<Error>)
      requires Valid()
      modifies this`name, this`remote, this`sent
      ensures Valid() && remote == old(remote)
      ensures var asked := connected && IdentityQuery !in device.refused;
        && sent == (if asked then old(sent) + [IdentityQuery] else old(sent))
        && (r.Pass? <==> asked && Identity(Output(device, IdentityQuery)).Some?)
      ensures r.Pass? ==> name == Identity(Output(device, IdentityQuery))
      ensures r.Fail? ==> r.error.NameFailed? && name == old(name)
    {
      var out := Exec(IdentityQuery);
      IdentityQueryIsQuery();
      if out.Err? {
        return Fail(NameFailed(out.error));
      }
      var id := Identity(out.value);
      if id.None? {
        return Fail(NameFailed("list index out of range"));
      }
      IdentityShape(out.value);
      name := id;
      r := Pass;
    }

    /** `execute_command`: sends the command with a newline and returns what the device printed. */
    method ExecuteCommand(command: string) returns (r: Result<string, Error>)
      modifies this`remote, this`sent
      ensures r.Ok? <==> connected && CommandLine(command) !in device.refused
      ensures r.Ok? ==> r.value == Output(device, CommandLine(command))
      ensures r.Ok? ==> sent == old(sent) + [CommandLine(command)]
      ensures r.Ok? ==> remote == Stored(device, old(remote), CommandLine(command))
      ensures r.Err? ==> r.error.CommandFailed? && sent == old(sent) && remote == old(remote)
    {
      var out := Exec(CommandLine(command));
      if out.Err? {
        return Err(CommandFailed(out.error));
      }
      r := Ok(out.value);
    }
  }
}
