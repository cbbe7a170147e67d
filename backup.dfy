/** The backup tab: its fields and its message handler. */
module Backup {
  import opened Wrappers
  import opened Serial
  import opened Progress
  import opened Commands

  datatype BackupMessage =
    | BackupPressed
    | RestorePressed
    | OpenRestoreFilePressed
    | RestoreFileSelected(file: Option<string>)
    | StartBackup(path: Option<string>)
    | PortSelected(port: SerialPort)
    | FilePath(path: Option<string>)
    | Tick

  /** The values of a tab's fields; `backupProgress` is the receiver object, null for None. */
  datatype BackupFields = BackupFields(
    backupInProgress: bool,
    backupProgress: ProgressChannel?,
    serialPorts: seq<SerialPort>,
    serialPort: Option<SerialPort>,
    progress: real,
    restoreFile: Option<string>,
    statusText: string)

  class BackupTab {
    var backupInProgress: bool
    var backupProgress: ProgressChannel?
    var serialPorts: seq<SerialPort>
    var serialPort: Option<SerialPort>
    var progress: real
    var restoreFile: Option<string>
    var statusText: string

    ghost function Fields(): BackupFields
      reads this
    {
      BackupFields(backupInProgress, backupProgress, serialPorts, serialPort, progress, restoreFile, statusText)
    }

    ghost predicate Valid()
      reads this, backupProgress
    {
      |serialPorts| > 0 && (backupProgress != null ==> backupProgress.Valid())
    }

    /** `BackupTab::new`, given what port enumeration returned: idle, with a non-empty port list. */
    constructor (enumerated: seq<SerialItem>)
      ensures Valid()
      ensures Fields() == BackupFields(false, null, WithPlaceholder(GetPorts(enumerated)), None, 0.0, None, "")
    {
      var ports := GetPorts(enumerated);
      if |ports| == 0 {
        ports := ports + [Placeholder];
      }
      progress := 0.0;
      backupInProgress := false;
      backupProgress := null;
      serialPorts := ports;
      serialPort := None;
      restoreFile := None;
      statusText := "";
    }

    /** `BackupTab::update`. */
    method Update(msg: BackupMessage) returns (out: Outcome)
      requires Valid()
      modifies this, backupProgress
      ensures Valid()
      ensures msg.BackupPressed? ==>
        out == Done && Fields() == old(Fields()).(progress := 0.0, backupInProgress := true)
      ensures msg.RestorePressed? || msg.FilePath? ==>
        out == Done && Fields() == old(Fields())
      ensures msg.OpenRestoreFilePressed? ==>
        out == Perform(PickFile, AsFilePath) && Fields() == old(Fields())
      ensures msg.RestoreFileSelected? ==>
        out == Done && Fields() == old(Fields()).(restoreFile := msg.file)
      ensures msg.PortSelected? ==>
        out == Done && Fields() == old(Fields()).(serialPort := Some(msg.port))
      ensures msg.StartBackup? && old(serialPort).None? ==>
        out == Panic(NoPortText) && Fields() == old(Fields())
      ensures msg.StartBackup? && old(serialPort).Some? ==>
        out == SpawnedBackup(old(serialPort).value.name, msg.path) &&
        backupProgress != null && fresh(backupProgress) && backupProgress.pending == [] &&
        Fields() == old(Fields()).(backupProgress := backupProgress)
      ensures msg.Tick? && old(backupInProgress && backupProgress != null) ==>
        out == Done && backupProgress == old(backupProgress) && backupProgress.pending == [] &&
        Fields() == old(Fields()).(
          progress := Drain(old(backupProgress.pending), old(statusText)).progress,
          statusText := Drain(old(backupProgress.pending), old(statusText)).statusText)
      ensures msg.Tick? && !old(backupInProgress && backupProgress != null) ==>
        out == Done && Fields() == old(Fields())
      ensures !(msg.Tick? && old(backupInProgress)) && old(backupProgress) != null ==>
        old(backupProgress).pending == old(backupProgress.pending)
    {
      out := Done;
      match msg {
        case BackupPressed =>
          progress := 0.0;
          backupInProgress := true;
        case RestorePressed =>
        case OpenRestoreFilePressed =>
          out := Perform(PickFile, AsFilePath);
        case RestoreFileSelected(file) =>
          restoreFile := file;
        case StartBackup(path) =>
          match serialPort {
            case Some(p) =>
              backupProgress := new ProgressChannel();
              out := SpawnedBackup(p.name, path);
            case None =>
              out := Panic(NoPortText);
          }
        case PortSelected(port) =>
          serialPort := Some(port);
        case Tick =>
          if backupInProgress && backupProgress != null {
            ghost var text := statusText;
            ghost var reading := Drain(backupProgress.pending, statusText);
            var last := backupProgress.TryIterLast();
            var sample: Sample;
            match last {
              case Some(x) =>
                sample := x;
              case None =>
                statusText := CompleteText;
                sample := Sample(100, 100);
            }
            progress := Ratio(sample);
            if sample.transferred < sample.total {
              statusText := SampleText(sample);
            }
            assert progress == reading.progress && statusText == reading.statusText;
          }
        case FilePath(_) =>
      }
    }
  }

  /**
    A client: select a port, start a backup into a folder, let the worker
    send two samples, and tick twice.
   */
  method BackupSession() {
    var tab := new BackupTab([SerialItem("COM3", None, None)]);
    var out := tab.Update(PortSelected(SerialPort("COM3", "", "")));
    out := tab.Update(BackupPressed);
    assert tab.progress == 0.0 && tab.backupInProgress;
    out := tab.Update(StartBackup(Some("/tmp/backup")));
    assert out == SpawnedBackup("COM3", Some("/tmp/backup"));
    var channel := tab.backupProgress;
    channel.Send(Sample(50, 200));
    channel.Send(Sample(200, 200));
    out := tab.Update(Tick);
    assert Last([Sample(50, 200), Sample(200, 200)]) == Some(Sample(200, 200));
    assert tab.progress == 100.0 && tab.statusText == "";
    out := tab.Update(Tick);
    assert tab.progress == 100.0 && tab.statusText == CompleteText;
  }
}
