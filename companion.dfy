/** The application window: its state, its message handler and the simulated flash progress. */
module Companion {
  import opened Wrappers
  import opened Radio
  import opened Serial
  import opened Progress
  import opened Commands

  /** `i32`, and `u16` for the divider position. */
  type I32 = x: int | -0x8000_0000 <= x < 0x8000_0000
  type U16 = x: int | 0 <= x < 0x1_0000

  const I32Min: I32 := -0x8000_0000
  const I32Max: I32 := 0x7fff_ffff

  /** Two's-complement wrap-around of an arbitrary integer into `i32`. */
  function Wrap(x: int): I32 {
    (x + 0x8000_0000) % 0x1_0000_0000 - 0x8000_0000
  }

  /** `value += 1` on an `i32` without overflow checks. */
  function Incremented(v: I32): (r: I32)
    ensures v < I32Max ==> r == v + 1
    ensures v == I32Max ==> r == I32Min
  {
    Wrap(v + 1)
  }

  /** `value -= 1` on an `i32` without overflow checks. */
  function Decremented(v: I32): (r: I32)
    ensures v > I32Min ==> r == v - 1
    ensures v == I32Min ==> r == I32Max
  {
    Wrap(v - 1)
  }

  /** Decrement undoes increment, and increment undoes decrement, for every value. */
  lemma IncrementDecrementInverse(v: I32)
    ensures Decremented(Incremented(v)) == v
    ensures Incremented(Decremented(v)) == v
  {
  }

  /** The position the divider is pinned to. */
  const DividerPosition: U16 := 150

  datatype TabId = FlashTab | BackupTab | FilesTab

  datatype Message =
    | TabSelected(tab: TabId)
    | IncrementPressed
    | DecrementPressed
    | OnVerResize(position: U16)
    | SliderChanged(x: real)
    | LanguageSelected(hw: RadioHW)
    | Tick
    | FlashPressed
    | OpenFWPressed
    | OpenFile(file: Option<string>)
    | BackupPressed
    | StartBackup(path: Option<string>)
    | PortSelected(port: SerialPort)

  /** The simulated flash progress: the bar value and whether a flash is running. */
  datatype FlashState = FlashState(progress: real, flashing: bool)

  /** The flash half of a tick: +5 while flashing, stopping once past 100. */
  function FlashTick(s: FlashState): FlashState {
    if s.flashing then
      var p := s.progress + 5.0;
      FlashState(p, !(p > 100.0))
    else
      s
  }

  /** `n` ticks in a row. */
  function FlashTicks(s: FlashState, n: nat): FlashState {
    if n == 0 then s else FlashTick(FlashTicks(s, n - 1))
  }

  /** Starting from 0, the first twenty ticks add 5 each and the flash keeps running. */
  lemma {:induction false} FlashTicksRunning(n: nat)
    requires n <= 20
    ensures FlashTicks(FlashState(0.0, true), n) == FlashState(5.0 * n as real, true)
  {
    if n > 0 {
      FlashTicksRunning(n - 1);
    }
  }

  /** Starting from 0, the 21st tick reaches 105 and ends the flash; later ticks change nothing. */
  lemma {:induction false} FlashTicksStop(n: nat)
    requires n >= 21
    ensures FlashTicks(FlashState(0.0, true), n) == FlashState(105.0, false)
  {
    if n == 21 {
      FlashTicksRunning(20);
    } else {
      FlashTicksStop(n - 1);
    }
  }

  /** The values of the application's fields; `backupProgress` is the receiver, null for None. */
  datatype AppFields = AppFields(
    activeTab: TabId,
    value: I32,
    progress: real,
    verDividerPosition: Option<U16>,
    selection: Option<RadioHW>,
    flashInProgress: bool,
    backupInProgress: bool,
    backupProgress: ProgressChannel?,
    serialPorts: seq<SerialPort>,
    serialPort: Option<SerialPort>,
    statusText: string)

  const InitialText := "Select an action"

  class App {
    var activeTab: TabId
    var value: I32
    var progress: real
    var verDividerPosition: Option<U16>
    var selection: Option<RadioHW>
    var flashInProgress: bool
    var backupInProgress: bool
    var backupProgress: ProgressChannel?
    var serialPorts: seq<SerialPort>
    var serialPort: Option<SerialPort>
    var statusText: string

    ghost function Fields(): AppFields
      reads this
    {
      AppFields(activeTab, value, progress, verDividerPosition, selection, flashInProgress,
                backupInProgress, backupProgress, serialPorts, serialPort, statusText)
    }

    ghost predicate Valid()
      reads this, backupProgress
    {
      backupProgress != null ==> backupProgress.Valid()
    }

    /** `App::new`, given what port enumeration returned (no placeholder here). */
    constructor (enumerated: seq<SerialItem>)
      ensures Valid()
      ensures Fields() == AppFields(FlashTab, 0, 0.0, Some(DividerPosition), None, false, false,
                                    null, GetPorts(enumerated), None, InitialText)
    {
      activeTab := FlashTab;
      value := 0;
      progress := 0.0;
      verDividerPosition := Some(150);
      selection := None;
      flashInProgress := false;
      backupInProgress := false;
      backupProgress := null;
      serialPorts := GetPorts(enumerated);
      serialPort := None;
      statusText := InitialText;
    }

    /** `App::update`. */
    method Update(msg: Message) returns (out: Outcome)
      requires Valid()
      modifies this, backupProgress
      ensures Valid()
      ensures msg.TabSelected? ==>
        out == Done && Fields() == old(Fields()).(activeTab := msg.tab)
      ensures msg.IncrementPressed? ==>
        out == Done && Fields() == old(Fields()).(value := Incremented(old(value)))
      ensures msg.DecrementPressed? ==>
        out == Done && Fields() == old(Fields()).(value := Decremented(old(value)))
      ensures msg.OnVerResize? ==>
        out == Done && Fields() == old(Fields()).(verDividerPosition := Some(DividerPosition))
      ensures msg.SliderChanged? ==>
        out == Done && Fields() == old(Fields()).(progress := msg.x)
      ensures msg.LanguageSelected? ==>
        out == Done && Fields() == old(Fields()).(selection := Some(msg.hw))
      ensures msg.FlashPressed? || msg.OpenFWPressed? || msg.OpenFile? ==>
        out == Done && Fields() == old(Fields())
      ensures msg.BackupPressed? ==>
        out == Perform(PickFolder, AsStartBackup) &&
        Fields() == old(Fields()).(backupInProgress := true, flashInProgress := false)
      ensures msg.StartBackup? && old(serialPort).None? ==>
        out == Panic(NoPortText) && Fields() == old(Fields())
      ensures msg.StartBackup? && old(serialPort).Some? ==>
        out == SpawnedBackup(old(serialPort).value.name, msg.path) &&
        backupProgress != null && fresh(backupProgress) && backupProgress.pending == [] &&
        Fields() == old(Fields()).(backupProgress := backupProgress)
      ensures msg.PortSelected? ==>
        out == Done && Fields() == old(Fields()).(serialPort := Some(msg.port))
      ensures msg.Tick? && old(backupInProgress && backupProgress != null) ==>
        out == Done && backupProgress == old(backupProgress) && backupProgress.pending == [] &&
        Fields() == old(Fields()).(
          flashInProgress := FlashTick(FlashState(old(progress), old(flashInProgress))).flashing,
          progress := Drain(old(backupProgress.pending), old(statusText)).progress,
          statusText := Drain(old(backupProgress.pending), old(statusText)).statusText)
      ensures msg.Tick? && !old(backupInProgress && backupProgress != null) ==>
        out == Done &&
        Fields() == old(Fields()).(
          flashInProgress := FlashTick(FlashState(old(progress), old(flashInProgress))).flashing,
          progress := FlashTick(FlashState(old(progress), old(flashInProgress))).progress)
      ensures !(msg.Tick? && old(backupInProgress)) && old(backupProgress) != null ==>
        old(backupProgress).pending == old(backupProgress.pending)
    {
      out := Done;
      match msg {
        case TabSelected(selected) =>
          activeTab := selected;
        case IncrementPressed =>
          value := Incremented(value);
        case DecrementPressed =>
          value := Decremented(value);
        case OnVerResize(_) =>
          verDividerPosition := Some(150);
        case SliderChanged(x) =>
          progress := x;
        case LanguageSelected(hw) =>
          selection := Some(hw);
        case Tick =>
          if flashInProgress {
            progress := progress + 5.0;
            if progress > 100.0 {
              flashInProgress := false;
            }
          }
          if backupInProgress && backupProgress != null {
            ghost var reading := Drain(backupProgress.pending, statusText);
            var last := backupProgress.TryIterLast();
            var sample: Sample;
            match last {
              case Some(x) =>
                sample := x;
              case None =>
                statusText := CompleteText;
                sample := Sample(100, 100);
            }
            progress := Ratio(sample);
            if sample.transferred < sample.total {
              statusText := SampleText(sample);
            }
            assert progress == reading.progress && statusText == reading.statusText;
          }
        case FlashPressed =>
        case OpenFWPressed =>
        case OpenFile(_) =>
        case BackupPressed =>
          backupInProgress := true;
          flashInProgress := false;
          out := Perform(PickFolder, AsStartBackup);
        case StartBackup(path) =>
          match serialPort {
            case Some(p) =>
              backupProgress := new ProgressChannel();
              out := SpawnedBackup(p.name, path);
            case None =>
              out := Panic(NoPortText);
          }
        case PortSelected(port) =>
          serialPort := Some(port);
      }
    }
  }

  /**
    No message of the application window turns the flash on: after any
    sequence of messages from a new window, `flashInProgress` is still false,
    so the flash half of Tick never runs there.
   */
  method FlashNeverStartsInApp(enumerated: seq<SerialItem>, msgs: seq<Message>) returns (app: App)
    ensures app.Valid() && !app.flashInProgress
  {
    app := new App(enumerated);
    var i := 0;
    while i < |msgs|
      invariant 0 <= i <= |msgs|
      invariant fresh(app) && app.Valid() && !app.flashInProgress
      invariant app.backupProgress == null || fresh(app.backupProgress)
    {
      var _ := app.Update(msgs[i]);
      i := i + 1;
    }
  }
}
