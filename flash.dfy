/** The flash tab: its fields and its message handler. */
module Flash {
  import opened Wrappers
  import opened Commands

  datatype FlashMessage =
    | FlashPressed
    | OpenFWPressed
    | OpenFile(file: Option<string>)

  class FlashTab {
    var progress: real
    var flashInProgress: bool
    var backupInProgress: bool

    /** `FlashTab::new`: nothing flashed yet. */
    constructor ()
      ensures progress == 0.0 && !flashInProgress && !backupInProgress
    {
      progress := 0.0;
      flashInProgress := false;
      backupInProgress := false;
    }

    /**
      `FlashTab::update`. `flashError` is what the foreign flashing call
      returns on FlashPressed (None for success); it is only printed, so the
      new state does not depend on it.
     */
    method Update(msg: FlashMessage, flashError: Option<string>) returns (out: Outcome)
      modifies this
      ensures msg.FlashPressed? ==>
        out == FlashedRadio(flashError) && progress == 0.0 && flashInProgress && !backupInProgress
      ensures msg.OpenFWPressed? ==>
        out == Perform(PickFile, AsOpenFile) && unchanged(this)
      ensures msg.OpenFile? ==>
        out == Done && unchanged(this)
    {
      out := Done;
      match msg {
        case FlashPressed =>
          progress := 0.0;
          flashInProgress := true;
          backupInProgress := false;
          out := FlashedRadio(flashError);
        case OpenFWPressed =>
          out := Perform(PickFile, AsOpenFile);
        case OpenFile(_) =>
      }
    }
  }

  /** Whether the flashing call fails or not, FlashPressed leaves the same state; only the reported outcome differs. */
  method FlashOutcomeIgnored(error: string) {
    var a := new FlashTab();
    var b := new FlashTab();
    var outA := a.Update(FlashPressed, None);
    var outB := b.Update(FlashPressed, Some(error));
    assert outA == FlashedRadio(None) && outB == FlashedRadio(Some(error));
    assert a.progress == b.progress && a.flashInProgress == b.flashInProgress;
    assert a.backupInProgress == b.backupInProgress;
  }
}
