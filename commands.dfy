/** What an `update` handler hands back to the runtime besides its state change. */
module Commands {
  import opened Wrappers

  /** The OS dialog a command opens. */
  datatype Picker = PickFile | PickFolder

  /** The message the dialog's result (a path, or None on cancel) comes back as. */
  datatype Reply = AsFilePath | AsStartBackup | AsOpenFile

  datatype Outcome =
    | Done                                              // `Command::none()`
    | Perform(picker: Picker, reply: Reply)             // `Command::perform(dialog, reply)`
    | SpawnedBackup(port: string, path: Option<string>) // a backup thread started; `Command::none()`
    | FlashedRadio(error: Option<string>)               // the blocking flash call ran; an error is only printed
    | Panic(reason: string)                             // `panic!(reason)`

  /** The panic message of StartBackup when no serial port is selected. */
  const NoPortText := "No serial port selected!"
}
