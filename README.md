# OpenRTX Companion: per-tab message state machines

This project models the message handlers of the OpenRTX Companion desktop tool.
The tool flashes firmware onto a handheld radio and backs up its contents over a
serial link. The model covers three state machines:

- the backup tab (`BackupTab::new`, `BackupTab::update`);
- the application window (`App::new`, `App::update`);
- the flash tab (`FlashTab::new`, `FlashTab::update`), with the radio hardware list and its labels.

A backup runs on a worker thread and reports `(transferred, total)` byte counts
through a channel. Here the receiving end is a `ProgressChannel` object that owns a
buffer of samples. The worker's `send` appends to it (`Send`), and a tick drains it
(`TryIterLast`). A pure function `Drain` states what one tick leaves in the progress
and status-text fields:

- only the last pending sample counts;
- an empty buffer reads as a complete `(100, 100)` sample with the text "Backup complete!";
- the text becomes "t/total" only while `t < total`; otherwise the old text stays.

Both tick handlers are proved against `Drain`. The lemmas about `Drain` give its meaning:
- only the latest sample counts;
- when the last sample is no further than its total, the progress lies in [0, 100], and it is 100 exactly when the buffer is empty or the last sample is full;
- two ticks that both find a sample of one transfer, with transferred not decreasing, do not show falling progress;
- while t < total, the status text reads back as exactly the latest sample; otherwise it keeps its old value.

An empty buffer only means that nothing was pending when the tick came, not that the
backup finished, so these lemmas do not make progress monotone over every run (see below).

`BackupTab` and `App` each have a ghost `Fields()` value. Every message's postcondition
gives the whole new state as an update of `old(Fields())`, so it also says which fields
stay the same. `FlashTab` has three fields, and `Update` names all three for FlashPressed
and states `unchanged(this)` for the other messages. `ProgressChannel` has one field, its
buffer, which each method states outright. A method that starts a worker, calls the
flashing library, opens a dialog or panics returns an `Outcome` that says so.

A behaviour of the code that the model keeps: a tick reads an empty buffer as completion,
even while the worker is still running. So with a slow worker, the progress can read 25,
then 100 with "Backup complete!", then 50 (`Progress.ProgressCanFallBack`).

The code does not do the following, and neither does the model:
- refuse to start a backup while another one runs;
- write a "Starting…" text when a backup starts;
- report a Failed status;
- refuse port or file selection while a backup runs;
- tag the restore-file picker's `FilePath` reply with the tab that asked for it.

## Model

| member | source | states |
|---|---|---|
| Decimal.NatToString | src/backup.rs:162 | the decimal text of a byte count is non-empty, all digits, with no leading zero |
| Decimal.ParseNatToString | src/backup.rs:162 | reading a number's decimal text back gives the number |
| Decimal.NatToStringInjective | src/backup.rs:162 | different counts have different decimal texts |
| Radio.All | src/flash.rs:31-37 | the hardware list has three entries, contains every model and repeats none |
| Radio.NameInjective | src/flash.rs:40-47 | two different models never have the same label |
| Radio.SelectorLabels | src/flash.rs:31-47 | in list order, the labels are "MD3x0", "MD-UV3x0", "T-TWR Plus" |
| Serial.FromItem | src/backup.rs:47-53 | a port keeps the item's name; a missing vendor or product becomes "" |
| Serial.GetPorts | src/backup.rs:45-54 | one port per enumerated item, in the same order |
| Serial.WithPlaceholder | src/backup.rs:81-89 | the list is never empty; an empty enumeration gives exactly the "No serial port found!" entry with empty vendor and product; otherwise the enumeration is kept |
| Serial.DisplayIsName | src/backup.rs:27-31 | a port is displayed as its name; vendor and product do not show |
| Progress.ProgressChannel.constructor | src/backup.rs:141-142 | a new channel holds no samples |
| Progress.ProgressChannel.Send | src/backup.rs:143-146 | a sample the worker sends goes after the pending ones |
| Progress.ProgressChannel.TryIterLast | src/backup.rs:156 | the whole buffer is emptied and its last sample (None if it was empty) is returned |
| Progress.SampleTextRoundTrip | src/backup.rs:161-163 | the "t/total" text parses back to exactly the sample (t, total) |
| Progress.DrainEmpty | src/backup.rs:156-160 | an empty buffer gives progress 100 and the text "Backup complete!", whatever the text was |
| Progress.DrainLatestOnly | src/backup.rs:156 | the drain's result depends only on the last sample; the earlier ones are dropped |
| Progress.DrainInRange | src/backup.rs:160 | when t <= total, progress lies in [0, 100]; it is 100 iff the buffer was empty or t == total |
| Progress.DrainStatusText | src/backup.rs:161-163 | while t < total, the new text reads back as the last sample; otherwise the text is unchanged |
| Progress.DrainMonotone | src/backup.rs:160 | for two ticks of one transfer that both find a sample, progress does not fall when transferred does not fall |
| Progress.ProgressCanFallBack | src/backup.rs:156-163 | an empty buffer mid-transfer reads as complete, so progress can go 25, 100, 50 |
| Backup.BackupTab.constructor | src/backup.rs:80-100 | idle start: progress 0, not in progress, no receiver, no port, no restore file, empty text, placeholder port list |
| Backup.BackupTab.Update | src/backup.rs:102-170 | BackupPressed sets only progress 0 and in-progress. PortSelected and RestoreFileSelected set only their field. RestorePressed and FilePath change nothing. The file picker replies with FilePath. StartBackup panics without a port, otherwise it installs a fresh empty receiver and starts a worker on the port's name. Tick changes nothing unless in progress with a receiver; then it empties the buffer and sets progress and text as Drain says |
| Flash.FlashTab.constructor | src/flash.rs:57-62 | progress 0, no flash in progress |
| Flash.FlashTab.Update | src/flash.rs:64-100 | FlashPressed sets progress 0, flash in progress and backup not in progress, whether or not flashing fails, and reports that the blocking flash call ran and what it returned. OpenFWPressed opens a file picker that replies with OpenFile. OpenFile changes nothing |
| Companion.Incremented | src/main.rs:140-143 | the counter goes up by exactly 1, wrapping from the i32 maximum to the minimum |
| Companion.Decremented | src/main.rs:144-147 | the counter goes down by exactly 1, wrapping from the i32 minimum to the maximum |
| Companion.IncrementDecrementInverse | src/main.rs:140-147 | decrement undoes increment and increment undoes decrement, for every i32 |
| Companion.FlashTicksRunning | src/main.rs:154-160 | from progress 0 with the flag set, ticks 1 to 20 of the flash step add 5 each and the flash keeps running (in `App` this state is never reached; see FlashNeverStartsInApp) |
| Companion.FlashTicksStop | src/main.rs:154-160 | from progress 0 with the flag set, the 21st tick of the flash step reaches 105 and clears the flag; later ticks change nothing (in `App` this state is never reached; see FlashNeverStartsInApp) |
| Companion.App.constructor | src/main.rs:112-131 | Flash tab active, counter 0, progress 0, divider at 150, no selection, both flags false, no receiver, no port, text "Select an action" |
| Companion.App.Update | src/main.rs:137-211 | TabSelected sets only the tab. Increment and Decrement change only the counter. OnVerResize ignores its argument and pins the divider to 150. SliderChanged sets progress. LanguageSelected sets the selection. BackupPressed sets backup on and flash off, then opens a folder picker that replies with StartBackup. StartBackup panics without a port, otherwise installs a fresh empty receiver. Tick runs the flash step, then the same drain as the backup tab |
| Companion.FlashNeverStartsInApp | src/main.rs:112-211 | from a new window, after any sequence of messages, `flashInProgress` is still false: no arm of `App::update` sets it, so the flash half of Tick never runs |

## Left out

- Widget construction, rendering, themes, tab labels and the `view`/`content` builders are UI code. Several of these fragments do not compile.
- The 500 ms subscription is out: `Tick` is an abstract message.
- The worker thread, the real channel, the serial link and the backup protocol are concurrency and foreign calls. The worker is modelled only as something that calls `Send`. The thread's own failure (`expect("Error in opening serial port!")`) is not modelled.
- The foreign flashing call is out; its result is a parameter of `FlashTab.Update`. The code only prints an error. The model hands the result back in the `FlashedRadio` outcome, and leaves the printing out.
- Port enumeration (`get_serial_list`) is a constructor argument.
- OS dialogs are out. A picker's answer arrives as the message named in the returned `Outcome`. The "file:///" prefix added to the path is not modelled.
- Icon loading, logging, the Windows console attach and `main` are process setup.
- All `println!`/`debug!` output is left out, including the three lines BackupPressed prints in the backup tab.
- `SerialPort`'s `Debug` formatting is out, because it is diagnostic output only.
- `Progress.ProgressChannel.Send`: `f32` is modelled as exact reals, so samples must have a positive total. At total 0 the code divides a float by zero.
- `Progress.Drain`: the ratio is exact, not rounded to `f32`. The +5.0 steps of the flash tick are exact too.
- `Companion.Incremented` and `Companion.Decremented` model wrap-around. That is what a release build does; a debug build panics on overflow instead.
- `App::update` has no arm for `FlashPressed`, `OpenFWPressed` or `OpenFile`, so the match does not compile. The model treats these messages as changing nothing in the application window.
- Because of that, no message turns `App`'s `flashInProgress` on. The window's "Flash Radio" button sends `FlashPressed`, and only the flash tab's handler sets a flash flag. So in `App` the flash half of `Tick` is dead code (`Companion.FlashNeverStartsInApp`). `Companion.FlashTicksRunning` and `Companion.FlashTicksStop` describe that flash step on its own, from the state the flash tab's FlashPressed sets. The model does not route the window's FlashPressed to the flash tab, because the code does not.
- The restore-file picker of the backup tab replies with `Message::FilePath`. The application's `Message` enum has no such variant, so this does not compile either. The model delivers the reply as the backup tab's own `FilePath` message, which changes nothing.
- The `App` struct does not declare `flash_in_progress`, but `App::new` and `App::update` use it. It is modelled as a field.
- `FlashTab` uses `backup_in_progress` without declaring it. It is modelled as a field that the constructor sets to false.
- `FlashTab`'s `devices` field is never initialised by `new`. It is not modelled.
- The combo-box states (`ports_combo_state`) are widget state and are not modelled.
- The tab identifiers `Flash`, `Backup` and `Files` are named `FlashTab`, `BackupTab` and `FilesTab`, so they do not clash with module names.
