# OpenAuraCLI front end, modelled in Dafny

This project models the command-line front end of OpenAuraCLI. The front end
reads `argv` into an `Options` record: a device number, a list of
`(r, g, b)` colours, an effect mode and a `direct` flag. It then turns that
record into calls on the detected Aura controllers: `SetDirect`, one
`SetLEDColorDirect` or `SetLEDColorEffect` per LED, and `SetMode`.

Modules:

- `AuraTypes` (`types.dfy`): bytes, C++ `int`, colours, the eight modes,
  the `Settings` value of a record, and the `Options` class the functions
  update in place.
- `StdStoi` (`stoi.dfy`): `std::stoi(s, nullptr, base)` for bases 10 and 16,
  with its leniencies. It skips leading white space, takes one sign, skips a
  `0x`/`0X` prefix in base 16 when a hex digit follows it, and converts the longest run of digits. When there
  is no digit or the value falls outside `int`, it gives `None` where C++
  throws.
- `ColorList` (`color_list.dfy`): `ParseColors`. Also `FormatColors` to
  write a list, and an independent reading that splits at every comma.
- `EffectNames` (`effect_names.dfy`): `ParseEffect` and the name/mode table.
- `ArgumentLoop` (`argument_loop.dfy`): `ProcessOptions`, the `Process`
  function it is proved against, and lemmas about the loop read as
  option/argument pairs ("slots").
- `Controller` (`controller.dfy`): an Aura controller with a fixed
  `ledCount`. Every call is recorded in one ghost hardware log shared by all
  controllers, as an entry of (controller, event).
- `Dispatcher` (`dispatcher.dfy`): `ApplyOptions`, specified by the event
  trace `DispatchTrace`. Also the device-selection step of `main`.
- `CliMain` (`cli_main.dfy`): `main` as a whole. It returns the exit
  status and leaves the log.

`mode` is never initialised in the source. It is an `Option<Mode>` here, and
`None` means no recognised `-e` name was written. `-c FF0000 -e bogus` makes
`ProcessOptions` succeed while `-e` has cleared `direct`. `ApplyOptions` then
calls `SetMode` with the unset mode; `UnsetModeReachesController` shows this.

`ApplyOptions` calls `SetMode` whenever `direct` is false, whether or not a
mode was recognised (OpenAuraCLI/OpenAuraCLI.cpp:206-207).

`ApplyOptions` does not check the device index
(OpenAuraCLI/OpenAuraCLI.cpp:177, :238). The model makes a valid index a
precondition (`DeviceInRange`).

## Model

| member | source | states |
|---|---|---|
| AuraTypes.Options.constructor | OpenAuraCLI/OpenAuraCLI.cpp:11-17 | A fresh record has device -1, no colours, an unset mode and `direct` true. |
| StdStoi.Strtol | OpenAuraCLI/OpenAuraCLI.cpp:63-65 | The conversion behind `std::stoi`: white space, one sign, a `0x`/`0X` prefix in base 16 when a hex digit follows it, then the longest digit run. A value needs a non-space character, and a negative value a minus sign as that character. |
| StdStoi.Stoi | OpenAuraCLI/OpenAuraCLI.cpp:141 | `std::stoi` yields a value only when the first character that is not white space is a sign or a digit of the base, so a `-d` argument that is not numeric in that sense is rejected (the converse of `StoiRejectsNonNumeric`). |
| StdStoi.DecimalRoundTrip | OpenAuraCLI/OpenAuraCLI.cpp:141 | `std::stoi` in base 10 reads every `int` back from its decimal text, including negative numbers. |
| StdStoi.StoiRejectsNonNumeric | OpenAuraCLI/OpenAuraCLI.cpp:139-146 | A string whose first character is not white space, a sign or a digit does not convert, so the `-d` argument is rejected. |
| StdStoi.StrtolDigits | OpenAuraCLI/OpenAuraCLI.cpp:141 | A string of decimal digits converts to its value. |
| StdStoi.StrtolOfNegative | OpenAuraCLI/OpenAuraCLI.cpp:141 | A minus sign followed by a digit run (with no `0x` prefix to skip) converts to the negated value of the run. |
| StdStoi.DecimalDigitsValue | OpenAuraCLI/OpenAuraCLI.cpp:141 | The decimal digits of `n` are non-empty, are all digits, form one run and have the value `n`. |
| ColorList.PairValueIsStoi | OpenAuraCLI/OpenAuraCLI.cpp:63-65 | The closed-form reading of a two-character channel equals `std::stoi(…, nullptr, 16)`. This covers leading space, sign, single-digit and non-digit cases. |
| ColorList.CommaIndex | OpenAuraCLI/OpenAuraCLI.cpp:56 | The result is the first comma's position, or the length (`npos`) when there is none: no comma before it, and a comma at it unless it is the length. |
| ColorList.DecodeTokenIsStoi | OpenAuraCLI/OpenAuraCLI.cpp:61-71 | A token decodes exactly when all three `std::stoi(…, nullptr, 16)` calls on characters 0-1, 2-3 and 4-5 succeed. Each channel is that value truncated to `unsigned char` (modulo 256). |
| ColorList.NegativeChannelWraps | OpenAuraCLI/OpenAuraCLI.cpp:63 | The truncation made concrete: the token `-F0000` decodes, and its red channel `-F` becomes 241. |
| ColorList.ParsedColorsBound | OpenAuraCLI/OpenAuraCLI.cpp:54-78 | `ParsedColors`, the colours the loop appends and which `ParseColors` is proved against: each takes six characters and all but the last a comma, so there are at most (length + 1) / 7 of them. |
| ColorList.ParseColors | OpenAuraCLI/OpenAuraCLI.cpp:52-81 | Only appends: the new list is the old one followed by the decoded tokens, left to right. Returns true iff the list is non-empty afterwards, even when nothing new was parsed. |
| ColorList.ParsedColorsIsGoodPrefix | OpenAuraCLI/OpenAuraCLI.cpp:54-77 | Parsing stops exactly at the first comma-separated field that is not six characters or does not convert. All fields before it are decoded, in order. |
| ColorList.DecodeHexToken | OpenAuraCLI/OpenAuraCLI.cpp:63-66 | A six-hex-digit token decodes to the hex values of characters 0-1, 2-3 and 4-5. |
| ColorList.DecodeFormatted | OpenAuraCLI/OpenAuraCLI.cpp:63-66 | A colour written as six upper-case hex digits decodes back to itself. |
| ColorList.FormattedHasNoComma | OpenAuraCLI/OpenAuraCLI.cpp:56-58 | A formatted colour contains no comma, so its token is exactly six characters. |
| ColorList.ParsedColorsAppend | OpenAuraCLI/OpenAuraCLI.cpp:54-78 | Formatted colours followed by a comma and any text parse as those colours, then whatever the text gives. |
| ColorList.ParsedColorsOfFormatted | OpenAuraCLI/OpenAuraCLI.cpp:54-78 | Parsing a comma-joined formatted list gives the list back. |
| ColorList.SplitCommas | OpenAuraCLI/OpenAuraCLI.cpp:56-77 | Splitting at every comma gives at least one field. No field holds a comma, and joining the fields with commas gives the string back. |
| EffectNames.ParseEffect | OpenAuraCLI/OpenAuraCLI.cpp:83-107 | Always clears `direct`. Returns true exactly for the eight names and then sets the mode for that name; otherwise leaves the mode unchanged. |
| EffectNames.EffectMode | OpenAuraCLI/OpenAuraCLI.cpp:87-104 | The if-chain from name to mode. A recognised name is always the listed name of the mode it selects. |
| EffectNames.EffectModeInverse | OpenAuraCLI/OpenAuraCLI.cpp:87-102 | A name selects mode `m` iff it is `m`'s name, so each of the eight names has its own mode. |
| EffectNames.EffectModeDomain | OpenAuraCLI/OpenAuraCLI.cpp:87-104 | Exactly the eight listed names are recognised. |
| ArgumentLoop.ProcessOptions | OpenAuraCLI/OpenAuraCLI.cpp:109-173 | The loop's outcome and the record's new value are those `Process` gives for the old value. |
| ArgumentLoop.AcceptedIff | OpenAuraCLI/OpenAuraCLI.cpp:109-172 | On the fresh record, the loop returns true iff every pair is accepted (a known option, an argument, a numeric `-d` value) and some `-c` list is non-empty or some `-e` name is recognised. |
| ArgumentLoop.ProcessAccepted | OpenAuraCLI/OpenAuraCLI.cpp:148-172 | With every pair accepted, the loop returns true iff a flag was already set or some `-c`/`-e` parse succeeds. |
| ArgumentLoop.ProcessRejected | OpenAuraCLI/OpenAuraCLI.cpp:133-168 | An unknown option, a missing argument or a non-numeric `-d` value makes the loop return false, unless `-l`/`-h` exits earlier. |
| ArgumentLoop.ProcessExits | OpenAuraCLI/OpenAuraCLI.cpp:120-132 | The process exits with reason `r` iff some option slot names `-l`/`-h` for `r` and every earlier pair is accepted. |
| ArgumentLoop.ProcessStep | OpenAuraCLI/OpenAuraCLI.cpp:135-169 | One accepted pair consumes two `argv` entries. It changes only the field its option sets and updates the success flags. |
| ArgumentLoop.SlotStep | OpenAuraCLI/OpenAuraCLI.cpp:163-169 | The option slots from `i` on are `i` itself and the slots from `i + 2` on. |
| ArgumentLoop.ProcessDevice | OpenAuraCLI/OpenAuraCLI.cpp:137-147 | The device is the value of the last `-d`, so a later `-d` overrides an earlier one. Without any `-d` it is the initial device. |
| ArgumentLoop.ProcessDirect | OpenAuraCLI/OpenAuraCLI.cpp:153-157 | `direct` stays true exactly when no `-e` is given, whatever the name, because `ParseEffect` clears it first. |
| ArgumentLoop.ProcessMode | OpenAuraCLI/OpenAuraCLI.cpp:153-157 | The mode is the one the last recognised `-e` names. With no recognised `-e`, the mode is unchanged. |
| ArgumentLoop.ProcessColors | OpenAuraCLI/OpenAuraCLI.cpp:148-152 | The colour list is the initial one followed by every `-c` list's colours, in order. |
| Controller.AuraController.SetDirect | OpenAuraCLI/OpenAuraCLI.cpp:178 | Appends one `SetDirect` event for this controller to the log. |
| Controller.AuraController.SetLEDColorDirect | OpenAuraCLI/OpenAuraCLI.cpp:191-194 | Appends one direct LED write for this controller to the log. |
| Controller.AuraController.SetLEDColorEffect | OpenAuraCLI/OpenAuraCLI.cpp:198-201 | Appends one effect LED write for this controller to the log. |
| Controller.AuraController.SetMode | OpenAuraCLI/OpenAuraCLI.cpp:207 | Appends one `SetMode` event for this controller to the log. |
| Dispatcher.ApplyOptions | OpenAuraCLI/OpenAuraCLI.cpp:175-209 | Exactly the calls `DispatchTrace` gives are appended to the log, tagged with the selected controller. `last_set_color` is a valid index whenever it is read. |
| Dispatcher.LedWritesAt | OpenAuraCLI/OpenAuraCLI.cpp:182-203 | The k-th LED write goes to LED k, on the path `direct` selects. It writes `colors[min(k, M - 1)]`. |
| Dispatcher.DispatchSetsDirectFirst | OpenAuraCLI/OpenAuraCLI.cpp:178 | `SetDirect(direct)` is the first call and the only one of its kind. |
| Dispatcher.DispatchWritesEveryLed | OpenAuraCLI/OpenAuraCLI.cpp:179-204 | With M >= 1 colours and N LEDs, calls 1..N are one write per LED in ascending order, with the filled-forward colour. With no colours there is no LED write. |
| Dispatcher.DispatchSetsModeLast | OpenAuraCLI/OpenAuraCLI.cpp:206-208 | `SetMode` is called iff `direct` is false. It is then called once, as the last call, with the record's mode. |
| Dispatcher.FiveLedsDirect | OpenAuraCLI/OpenAuraCLI.cpp:179-204 | Two colours on five LEDs, direct: LED 0 gets the first colour, LEDs 1-4 the second, and there is no `SetMode`. |
| Dispatcher.ThreeLedsBreathing | OpenAuraCLI/OpenAuraCLI.cpp:179-208 | One colour, breathing, three LEDs: three effect writes, then `SetMode(Breathing)`. |
| Dispatcher.AllDevicesLogControllers | OpenAuraCLI/OpenAuraCLI.cpp:231-234 | `AllDevicesLog` is the log of the all-devices loop over the first `count` controllers. Only those controllers receive calls. |
| Dispatcher.AllDevicesInIndexOrder | OpenAuraCLI/OpenAuraCLI.cpp:229-235 | Applying to all devices calls `SetDirect` once per controller, in index order 0..count-1. |
| Dispatcher.SetDirectTargetsAppend | OpenAuraCLI/OpenAuraCLI.cpp:231-234 | The controllers that get `SetDirect` in two consecutive stretches of the log are those of the first stretch, then those of the second. |
| Dispatcher.ApplyToAllDevices | OpenAuraCLI/OpenAuraCLI.cpp:231-234 | The loop over all controllers appends exactly `AllDevicesLog` for every controller: each one's dispatch trace, in index order. |
| Dispatcher.ApplyToDevices | OpenAuraCLI/OpenAuraCLI.cpp:229-239 | With device -1, every controller gets its dispatch trace, in index order. Otherwise only the selected one does. |
| CliMain.RunCli | OpenAuraCLI/OpenAuraCLI.cpp:211-242 | Returns the status `ExitCode` gives and leaves exactly the calls `CliLog` gives in the log. |
| CliMain.ExitCodeFailure | OpenAuraCLI/OpenAuraCLI.cpp:211-227 | `main` returns -1 iff `argc` is not 1, no `-l`/`-h` is reached, and some pair is rejected or nothing is set. |
| CliMain.UnsetModeReachesController | OpenAuraCLI/OpenAuraCLI.cpp:206-207 | `-c FF0000 -e bogus` succeeds with one red colour and `direct` false. Every controller's last call is then `SetMode` with the mode the record never initialised. |

## Left out

- Controller detection (`DetectI2CBusses`, `DetectAuraControllers`) is SMBus/I2C hardware I/O. The controller list is an input to `RunCli`.
- The register writes behind `SetDirect`, `SetLEDColorDirect`, `SetLEDColorEffect` and `SetMode` are not modelled. They are recorded as log events only, and `GetLEDCount()` is the constant `ledCount`.
- `PrintHelp` and the device listing of `-l` are console output. `-l`/`-h` end the loop as an `Exited` outcome with status 0, and the other `PrintHelp` calls are not modelled.
- The numeric values of the `AURA_MODE_*` constants are not modelled, because their header is not part of this model. A mode is one of eight constructors.
- Strings are sequences of Dafny characters, not bytes. `isspace` is that of the C locale.
- Dispatcher.ApplyOptions: the device index is a precondition. The source reads out of bounds for a bad index, and that behaviour is not modelled.
- CliMain.RunCli: requires `DeviceInRange`. A `-d` value outside the controller list is undefined behaviour in the source and is not modelled.
- ArgumentLoop.ProcessOptions: `argv` entries are Dafny strings, so the C `char *` conversion is not modelled.
