# barcode-scanner, modelled in Dafny

The Go package `barcode-scanner` reads USB HID barcode scanners. A scanner
types a barcode the way a keyboard does. It sends one 8-byte keyboard report
per key: byte 0 holds the modifiers (2 means left Shift) and byte 2 holds the
HID usage code of the key. `ParseBuffer` decodes one report into a token:

- `"ENTER"` for the terminator report;
- `"SHIFT"` for a bare Shift report;
- otherwise an entry of the `Keys` or `UpperKeys` table, chosen by the Shift
  modifier.

The package offers three entry points:

- `CRead` reads reports forever. It collects the tokens other than `"ENTER"` and
  `"SHIFT"` and, on Enter, sends their concatenation down a channel.
- `Read` insists on a complete first report, then collects tokens up to the
  first Enter after that report and returns them. An Enter in the first report
  does not end the read.
- `GetScanners` lists the attached devices that match a vendor and product id.
  The descriptor-walk variant (`scanner.go`) also binds each device to its
  first IN endpoint.

The repository holds two copies of this logic:

- `scanner.go` walks each device's descriptor tree to find the endpoint.
- `barcode.go` uses a fixed endpoint and adds pauses between reads.

Their decoding and read loops are otherwise the same, so one model serves
both. Their device selection differs, so each variant has its own module.

Modules:

- `Common` (common.dfy): byte and id widths, `Option`/`Result`, and
  `strings.Join` with an empty separator.
- `HidCodec` (codec.dfy): the key tables, the terminator and shift patterns,
  `sameSlice`, `isTerminator`, `isShift` and `ParseBuffer`. It also has an
  independent encoder `KeyStroke`, which turns a character into the report that
  types it. The encoder is not in the package: it stands for the scanner
  device, and it finds a character's key code with the table search
  `IndexFrom`. It serves only to state round trips.
- `Transport` (transport.dfy): one `endpoint.Read(data)`. A read is a
  `Transfer`: the bytes the device delivered, and whether the read failed. The
  read overwrites the front of the fixed 8-byte buffer in place and leaves the
  rest as it was.
- `ContinuousRead` (continuous.dfy): `CRead`. The state is a class
  `Assembler` holding the 8-byte buffer `data`, the pending tokens `out`, and
  the strings sent so far. `CRead` runs over a finite trace of reads and is
  proved against the function `Run`.
- `SingleRead` (single.dfy): `Read`, a method with a `while` loop, proved
  against the function `ReadSpec`.
- `Usb` (usb.dfy): the parts of the USB library the code reads. These are the
  descriptor tree and `ListDevices`.
- `Selection` (selection.dfy): `GetScanners` of `scanner.go`. It has the vendor
  predicate with a product wildcard and the four-level endpoint walk, proved
  against `Pick` and `GetScannersSpec`.
- `BarcodeSelection` (barcode_selection.dfy): `GetScanners` of `barcode.go`,
  with an exact vendor and product match and one scanner per listed device.

An infinite read loop becomes a finite trace here. When `Read` runs out of
reads before an Enter, the outcome is `Waiting` (the Go code would still be
blocked in `endpoint.Read`). `CRead` run over a trace yields the strings it sent.

How the code differs from what its comments and test suggest:

- The terminator is the single report `[0,0,40,0,0,0,0,0]`. In `CRead` and in
  the loop of `Read`, any report with key code 40 decodes to `"ENTER"`, through
  the key tables. That holds whatever the modifiers are.
- The all-zero report is not a terminator. It decodes to the empty string
  `Keys[0]`, which is appended to `out`. `ExampleZeroReport` shows this case.
- `CRead` tests `len(out) > 0` on the list of tokens, not on their joined text.
  So a list holding only blank tokens is sent as `""`.
- In the loop of `Read`, a report that fails to parse appends `""`, because the
  parse error is discarded and the token is still compared with
  `TerminatorStr`.
- `CRead` and the loop of `Read` discard the byte count `endpoint.Read`
  returns. So a short read is not retried: it is decoded over the stale rest
  of `data`. `ShortReadOverStaleEnter` shows two bytes read over a stored Enter
  report decoding to `"ENTER"` and flushing `out`.
- The model follows the code in each of these cases.

## Model

| member | source | states |
|---|---|---|
| Common.Join | scanner.go:92 | `strings.Join(out, "")`: the joined length is the sum of the token lengths |
| Common.JoinAppend | scanner.go:92 | joining a concatenation is the concatenation of the joins |
| HidCodec.SameSlice | scanner.go:145-152 | `sameSlice(s1, s2)` is true exactly when `s1` equals the prefix of `s2` of its own length |
| HidCodec.IsTerminator | scanner.go:155-157 | true exactly when the buffer is a prefix of `Terminator` (the whole of it at length 8) |
| HidCodec.IsShift | scanner.go:160-162 | true exactly when the buffer is a prefix of `ShiftKey` |
| HidCodec.ParseBuffer | scanner.go:165-185 | the decoder itself: the length check, then the terminator test before the shift test, then the key-code bound and the table chosen by byte 0; its properties are stated by `RejectsWrongLength`, `PatternsDecode`, `TableLookup`, `SucceedsIff`, `EnterIffKeycode40` and `ShiftIffPattern` |
| HidCodec.TablesAligned | scanner.go:25-41 | `Keys` and `UpperKeys` both have 57 entries, so every key code idx `<= len(Keys)-1` is valid in both |
| HidCodec.RejectsWrongLength | scanner.go:166-168 | a buffer whose length is not 8 fails with `ErrorBufferLength` and yields the empty string |
| HidCodec.PatternsDecode | scanner.go:169-173 | the terminator decodes to `"ENTER"`, the shift pattern to `"SHIFT"`, and the two patterns are distinct |
| HidCodec.TableLookup | scanner.go:174-183 | any other valid report decodes to `UpperKeys[buf[2]]` when byte 0 is 2, and to `Keys[buf[2]]` otherwise |
| HidCodec.SucceedsIff | scanner.go:165-185 | decoding succeeds exactly when the length is 8 and the key code is below 57; a key code of 57 or more fails with `UnexpectedKey(code)` |
| HidCodec.KeysEnterAt40 | scanner.go:25-32 | in `Keys`, `"ENTER"` sits at index 40 and nowhere else |
| HidCodec.UpperKeysEnterAt40 | scanner.go:34-41 | in `UpperKeys`, `"ENTER"` sits at index 40 and nowhere else |
| HidCodec.EnterOnlyAt40 | scanner.go:25-41 | both tables hold `"ENTER"` at index 40 only |
| HidCodec.KeysLackShift | scanner.go:25-32 | no entry of `Keys` is `"SHIFT"` |
| HidCodec.UpperKeysLackShift | scanner.go:34-41 | no entry of `UpperKeys` is `"SHIFT"` |
| HidCodec.ShiftInNoTable | scanner.go:25-44 | neither table holds `"SHIFT"`, so only the shift pattern yields it |
| HidCodec.EnterIffKeycode40 | scanner.go:165-185 | a buffer decodes to `"ENTER"` exactly when it has 8 bytes and key code 40, whatever its other bytes |
| HidCodec.ShiftIffPattern | scanner.go:165-185 | a buffer decodes to `"SHIFT"` exactly when it is the shift pattern |
| HidCodec.Examples | scanner.go:165-185 | concrete decodings: `1`, `!`, the blank all-zero report, two wrong lengths, and key code 57 |
| HidCodec.KeyReport | scanner.go:174-175 | a report with the given modifier in byte 0 and key code in byte 2 |
| HidCodec.KeyStrokeRoundTrip | scanner.go:165-185 | a character has a key stroke exactly when some table entry spells it, and decoding that key stroke gives back the character |
| HidCodec.ShiftSelectsTable | scanner.go:169-183 | an unshifted report picks from `Keys` and a shifted one from `UpperKeys`, except code 40 without modifiers (the terminator) and code 0 with Shift (the shift pattern) |
| Transport.Count | scanner.go:77 | the bytes a read stores: all it delivered, but no more than the 8-byte buffer holds |
| Transport.Fill | scanner.go:77 | the buffer after a read: the delivered bytes first, then the old contents |
| Transport.FullReadOverwrites | scanner.go:111-117 | a full 8-byte read replaces the whole buffer |
| Transport.EndpointRead | scanner.go:77 | `endpoint.Read(data)` overwrites the buffer of length 8 in place and returns the stored count and the failure flag |
| ContinuousRead.Keep | scanner.go:88-90 | appends a decoded token to `out` unless it is `"ENTER"` or `"SHIFT"`; `Read` uses the same rule at scanner.go:123-125 and 133-135; `RunKeepsClean` states that control tokens never enter `out` |
| ContinuousRead.Accumulate | scanner.go:88-94 | the effect of one decoded token: keep it, then on `"ENTER"` with a non-empty `out` send the join and clear `out`; `StepCases`, `StepEnter` and `BlankTokenIsFlushed` state its cases |
| ContinuousRead.Step | scanner.go:77-94 | one loop iteration: read into the buffer, skip on a read error or a parse error, otherwise accumulate the token; `StepCases` and `StepWhole` state its cases |
| ContinuousRead.Run | scanner.go:76-95 | the loop of `CRead` over a trace of reads, giving the final buffer and pending tokens plus the strings sent |
| ContinuousRead.Assembler.constructor | scanner.go:66-67 | a zeroed 8-byte buffer, no pending tokens, nothing sent |
| ContinuousRead.Assembler.Feed | scanner.go:77-94 | one iteration: the buffer and tokens become those of `Step`, and what it sends is appended to the channel's contents |
| ContinuousRead.CRead | scanner.go:65-96 | `CRead` sends exactly the strings `Run(Start, trace)` sends |
| ContinuousRead.StepCases | scanner.go:77-94 | one iteration case by case: a failed read changes only the buffer; a parse error or Shift adds nothing; any other token is appended; Enter with pending tokens sends their join and clears them; Enter with none sends nothing |
| ContinuousRead.BlankTokenIsFlushed | scanner.go:91-94 | the test is `len(out) > 0`, so a list holding one blank token is sent as `""` |
| ContinuousRead.RunKeepsClean | scanner.go:88-94 | the pending tokens never contain `"ENTER"` or `"SHIFT"` |
| ContinuousRead.RunAppend | scanner.go:76-95 | reading `a` then `b` is reading `a + b`: the state threads through and the sent strings concatenate |
| ContinuousRead.StepWhole | scanner.go:77-90 | a full, successful report whose key code is not 40 stores itself in the buffer, adds its kept token, and sends nothing |
| ContinuousRead.RunConsWhole | scanner.go:76-95 | the same fact as `StepWhole`, for the first read of a trace |
| ContinuousRead.AccumulatesUntilEnter | scanner.go:76-95 | over full reads without key code 40, the tokens accumulate in order, nothing is sent, and the buffer holds the last report |
| ContinuousRead.StepEnter | scanner.go:77-94 | the Enter report, read whole, replaces the buffer; it sends the join of `out` and empties `out` when `out` is non-empty, and sends nothing otherwise |
| ContinuousRead.ScanSendsJoin | scanner.go:88-94 | such reads followed by the terminator send exactly the join of the pending tokens when there are any, send nothing otherwise, and leave `out` empty |
| ContinuousRead.TypedUnterminated | scanner.go:165-185 | the reports typing a symbol are whole 8-byte reads, none carrying the Enter keycode |
| ContinuousRead.TypedJoins | scanner.go:165-185 | the tokens decoded from the reports typing a symbol join back to the symbol |
| ContinuousRead.BarcodeRoundTrip | scanner.go:65-96 | a scanner that types a non-empty symbol and then Enter makes `CRead` send exactly that symbol |
| ContinuousRead.ExampleScan | scanner.go:65-96 | the reports `1`, `!` and the terminator send `"1!"` |
| ContinuousRead.ExampleZeroReport | scanner.go:76-95 | the all-zero report appends the blank token and sends nothing |
| ContinuousRead.ShortReadOverStaleEnter | scanner.go:76-94 | the byte count is discarded, so two bytes read over a stored Enter report decode, with the stale bytes, to Enter and flush the pending token |
| SingleRead.ReadLoop | scanner.go:126-141 | the loop of `Read`: a failed read is skipped, every other report adds its kept token ("" on a parse error), and `"ENTER"` returns `out` with no error; stated by `LoopNeverFails`, `LoopSkipsFailed`, `LoopKeepsBlankOnError`, `LoopStopsAtEnter` and `LoopUntilEnter` |
| SingleRead.ReadSpec | scanner.go:99-142 | the whole of `Read`: open failure, a short first read, a first parse error, then the loop from the first report; stated by `ErrorsCarryNothing`, `ShortFirstRead`, `FirstReadErrorIgnored`, `BadFirstKey`, `EnterFirstDoesNotEnd` and `ReadRoundTrip` |
| SingleRead.Read | scanner.go:99-142 | `Read` returns what `ReadSpec` gives: the open failure, a short first read, a first parse error, or the tokens up to the first Enter after the first report (an Enter in the first report does not end the read) |
| SingleRead.ErrorsCarryNothing | scanner.go:107-122 | every error return comes with an empty token list |
| SingleRead.LoopNeverFails | scanner.go:126-141 | once in the loop, `Read` only ever returns with a nil error |
| SingleRead.ShortFirstRead | scanner.go:115-117 | a first read of fewer than 8 bytes returns `ErrorDeviceReadIncomplete` |
| SingleRead.FirstReadErrorIgnored | scanner.go:111-114 | an error on a full first read is only logged: the outcome is as if the read succeeded |
| SingleRead.BadFirstKey | scanner.go:119-122 | a first report with an out-of-range key code returns that parse error |
| SingleRead.EnterFirstDoesNotEnd | scanner.go:119-126 | an Enter as the first report is dropped, and reading goes on into the loop |
| SingleRead.LoopSkipsFailed | scanner.go:127-131 | a failed read in the loop adds nothing, and the loop continues on the overwritten buffer |
| SingleRead.LoopKeepsBlankOnError | scanner.go:132-135 | a report that fails to parse in the loop appends the empty string |
| SingleRead.LoopStopsAtEnter | scanner.go:136-141 | a full report with key code 40 ends the loop with the tokens so far and no error |
| SingleRead.LoopConsWhole | scanner.go:126-139 | a full report without key code 40 stores itself and adds its kept token |
| SingleRead.LoopUntilEnter | scanner.go:126-141 | over full reads without Enter, then Enter, the loop returns the accumulated tokens in order, whatever reads come later |
| SingleRead.TypedKeptAgree | scanner.go:123-135 | for typed symbols, the loop and `CRead` keep the same tokens |
| SingleRead.ReadFirstWhole | scanner.go:111-125 | a full, decodable first report starts the loop with its kept token |
| SingleRead.TypedJoinSplit | scanner.go:123-135 | the first character's token, joined with the rest of the typed tokens, gives the whole symbol |
| SingleRead.ReadTypedFirst | scanner.go:111-125 | `Read` on a typed non-empty symbol followed by Enter equals the loop started from the first character's report, holding that character's token |
| SingleRead.LoopTypedRest | scanner.go:126-141 | that loop returns, with no error and whatever reads follow, tokens that join to the whole symbol |
| SingleRead.ReadRoundTrip | scanner.go:99-142 | end to end: a scanner that types a non-empty symbol and then Enter makes `Read` return, with no error, tokens that join to that symbol, whatever reads follow |
| Usb.ListDevices | scanner.go:191-197 | the listing is no longer than the attached devices and holds exactly the attached devices the predicate selects |
| Usb.ListDevicesAppend | scanner.go:191-197 | the listing keeps the attached order |
| Usb.ListDevicesEmptyIff | scanner.go:203-205 | the listing is empty exactly when no attached device is selected |
| Selection.Selected | scanner.go:191-197 | the listing predicate: the vendor must match, and the product too unless the product asked for is 0; `SelectedIff` states it |
| Selection.FirstInEndpoints | scanner.go:217-232 | the innermost loop: the first IN endpoint of a setup, bound with the config, interface and setup numbers; `EndpointsNoneIff` and `EndpointsFirst` state it |
| Selection.FirstInSetups | scanner.go:216-233 | the setup loop: a setup's endpoints are tried before the later setups; `SetupsNoneIff` and `SetupsFirst` state it |
| Selection.FirstInInterfaces | scanner.go:215-234 | the interface loop: an interface's setups are tried before the later interfaces; `InterfacesNoneIff` and `InterfacesFirst` state it |
| Selection.FirstInConfigs | scanner.go:214-235 | the configuration loop: a configuration's interfaces are tried before the later configurations; `ConfigsNoneIff` and `ConfigsFirst` state it |
| Selection.Pick | scanner.go:214-235 | the endpoint a device's scanner is bound to: the first IN endpoint of the walk; `PickSomeIff` and `PickIsFirstOfWalk` state it |
| Selection.MakeScanner | scanner.go:218-229 | the scanner built for a device: the device with read timeout 0, the ids asked for, and the picked config, interface, setup and endpoint numbers; `ScannerFields` states it |
| Selection.Scanners | scanner.go:207-237 | the scanners of the listed devices, in listing order, one for each device that has an IN endpoint; `ScannersAppend`, `AtMostOnePerDevice`, `ScannerPerDevice` and `ScannerFields` state it |
| Selection.GetScannersSpec | scanner.go:189-240 | `GetScanners` as a value: the listing error, `ErrorDeviceNotFound` for an empty listing, otherwise the scanners; `ListFailureReturned`, `NotFoundIff` and `NoInEndpointNoError` state it |
| Selection.ScannersTake | scanner.go:207-231 | a device with an IN endpoint contributes one scanner, bound to that endpoint, at its place in the list |
| Selection.ScannersSkip | scanner.go:207-237 | a device without an IN endpoint contributes nothing |
| Selection.ConfigsStep | scanner.go:214-235 | the walk tries a configuration's interfaces before the later configurations |
| Selection.InterfacesStep | scanner.go:215-234 | the walk tries an interface's setups before the later interfaces |
| Selection.SetupsStep | scanner.go:216-233 | the walk tries a setup's endpoints before the later setups |
| Selection.EndpointsStep | scanner.go:217-232 | an IN endpoint ends the walk with the config value, interface number, setup number and endpoint number; any other endpoint is skipped |
| Selection.FindInEndpoint | scanner.go:214-235 | the four nested loops find exactly `Pick`, the first IN endpoint in walk order |
| Selection.GetScanners | scanner.go:189-240 | `GetScanners` returns exactly `GetScannersSpec`, and an error return holds no scanners |
| Selection.SelectedIff | scanner.go:191-197 | a device is listed when its vendor matches and either the product asked for is 0 or the product also matches |
| Selection.ListFailureReturned | scanner.go:199-201 | a failed listing returns its error |
| Selection.NotFoundIff | scanner.go:203-205 | `ErrorDeviceNotFound` is returned exactly when no attached device matches |
| Selection.ScannersAppend | scanner.go:207-237 | the devices are handled one at a time, in listing order |
| Selection.DeviceWithoutInSkipped | scanner.go:207-237 | removing a device with no IN endpoint changes nothing |
| Selection.AtMostOnePerDevice | scanner.go:207-237 | `continue getDevice` makes at most one scanner per device: each device contributes, at its own place in the list, a part of at most one scanner |
| Selection.AtMostOneEach | scanner.go:207-237 | there are never more scanners than listed devices |
| Selection.ScannerPerDevice | scanner.go:207-237 | when every device has an IN endpoint, scanner k belongs to device k and is bound to its first IN endpoint |
| Selection.ScannerFields | scanner.go:218-229 | every scanner belongs to a listed device, keeps the vendor and product asked for, has read timeout 0, and is bound to the first IN endpoint of its device |
| Selection.EndpointsNoneIff | scanner.go:217-232 | the endpoint loop finds nothing exactly when the setup has no IN endpoint |
| Selection.SetupsNoneIff | scanner.go:216-233 | the setup loop finds nothing exactly when no setup has an IN endpoint |
| Selection.InterfacesNoneIff | scanner.go:215-234 | the interface loop finds nothing exactly when no interface has one |
| Selection.ConfigsNoneIff | scanner.go:214-235 | the walk finds nothing exactly when no configuration has one |
| Selection.PickSomeIff | scanner.go:214-235 | a device yields a binding exactly when its descriptor has an IN endpoint somewhere |
| Selection.NoInEndpointNoError | scanner.go:203-239 | when some attached device is selected but no selected one has an IN endpoint, the result is an empty list with no error, not `ErrorDeviceNotFound`; unselected devices may have IN endpoints |
| Selection.NoneYield | scanner.go:207-237 | any list of devices none of which has an IN endpoint yields no scanners |
| Selection.FlatEndpoints | scanner.go:217-222 | the candidates of one setup, in order, each with its binding and direction |
| Selection.FirstIn | scanner.go:218-230 | the first IN candidate of a flat list: it is IN and everything before it is not; none exactly when there is no IN candidate |
| Selection.FirstInAppend | scanner.go:214-235 | the first IN candidate of a concatenation is the first one of the front part, or else the first of the back |
| Selection.EndpointsFirst | scanner.go:217-232 | the endpoint loop finds the first IN candidate of its endpoints |
| Selection.SetupsFirst | scanner.go:216-233 | the setup loop finds the first IN candidate of its flattened setups |
| Selection.InterfacesFirst | scanner.go:215-234 | the interface loop finds the first IN candidate of its flattened interfaces |
| Selection.ConfigsFirst | scanner.go:214-235 | the walk finds the first IN candidate of the flattened descriptor |
| Selection.PickIsFirstOfWalk | scanner.go:214-235 | the binding is the first IN endpoint in a flat walk, with all earlier endpoints not IN; none exactly when the descriptor has no IN endpoint |
| BarcodeSelection.Matches | barcode.go:191-193 | the listing predicate of this variant: vendor and product must both match exactly; `ListedIffExact` and `PredicatesAgree` state it |
| BarcodeSelection.GetScanners | barcode.go:189-215 | a failed listing returns its error; no exact match returns `ErrorDeviceNotFound`; otherwise there is no error and one scanner per listed device, in order |
| BarcodeSelection.ListedIffExact | barcode.go:191-193 | a device is listed exactly when it is attached and both its vendor and product match |
| BarcodeSelection.PredicatesAgree | barcode.go:191-193 | the two listing predicates agree when the product asked for is not 0; with 0, `scanner.go:191-197` takes any product of the vendor, while `barcode.go` takes only product id 0 |

The cited `scanner.go` lines have counterparts in `barcode.go`:

- the key tables: lines 35-51
- `CRead`: lines 65-97
- `Read`: lines 100-143
- `sameSlice`, `isTerminator` and `isShift`: lines 145-163
- `ParseBuffer`: lines 166-186

`Run` and `ReadSpec` model both copies.

## Left out

- The sleeps of `barcode.go` (lines 22, 78, 85, 95 and 130) are left out: they order the reads in time but change no value.
- The `ErrorIgnore` comparison (barcode.go:111) is left out: it only decides whether to log.
- Logging (`log.Println`) is left out.
- `log.Fatal` when `CRead` cannot open its endpoint is left out: the process exits, so `CRead` never starts its loop. The model assumes the endpoint is open.
- `sc.OpenEndpoint` is not modelled as a call. Its success is the input `endpointOpen` of `SingleRead.Read`, and its failure is the single error `OpenFailed`. The library's error value is not modelled.
- `ctx.ListDevices` is modelled as the function `Usb.ListDevices`. Its failure is the input `listFailed`, and its error is the single `ListError`.
- `dev.DetachKernelDriver(0)` and the `runtime.GOOS` test are left out: they are a side effect on the operating system with no effect on the result.
- Decoding of endpoint addresses is left out. An endpoint carries its number and direction already decoded (`end.Number()`, `end.Direction()`).
- The `| ENDPOINT_DIR_IN` address arithmetic of `OpenEndpoint` is left out.
- The fixed endpoint constants of `barcode.go` (lines 17-20) are left out: they only feed `OpenEndpoint`.
- The goroutine and the channel of `CRead` become the sequence of strings it sends. The infinite loops run over a finite trace of reads. `Read` left waiting is the outcome `Waiting`.
- Selection.Scanner: a Go scanner holds a pointer to a shared `usb.Device`, and `sc.ReadTimeout = 0` writes through that pointer. Here a device is a value and the scanner holds a copy with `readTimeout` 0. Aliasing between scanners and the library's device list is not modelled.
- Selection.FindInEndpoint: the labelled `continue getDevice` is modelled as returning from the walk method. `GetScanners` then goes on with the next device.
- Go's `usb.ID` is a 16-bit id here. The `uint8` fields (config, interface, setup and endpoint numbers) keep their width. No arithmetic on them can wrap.
- The error strings are modelled as distinct error values: `ErrorBufferLength`, `UnexpectedKey(code)`, `ErrorDeviceReadIncomplete` and `ErrorDeviceNotFound`. Their message text is not modelled.
- The test file `barcode_test.go` is left out. It treats the all-zero report as the terminator, in both `isTerminator` and `ParseBuffer`. It also names constants the package does not define (`TERMINATOR_STR`, `SHIFT_KEY_STR`). The code has the terminator `[0,0,40,0,0,0,0,0]`, and the model follows the code; `HidCodec.Examples` and `ContinuousRead.ExampleZeroReport` state the code's behaviour on the all-zero report.
- The programs `example/main.go` and `scanner/main.go` are left out: they only call the package and print.
