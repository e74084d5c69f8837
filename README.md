# USB HID keyboard emulator: keystroke state machine

This project models the firmware of a three-button USB keyboard built on the
V-USB software driver. The URL button types "stackoverflow.com" followed by
Enter. The Copy button sends Ctrl+C and the Paste button sends Ctrl+V.

The model has four parts:

- **The decision step** (`processData`). It is gated by `processAvailable`. It
  samples the three buttons. It then either continues the URL sequence through
  the 18-entry key table, or looks for a not-pressed to pressed edge on URL,
  Copy and Paste, in that order. Last, it remembers the sample for the next edge
  detection.
- **The report builder** (`buildReport`). It copies the pending (modifier, key)
  pair into the two-byte report, clears the pair and reopens the gate.
- **The setup callback** (`usbFunctionSetup`). It answers the HID class
  requests Get_Report, Get_Idle and Set_Idle of section 7.2 of the USB Device
  Class Definition for HID 1.11. Every other request is answered with length 0.
- **The main loop body.** It calls the decision step, then the builder if the
  interrupt endpoint is ready. The report it hands to the driver is the report
  buffer.

Files:

- `hid_usage.dfy` holds the constants. The key codes are Keyboard/Keypad page
  usage IDs from section 10 of the USB HID Usage Tables 1.12 (C = 0x06,
  V = 0x19, Enter = 0x28). It also holds the left-Control modifier bit, the
  URL key table and the 35-byte report descriptor.
- `keyboard.dfy` models all the statics as one value, `Machine`. It defines
  the decision step (`Decide`), the builder (`Build`), one loop pass
  (`Iteration`) and a bounded run (`Run`). It also holds the invariant `Inv`
  and the lemmas about them.
- `control.dfy` models the setup callback (`Setup`), the bytes it sends back
  and the request round-trips.
- `device.dfy` holds class `Firmware`. Its fields are the statics. Its methods
  update those fields in place, the way the C routines do. Each method is proved
  to leave `State()` equal to the matching function applied to the old state.

Modelling choices:

- Bytes are `bv8`.
- The flags that only ever hold 0 or 1 are `bool`: `processAvailable` and the
  six button flags.
- `urlIndex` is an `int`. It is proved to stay in 0..18.
- The driver's `usbMsgPtr` is a three-valued `MsgPtr`. The bytes it names are
  given by `Control.Message`.
- The request-type mask and the request codes come from the USB and HID
  standards: type bits 6..5 of bmRequestType equal to 1 means "class";
  GET_REPORT = 0x01, GET_IDLE = 0x02, SET_IDLE = 0x0A. `usbdrv.h` is not part
  of this model.

Three details of the code's behaviour:

- The cursor is not reset on the decision that sends the 18th keystroke. It
  stays at 18, and the next decision resets it to 0 (main.c:158-165). That
  decision assigns no keystroke, so the released (0,0) report is pending.
- A Copy keystroke is not always followed by (0,0). A fresh Paste press or URL
  press on the next decision sends Ctrl+V, or the first URL key, straight away
  (main.c:171-188). What holds is that Ctrl+C never appears twice in a row in
  the submitted reports, and neither does Ctrl+V.
- The buttons are not debounced: each decision compares the new sample with
  the previous one only (main.c:151-153, main.c:193-195).

## Model

| member | source | states |
|---|---|---|
| `Keyboard.Init` | main.c:213-226 | the power-on statics satisfy the invariant: gate open, cursor 0, released report, all six button flags false |
| `Keyboard.Decide` | main.c:147-197 | a closed gate changes nothing, not even the samples; an open gate is closed and the sample becomes the previous-flags; the report buffer, idle rate and message pointer are untouched |
| `Keyboard.DecideKeepsInv` | main.c:155-195 | the decision step keeps the invariant: cursor in 0..18, pending pair (0,0) while the gate is open, a pending or just-sent Ctrl+C/Ctrl+V is backed by a remembered press |
| `Keyboard.Build` | main.c:137-145 | the report becomes the pending pair, the pending pair becomes (0,0), the gate reopens, nothing else changes, and the invariant is kept |
| `Keyboard.Iteration` | main.c:249-257 | a ready pass submits the keystroke just decided and reopens the gate; a pass that is not ready leaves the gate closed and the report unchanged |
| `Keyboard.Run` | main.c:247-260 | one report per ready pass; the report buffer always holds the last report submitted; the invariant holds throughout |
| `Keyboard.RunSnoc` | main.c:247-260 | a run of n+1 passes is the run of n passes followed by one more pass |
| `Keyboard.ClosedGateStutters` | main.c:149-196 | with the gate closed the decision step is the identity, so a second pass without a ready endpoint changes nothing |
| `Keyboard.IdleDecision` | main.c:171-188 | in idle, each outcome holds exactly when its condition does: URL edge starts the sequence with table entry 0; otherwise a Copy edge gives Ctrl+C; otherwise a Paste edge gives Ctrl+V; no edge gives (0,0) |
| `Keyboard.SequencingDecision` | main.c:155-167 | while sequencing, the next table entry is pending with modifier 0 and the cursor advances; with the cursor at 18 it is reset to 0 and (0,0) is pending |
| `Keyboard.SequencingIgnoresButtons` | main.c:155-195 | while sequencing, the decision does not depend on the buttons, which are still recorded as the previous-flags |
| `Keyboard.HeldButtonDoesNotRepeat` | main.c:178-195 | a button that was already pressed at the previous decision cannot produce its Ctrl+C or Ctrl+V |
| `Keyboard.CopyThenPaste` | main.c:178-183 | from power-on, Copy and then Paste (Copy still held) send Ctrl+C and then Ctrl+V with no released report between them |
| `Keyboard.CopyThenUrl` | main.c:171-180 | from power-on, Copy and then URL send Ctrl+C and then the first URL key with no released report between them |
| `Keyboard.UrlReports` | main.c:80-83 | the reports that type the table from a position onwards: entry k+j at index j, modifier 0 |
| `Keyboard.UrlContinues` | main.c:155-167 | from cursor k with a ready endpoint, passes submit entries k..17 in order, then (0,0), and return the cursor to 0, whatever the buttons do |
| `Keyboard.UrlSequence` | main.c:155-177 | from idle, a URL edge and 18 more ready passes submit all 18 table entries back to back with modifier 0, then (0,0), and leave the cursor at 0 |
| `Keyboard.NextReportDiffers` | main.c:137-195 | the report that follows a Ctrl+C (Ctrl+V) report is not Ctrl+C (Ctrl+V) |
| `Keyboard.OneShotRun` | main.c:247-257 | for any buttons and any endpoint readiness, the report stream never holds Ctrl+C twice in a row, nor Ctrl+V |
| `Keyboard.OneShotFromPowerOn` | main.c:213-257 | from power-on, no submitted report stream repeats Ctrl+C or Ctrl+V back to back |
| `Control.Setup` | main.c:114-135 | only the idle rate and the message pointer change; the idle rate only through a class Set_Idle; a non-zero length only for a class request, never longer than the object pointed to |
| `Control.GetReportReply` | main.c:121-124 | a class Get_Report returns length 2 and the report buffer's modifier and key bytes |
| `Control.GetIdleReply` | main.c:125-127 | a class Get_Idle returns length 1 and the stored idle rate |
| `Control.SetIdleThenGetIdle` | main.c:125-130 | Set_Idle stores the high byte of wValue and returns 0; a following Get_Idle returns length 1 and exactly that byte |
| `Control.OtherRequestsIgnored` | main.c:131-134 | a non-class request, or any other class request, returns 0 and changes nothing |
| `Control.GetReportAfterRun` | main.c:121-124 | after any run that submitted a report, Get_Report returns the bytes of the last report submitted |
| `Control.SetupInsidePass` | main.c:249-254 | a control request answered while the driver is polled, between the decision and the builder, changes neither the report then built nor any other keyboard state |
| `Device.Firmware.constructor` | main.c:213-226 | the fields start as the power-on statics and satisfy the invariant |
| `Device.Firmware.ProcessData` | main.c:147-197 | the in-place decision step leaves the fields equal to `Decide` of the old fields and keeps the invariant |
| `Device.Firmware.BuildReport` | main.c:137-145 | the in-place builder leaves the fields equal to `Build` of the old fields and keeps the invariant |
| `Device.Firmware.UsbFunctionSetup` | main.c:114-135 | the in-place callback returns the length and leaves the fields as `Setup` gives them |
| `Device.Firmware.LoopBody` | main.c:249-257 | one loop pass agrees with `Iteration` and hands over the report buffer exactly when the endpoint is ready |
| `Device.Firmware.MainLoop` | main.c:247-260 | a bounded number of loop passes agrees with `Run`, both in the final fields and in the reports handed over |

## Left out

- V-USB driver calls (`usbInit`, `usbDeviceDisconnect`, `usbDeviceConnect`, `usbPoll`, `usbInterruptIsReady`, `usbSetInterrupt`): a foreign library. Endpoint readiness is an input to each pass. The submitted report is the report buffer.
- Control requests inside a loop pass: `Run` does not interleave `Setup` calls with its passes. `Control.SetupInsidePass` shows that a request answered during polling changes nothing the passes use, apart from the idle rate and the message pointer.
- The trimming of a control reply to the host's wLength: this is done inside the driver.
- Port and direction register setup, and reads of the pin register: hardware registers. Each button is passed in as a boolean, true meaning the pin reads low.
- The watchdog, `_delay_ms`, the fake-disconnect loop of more than 250 ms and `sei()`: these are timing and interrupts only.
- The endless `while(1)`: modelled as one pass (`Iteration`, `LoopBody`) and as any finite number of passes (`Run`, `MainLoop`).
- The report descriptor: kept as a fixed 35-byte constant that is not interpreted.
