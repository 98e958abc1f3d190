# threeboard: a verified model

The threeboard is a keyboard with three keys. Its firmware is a stack of small byte-level state
machines: chord detection, four layers, a storage controller over three EEPROMs, an I2C driver, LED
multiplexing, and USB keypress reports. The repository also has a simulator for the peripherals and a
reference model that the firmware is compared with after random keypresses. This project models all of
these in Dafny. It proves exactly on which keypress sequences the comparison holds, that the panel is
right whatever the external devices do, and what each part contributes to that.

- `Bytes.dfy`, `Bits.dfy`, `Types.dfy` - integer widths, bitwise or, shared vocabulary, word rendering.
- `Layout.dfy`, `Devices.dfy`, `Storage.dfy`, `StorageRoundTrip.dfy` - the storage layout as a decoding
  of three byte images into tables, the device interfaces with scripted failures, and the controller.
- `Reference.dfy` - the firmware as a step function on tables of key codes, with the second external
  EEPROM there or missing.
- `Manual.dfy` - what the user manual says of the keys and banks, for the step function.
- `Written.dfy`, `ReferenceMachine.dfy` - the reference model of the test suite, which works on
  characters, as a step function and as the suite's objects. `WrittenReference.RunsAgree` says exactly
  on which runs it agrees with the firmware.
- `Leds.dfy`, `Layers.dfy` - LED state, the four layers and their controller.
- `Comparison.dfy` - what the property test compares, and when that is the same.
- `PropertyTest.dfy`, `PanelReadback.dfy` - the property test for all runs, and all runs under failures.
- `I2c.dfy`, `I2cDevices.dfy`, `BusRuns.dfy` - the 24LC512 slave, the bus, the master, and their runs as
  runs of the device interface.
- `LedScan.dfy` - the scan, its decoder, pulses and blinking.
- `ChordStream.dfy`, `EventLoop.dfy`, `Threeboard.dfy` - key samples, the event slot, the main loop.
- `Usb.dfy`, `UsbDevices.dfy` - reports, idle rate, waiting, descriptors.
- `Keycodes.dfy`, `StateStorage.dfy` - the simulator's key code tables and its preloaded EEPROM images.

How the parts fit. The storage stack and the layers are written against the interfaces in `Devices.dfy`.
The external EEPROMs share a bus, and a write that broke off leaves an address in its device until the
bus is used again (`Wrote`, `Read`); `BusRuns.RunOnBus` says that whatever disturbances hit the bus, the
I2C drivers do what this interface does under some script. The USB port keeps a press that did not get
out, and `Usb.HostSeesLog` says that the USB controller does what the port says. A failing device is one
with a script of outcomes, and a theorem without a condition on scripts is about every possible failure.
The internal EEPROM cannot fail in the firmware, which is why theorems about the layers only ask that
one to be reliable.

Modelling decisions.

- A `uint8_t` is an integer below 256 with explicit wrap-around; bit tests on it are divisions. The
  address expressions are reduced to 16 bits where the source assigns them to a `uint16_t`. On the MCU
  `int` has 16 bits, so some of these products overflow a signed `int` before that; the model takes the
  wrap-around result.
- An I2C device is known by its number. The firmware gives its second device number 1, and the simulator
  number 3 to the one it has a class for; the simulator that the test suite runs has the first only. In
  either case the firmware's second device is absent in the sense of `TwiBus.Present`, which is
  `FirstEeprom` for the layers.
- The bus is assumed to yield a status that the driver accepts for every byte that is acknowledged and
  not disturbed: `WriteByteAndAck` accepts two status codes only, both for address bytes.
- A port value is the set of its high pins, and a mask a set of pins. The decoder is called on every
  write to port B or D, whether or not it changes a pin.
- A layer receives its controller as a parameter instead of holding a delegate pointer, and its
  `HandleEvent` is split into the key cases and the panel refresh, layer R's by mode. The pointer to a port function that
  `ApplyLedState` takes is a returned flag.

Where the source disagrees with itself or its documentation, the code is followed:

- The comment at `firmware/src/usb/usb_controller_impl.cpp:182` promises at most 50 frames of polling;
  `Usb.TimeoutNeedsLowFrame` gives the exact condition under which it holds.
- The user manual splits the second bank of the word layer into length and mod code; the code counts a
  whole byte of mod codes and ors it over the length. `Reference.BankDigits` says exactly when the split
  holds.
- The user manual has Y increment and YZ clear bank 1 in every layer; `Manual.Bank1Increments` and
  `Manual.Bank1Clears` say exactly when. It has layer R show the id in bank 0 in program mode, where the
  code shows the character (`Manual.PanelShows`), and its word example confuses two mod codes
  (`Manual.UpperCaseHello`).
- The property test is meant to pass on every run. `Comparison.MissingDeviceFails` and
  `WrittenReference.ShiftedHyphen` are two reasons why it does not, and `Comparison.PassesExactly` is the
  exact condition.
- The simulator lets a blob index of 248 through its validation although the layout has no place for it.
- The two key code tables are not inverse on digits and on `*`, `(` and `)`.

Nothing was executed; every statement is checked by the Dafny verifier.

## Model

| member | source | states |
|---|---|---|
| `PropertyTest.DeviceStateProperty` | firmware/integration/property_test.cpp:86-104 | the test on any keypress sequence on which the reference always has a panel, with both external EEPROMs or with the first only as in the suite's simulator: it passes exactly if panels and printed characters are the same after every keypress; and exactly if no keypress lets a difference be seen, which is one that makes the two part in the word layer, one that sends a blob for which a printable character was refused since it was last cleared, or one after which the length of a blob is shown for which a number of pairs not divisible by 256 was |
| `Comparison.PassesExactly` | firmware/integration/property_test.cpp:86-104 | the same of the step functions, for all runs |
| `Comparison.SameExactly` | firmware/integration/property_test.cpp:44-59 | for one event of any run: panel and printed text agree after it exactly if it lets no difference be seen |
| `Comparison.RunOwes` | firmware/integration/model/layer_model.cpp:202-245 | after any run the two hold the same words, and each of the reference's blobs is the firmware's with the characters after it that the firmware refused since it was last cleared; only full blobs and blobs on a missing device have any |
| `Comparison.NeverPartsPasses` | firmware/integration/property_test.cpp:86-104 | on a run on which firmware and reference never part every comparison of the step functions succeeds |
| `Comparison.WordPartingFails` | firmware/integration/property_test.cpp:44-59 | wherever the two part in the word layer, whatever happened before, the comparison of that very event fails |
| `Comparison.BlobPartingFails` | firmware/integration/property_test.cpp:44-59 | whenever an event shows the length of a blob for which pairs were refused since it was last cleared, their number not being a multiple of 256, its comparison fails |
| `Comparison.UnnoticedParting` | firmware/integration/property_test.cpp:44-59 | a run that parts and passes all the same: a pair programmed into a missing blob and cleared before program mode is left |
| `Comparison.MissingDeviceFails` | firmware/simulator/simulator.cpp:58-63 | in the suite's simulator, which has no second external EEPROM, the test fails on a run of 126 keypresses that programs one pair into blob 120 |
| `Comparison.ModesAgree` | firmware/integration/model/threeboard_model.cpp:6-11 | firmware and reference are always in the same layer and mode with the same ids and codes, also after they have parted |
| `PropertyTest.Play` | firmware/src/layers/layer_controller.cpp:32-34 | for every keypress sequence and every failure of the external EEPROMs and the USB port, idle reports included, there is a choice of events that took effect, and an account of what is left over on the bus before each, such that: only events that access an external EEPROM are lost; the panel is right after every event; each event types a prefix of what its step types, up to the first event whose access to an external EEPROM the leftover misdirects, and nothing else ends the account; an event that takes effect on an external EEPROM leaves nothing over, and only a lost program-mode write leaves something; and the host sees what was typed, each stroke some number of times. With reliable devices every event takes effect and is seen exactly |
| `PropertyTest.PlayEvent` | firmware/src/layers/layer_controller.cpp:32-34 | the same for one event on any coherent board |
| `PropertyTest.PlayDevice` | firmware/integration/property_test.cpp:66-83 | with devices that do not fail, the panel and the printed text read after each event are those of the step function |
| `PropertyTest.PlayReference` | firmware/integration/property_test.cpp:44-48 | the reference machine's snapshots along a run are those of its own step function, and each collects exactly the text since the last |
| `WrittenReference.RunsAgree` | firmware/integration/model/layer_model.cpp:117-245 | firmware and reference are in corresponding states and print the same after every event of a run if and only if the run never parts: no key for a full word whose text prints something, no word typed with a shifted digit, '-' or '=', no pair for a full blob or for a blob on a missing device |
| `WrittenReference.StepAgrees` | firmware/integration/model/layer_model.cpp:128-133 | the same for one step from any board that has nothing stored on a missing device |
| `WrittenReference.StepAgreesDflt` | firmware/integration/model/layer_model.cpp:32-50 | in the default layer the reference's own step is always the firmware's |
| `WrittenReference.StepAgreesR` | firmware/integration/model/layer_model.cpp:58-99 | so it is in layer R |
| `WrittenReference.RenderAgrees` | firmware/integration/model/layer_model.cpp:174-200 | the reference's text of a word is what the firmware's strokes print exactly if no shifted key is a digit, '-' or '=' |
| `WrittenReference.ShiftedHyphen` | firmware/integration/model/layer_model.cpp:180-180 | a hyphen in upper case stays a hyphen in the reference and is an underscore on the screen |
| `WrittenReference.NoticeableIsPrinted` | firmware/integration/model/layer_model.cpp:174-200 | the reference prints something for a word exactly if it is not empty and has a printable character or a mark appended |
| `WrittenReference.MissingDeviceShows` | firmware/simulator/simulator.h:55-55 | that run never parts with both devices; with the first only, the reference shows length 1 and the firmware 0 |
| `WrittenReference.VisibleMeansDefined` | firmware/integration/model/layer_model.h:65-72 | a run on which the reference always has a panel to show never leaves its 248-slot blob array |
| `Keycodes.PrintedShown` | firmware/simulator/components/usb_host_impl.cpp:58-64 | the all-zero reports that the host drops would have printed nothing |
| `Types.ShownOne` | firmware/simulator/components/usb_host_impl.cpp:58-64 | the host drops a report exactly if it has neither key nor modifier |
| `Keycodes.ShiftExactly` | firmware/simulator/components/usb_keycodes.cpp:64-113 | shift types the upper case of what a key types without exactly for the keys other than digits, '-' and '=' |
| `Keycodes.KeysType` | firmware/simulator/components/usb_keycodes.cpp:64-113 | what every key types without and with shift, letter by letter and sign by sign; no other key types anything, and no other modifier bit matters |
| `Keycodes.TypedIsPrintable` | firmware/integration/model/layer_model.cpp:12-19 | what is typed at all can be printed |
| `Reference.RunInvariant` | firmware/src/layers/layer_controller.cpp:36-39 | after any run only the current layer is in program mode, words hold at most 15 keys and blobs at most 255 pairs, and nothing is stored on a missing device |
| `Reference.AlikeStep` | firmware/src/layers/layer_g.cpp:7-59 | two boards that differ only in what the external EEPROMs hold, lengths being equal, still do so after the same event |
| `Reference.AlikeShow` | firmware/src/layers/layer_g.cpp:50-58 | and they show the same panel |
| `Reference.BankDigits` | firmware/src/layers/layer_g.cpp:56-56 | the high digit of the word layer's second bank is the length if and only if the mod code's high digit has no bit that the length lacks, in particular for every code below 16; the low digit is that of the mod code |
| `Reference.BankShowsAnotherLength` | firmware/src/layers/layer_g.cpp:56-56 | with mod code 32 a word of one key is shown as one of three |
| `ReferenceMachine.DefaultLayerModel.Apply` | firmware/integration/model/layer_model.cpp:32-50 | the default layer's model object takes the reference's step for that layer and buffers what it prints |
| `ReferenceMachine.LayerRModel.Apply` | firmware/integration/model/layer_model.cpp:58-99 | the same for layer R |
| `ReferenceMachine.LayerGModel.Apply` | firmware/integration/model/layer_model.cpp:117-156 | the same for layer G, which stores characters, including the fall-through to sending when a word is full |
| `ReferenceMachine.LayerGModel.ApplyModCodeToCurrentShortcut` | firmware/integration/model/layer_model.cpp:174-200 | the loop over a word yields the printable characters of the closed form of the word mod codes |
| `ReferenceMachine.LayerBModel.Apply` | firmware/integration/model/layer_model.cpp:202-245 | the same for layer B, which stores characters without a cap |
| `ReferenceMachine.ThreeboardModel.Apply` | firmware/integration/model/threeboard_model.cpp:6-11 | one event on the reference board: the current layer's step, then the next layer if it is left; all output is in the current layer's buffer |
| `ReferenceMachine.ThreeboardModel.GetStateSnapshot` | firmware/integration/model/layer_model.cpp:247-261 | a snapshot shows the specified panel wherever there is one and hands over the buffered text once |
| `Layers.LayerController.HandleEvent` | firmware/src/layers/layer_controller.cpp:32-34 | any event, under any device failures: with the internal EEPROM working the board takes its step or, only if the event accesses an external EEPROM, it is lost, up to the contents of the external EEPROMs; the board stays coherent (program mode, layer R's cached character, panel); exactly so, typing a prefix of the step's strokes, if the event's first access to an external EEPROM reaches the cell it names; then it leaves nothing over on the bus, or what a write leaves that broke off if it was lost in program mode; with reliable devices it takes the step, types everything, and reports success exactly if the event is accepted. An event that accesses no external EEPROM, and with reliable devices any event, does what `Manual.Does` says of its key |
| `Manual.KeyDoes` | documentation/threeboard/threeboard_user_manual.md:35-41 | what each key does in every layer and mode: X adds one, modulo 256, to what bank 0 stands for, and XZ clears it; Y and YZ do so for bank 1 where it counts something, and YZ clears a word that is programmed; XY enters program mode, or clears a blob; XYZ leaves it, or goes on from the default layer to R, G, B and back; Z sends or stores. Nothing else changes |
| `Manual.DfltStepKeys` | firmware/src/layers/default_layer.cpp:7-20 | the default layer's step, field by field |
| `Manual.RStepKeys` | firmware/src/layers/layer_r.cpp:7-50 | layer R's step, field by field: id, modifier, the one character that changes, program mode, and when the layer is left |
| `Manual.PanelShows` | documentation/threeboard/threeboard_user_manual.md:49-90 | the layer LED and PROG tell layer and mode, bank 0 shows what X counts, bank 1 what Y counts, but for the length of a word in its high digit and of a blob outside program mode |
| `Manual.Bank0Follows` | documentation/threeboard/threeboard_user_manual.md:35-38 | X increments and XZ clears what bank 0 shows, wherever there is a panel |
| `Manual.Bank1Increments` | documentation/threeboard/threeboard_user_manual.md:36-36 | Y increments what bank 1 shows exactly outside the word layer's program mode and in the blob layer's, and in the word layer only where the mod code does not carry into a digit that the length changes |
| `Manual.Bank1Clears` | documentation/threeboard/threeboard_user_manual.md:39-39 | YZ makes bank 1 show zero exactly unless it goes on showing the length of a word or blob that is not empty |
| `Manual.PressesX` | documentation/threeboard/threeboard_user_manual.md:35-35 | n presses of X from any board add n modulo 256 to what bank 0 stands for, type nothing and change nothing else |
| `Manual.PressesY` | documentation/threeboard/threeboard_user_manual.md:36-36 | the same for Y and bank 1 |
| `Manual.TypesCharacter` | documentation/threeboard/threeboard_user_manual.md:49-49 | in the default layer XZ, n times X, YZ, m times Y and Z type exactly key n under modifier m |
| `Manual.StoresCharacter` | documentation/threeboard/threeboard_user_manual.md:115-125 | in layer R, from any board, the presses that dial an id and then a key in program mode store that key there and change no other character |
| `Manual.SendsCharacter` | documentation/threeboard/threeboard_user_manual.md:55-55 | dialling an id and a modifier and Z type the stored character under that modifier |
| `Manual.StoresWord` | documentation/threeboard/threeboard_user_manual.md:127-136 | in layer G the presses that spell a word of up to 15 keys under a dialled id store exactly that word there and change no other |
| `Manual.SendsWord` | documentation/threeboard/threeboard_user_manual.md:66-66 | dialling an id and a mod code and Z type the stored word under that code |
| `Manual.ModCodesPrint` | documentation/threeboard/threeboard_user_manual.md:68-74 | code 1 shifts every key and code 2 the first; codes 3, 4 and 5 print the word and then a period, a comma and a hyphen; all others type it plainly |
| `Manual.StoresBlob` | documentation/threeboard/threeboard_user_manual.md:144-152 | in layer B the presses that spell up to 255 pairs under an id whose device is there store exactly these and change no other blob |
| `Manual.SendsBlob` | documentation/threeboard/threeboard_user_manual.md:85-85 | dialling an id and Z type the stored blob |
| `Manual.TypesHello` | documentation/threeboard/threeboard_user_manual.md:103-113 | the manual's presses for typing Hello, from power-on, print exactly that |
| `Manual.UpperCaseHello` | documentation/threeboard/threeboard_user_manual.md:138-142 | mod code 1 types HELLO where the manual expects Hello; code 2 types Hello |
| `Layers.LayerController.SwitchToLayer` | firmware/src/layers/layer_controller.cpp:36-39 | after a switch the panel shows the board, unless the blob layer has an id without a slot, which is reported as failure |
| `Layers.RetryIsDirected` | firmware/src/storage/internal/i2c_eeprom.cpp:29-35 | after a programming event whose write broke off on a bus with nothing left over, the same event again is not misdirected if and only if at most the control byte and the address had arrived |
| `Layers.DefaultLayer.Act` | firmware/src/layers/default_layer.cpp:7-20 | the key cases act on the two banks and leave as listed field by field, without naming the step function, and type a prefix of the one stroke, all of it with a reliable port |
| `Layers.DefaultLayer.HandleEvent` | firmware/src/layers/default_layer.cpp:7-23 | step, layer change and panel of the default layer under any USB failure |
| `Layers.LayerR.Act` | firmware/src/layers/layer_r.cpp:7-50 | provided the cached character is the stored one, the key cases change id, modifier, program mode and the one stored character as listed field by field, without naming the step function: X in program mode makes the stored character (old + 1) mod 256 |
| `Layers.LayerR.Refresh` | firmware/src/layers/layer_r.cpp:51-60 | the cache is the stored character again and the panel shows the layer |
| `Layers.LayerR.HandleEvent` | firmware/src/layers/layer_r.cpp:7-61 | step, cache and panel of layer R |
| `Layers.LayerG.Act` | firmware/src/layers/layer_g.cpp:7-49 | the key cases are the step or a failure that changes nothing, exactly so if the first access to the external EEPROM reaches the cell it names and up to word and blob contents otherwise; with reliable devices they fail exactly on an empty word to send or a full word to append to |
| `Layers.LayerG.Refresh` | firmware/src/layers/layer_g.cpp:50-58 | the panel shows the layer with the stored word length |
| `Layers.LayerG.HandleEvent` | firmware/src/layers/layer_g.cpp:7-59 | step and panel of layer G, the panel unchanged when the event fails early |
| `Layers.LayerB.Act` | firmware/src/layers/layer_b.cpp:7-47 | the key cases are the step, or change nothing if a storage operation fails, exactly so if the first access to the blob's EEPROM reaches the cell it names and up to contents otherwise |
| `Layers.LayerB.Refresh` | firmware/src/layers/layer_b.cpp:48-56 | the panel shows the layer unless its id has no slot, which is reported as failure |
| `Layers.LayerB.HandleEvent` | firmware/src/layers/layer_b.cpp:7-57 | step and panel of layer B, in which failed storage operations are not reported |
| `Layers.UpdateLedState` | firmware/src/layers/layer.cpp:7-33 | exactly the LED of the layer is on, with the banks and PROG as given |
| `Layers.SendToHost` | firmware/src/layers/layer.cpp:35-43 | the stroke is handed to the USB port, and ERR is off exactly if the port reports success |
| `Storage.StorageController.SetCharacterShortcut` | firmware/src/storage/storage_controller.cpp:63-65 | one character changes and no other slot; a failure leaves the old or the new one |
| `Storage.StorageController.GetCharacterShortcut` | firmware/src/storage/storage_controller.cpp:67-69 | reads the table entry |
| `Storage.StorageController.AppendToWordShortcut` | firmware/src/storage/storage_controller.cpp:71-83 | success appends to the one word; a full word is refused; a failure leaves every slot as it was, or the append complete if the length write was not acknowledged; success leaves nothing over on the bus, failure what a broken write at the word's end leaves. Where the write is misdirected the lengths are still right |
| `Storage.StorageController.ClearWordShortcut` | firmware/src/storage/storage_controller.cpp:85-88 | one word becomes empty and no other slot changes; a failure leaves it old or empty |
| `Storage.StorageController.GetWordShortcutLength` | firmware/src/storage/storage_controller.cpp:90-93 | reads the length of the table entry |
| `Storage.StorageController.SendWordShortcut` | firmware/src/storage/storage_controller.cpp:95-129 | types a prefix of the word under its mod code, all of it on success, if its first read reaches the cell it names; leaves nothing over on the bus; with reliable devices it succeeds exactly on a non-empty word |
| `Storage.StorageController.SendWordCharacter` | firmware/src/storage/storage_controller.cpp:103-126 | the i-th key types exactly its piece of the rendered word, punctuation included |
| `Storage.StorageController.AppendToBlobShortcut` | firmware/src/storage/storage_controller.cpp:131-153 | as for words, with two data bytes on either device, refused above id 247 and at 255 pairs, and failing without effect on a missing device |
| `Storage.StorageController.WriteBlobByte` | firmware/src/storage/storage_controller.cpp:142-150 | a data byte beyond the stored length changes no table entry, whether or not it is acknowledged, if the write is not misdirected; lengths and characters never change; success leaves nothing over on the bus, failure what a broken write leaves |
| `Storage.StorageController.ClearBlobShortcut` | firmware/src/storage/storage_controller.cpp:155-161 | one blob becomes empty and no other slot changes; refused above id 247 |
| `Storage.StorageController.GetBlobShortcutLength` | firmware/src/storage/storage_controller.cpp:163-169 | reads the length of the table entry; refused above id 247 |
| `Storage.StorageController.SendBlobShortcut` | firmware/src/storage/storage_controller.cpp:171-196 | types a prefix of the blob, all of it on success, if its first read reaches the cell it names; with reliable devices it succeeds exactly on a non-empty blob below id 248 on a device that is there |
| `StorageRoundTrip.ProgramWord` | firmware/src/storage/storage_controller.cpp:71-129 | clear, n appends and a send type exactly the n keys under the mod code and change no other slot |
| `StorageRoundTrip.ProgramBlob` | firmware/src/storage/storage_controller.cpp:131-196 | clear, n appends and a send type exactly the n pairs and change no other slot |
| `Layout.AddressBound` | firmware/src/storage/storage_controller.cpp:76-77 | words stay below the blob region, no external address exceeds 65533, so 16-bit addresses do not wrap |
| `Layout.LayoutAsDocumented` | firmware/src/storage/storage_controller.cpp:15-34 | where each character, length, word key and blob pair lies on the three devices, in numbers |
| `Layout.CellsDisjoint` | firmware/src/storage/storage_controller.cpp:142-150 | no two elements of any two blobs on a device share a cell |
| `Layout.WriteWordCell` | firmware/src/storage/storage_controller.cpp:79-80 | a word's data write beyond its length is invisible in all tables |
| `Layout.GrowWord` | firmware/src/storage/storage_controller.cpp:81-82 | the length write publishes the new key and nothing else |
| `Layout.WriteBlobCell` | firmware/src/storage/storage_controller.cpp:142-150 | a blob's data write beyond its length is invisible in all tables, in particular to words and to blobs on the other device |
| `Layout.GrowBlob` | firmware/src/storage/storage_controller.cpp:151-152 | the length write publishes the new pair and nothing else |
| `Layout.SameInternal` | firmware/src/storage/storage_controller.cpp:24-47 | whatever happens to the external cells, characters and lengths stay |
| `Layout.ErasedIsEmpty` | firmware/src/storage/storage_controller.cpp:15-22 | with an erased internal EEPROM there are zero characters, empty words and empty blobs, whatever the external ones hold |
| `Devices.InternalEeprom.WriteByte` | firmware/src/storage/internal/internal_eeprom.cpp:16-19 | always succeeds and keeps the EEPROM write promise |
| `Devices.InternalEeprom.ReadByte` | firmware/src/storage/internal/internal_eeprom.cpp:10-14 | always succeeds and keeps the EEPROM read promise |
| `Devices.Eeprom.WriteByte` | firmware/src/storage/internal/eeprom.h:13-13 | the write promise of the internal EEPROM, allowed to fail: only the addressed cell may change, and it has changed on success |
| `Devices.Eeprom.ReadByte` | firmware/src/storage/internal/eeprom.h:12-12 | the read promise of the internal EEPROM: the decoded cell on success |
| `Devices.ExternalEeprom.WriteByte` | firmware/src/storage/internal/i2c_eeprom.cpp:29-35 | the interface of an external EEPROM: a whole write, which leaves nothing over on the bus, or one broken off after some of its bytes, which leaves the address in this device and clears what was left in the other unless nothing arrived; if the leftover has counter zero and no foreign address bit, only the addressed cell may change, and it has on success; a missing device always fails |
| `Devices.ExternalEeprom.ReadByte` | firmware/src/storage/internal/i2c_eeprom.cpp:22-27 | a read leaves nothing over in either device, whether or not it succeeds, and returns the cell it reaches, which is the one named exactly under the same condition |
| `Devices.UsbPort.IdleReports` | firmware/src/usb/usb_controller_impl.cpp:82-94 | idle reports carry the held stroke and nothing else |
| `Devices.UsbPort.SendKeypress` | firmware/src/usb/usb_controller.h:21-23 | the stroke is typed; a press that does not get out stays held; the host sees the strokes each as often as reports carried them, once with a reliable port |
| `I2cDevices.I2cEeprom.WriteByte` | firmware/src/storage/internal/i2c_eeprom.cpp:29-35 | from any state and under any disturbance of the bus: the device's memory has had a whole write, or one broken off after exactly as many bytes as the disturbances let through; the other device's cells do not change; nothing is left over in any slave after a success, and after an undisturbed attempt even if the device is absent |
| `I2cDevices.I2cEeprom.ReadByte` | firmware/src/storage/internal/i2c_eeprom.cpp:22-27 | from any state and under any disturbance: changes no cell, leaves nothing over in any slave, also when it fails, and returns the byte of the cell it reached |
| `BusRuns.RunOnBus` | firmware/src/storage/internal/eeprom.h:12-13 | any operations through the two drivers on one bus, under any disturbances and from any leftovers, with the second device there or not: some breakage for each operation makes the run of the device interface that the storage stack is written against end with the same cells and leftovers and give these results; on an undisturbed bus no operation breaks except for a missing device |
| `BusRuns.RunOnInterface` | firmware/src/storage/internal/eeprom.h:12-13 | the interface objects with these breakages as their scripts make that run: the same cells and leftovers in the end |
| `BusRuns.SameResults` | firmware/src/storage/internal/eeprom.h:12-13 | and the two report the same successes and, of cells that are there, the same bytes |
| `I2cDevices.I2cEeprom.StartAndAddress` | firmware/src/storage/internal/i2c_eeprom.cpp:61-85 | what goes over the wire is a first part of the addressing sequence, all of it on success; for a write, exactly as many bytes as the disturbances let through |
| `I2cDevices.I2cEeprom.Start` | firmware/src/storage/internal/i2c_eeprom.cpp:37-59 | at most the control byte of this device goes out, and it has been acknowledged on success |
| `I2cDevices.I2cEeprom.Transmit` | firmware/src/storage/internal/i2c_eeprom.cpp:29-35 | a write leaves the whole transaction on the wire, or a first part of it without a stop |
| `I2cDevices.I2cEeprom.Fetch` | firmware/src/storage/internal/i2c_eeprom.cpp:22-27 | a read leaves the whole transaction on the wire, or a first part of the addressing closed by a stop, and returns the cell that was reached |
| `I2cDevices.WriteTwice` | firmware/src/storage/internal/i2c_eeprom.cpp:29-35 | a write at o2 after a failed write at o1 stores at the or of the two addresses as far as the first had arrived; that is o2 exactly if only the control byte had arrived, or what had arrived of the address has no bit that o2 lacks and the data byte had not |
| `I2cDevices.WriteAndReadBack` | firmware/src/storage/internal/i2c_eeprom.cpp:22-35 | through the driver, a byte that was written is read back from its cell if both operations get through, and no other cell of either device has changed |
| `I2cDevices.WriteThenRead` | firmware/src/storage/internal/i2c_eeprom.cpp:22-35 | the same for a read after a failed write |
| `I2cDevices.WriteReadWrite` | firmware/src/storage/internal/i2c_eeprom.cpp:22-35 | after a failed write, any read of the device, successful or not, makes the next write right |
| `I2cDevices.WriteElsewhereBetween` | firmware/simulator/components/i2c_eeprom.cpp:76-81 | so does a write to another device of which anything arrives |
| `I2cDevices.FailedWriteMisdirectsTheNext` | firmware/src/storage/internal/i2c_eeprom.cpp:29-35 | through the driver: a write to 0x100 whose high address byte gets no good status fails, and the undisturbed write to 0x200 that follows succeeds and stores at 0x300 |
| `I2cDevices.Slave.HandleI2cMessage` | firmware/simulator/components/i2c_eeprom.cpp:70-151 | one message moves the slave by its state machine; acknowledgement and read answer as specified |
| `I2c.NextAccessLands` | firmware/src/storage/internal/i2c_eeprom.cpp:29-35 | after a write at o1 broken off after some of its bytes, an access at o2 lands right if and only if at most one byte had arrived, or two and o2 covers the high byte's bits, or three and o2 covers the address's bits; never after four |
| `I2c.RunIsByteArray` | firmware/simulator/components/i2c_eeprom.cpp:70-157 | any run of complete transactions with any devices leaves an idle slave idle and its buffer equal to a plain byte array that listens to its own device only |
| `I2c.ReadsAreByteArray` | firmware/simulator/components/i2c_eeprom.cpp:140-150 | a read after such a run answers with the cell of that array that it names |
| `I2c.BrokenWriteLands` | firmware/simulator/components/i2c_eeprom.cpp:117-138 | from any state: any first part of a write leaves its slave as the interface says a broken write does, and resets the other slaves |
| `I2c.WriteLands` | firmware/simulator/components/i2c_eeprom.cpp:117-138 | from any state: a complete write stores at the or of the leftover and the new address plus the leftover counter, and clears the leftover |
| `I2c.ReadLands` | firmware/simulator/components/i2c_eeprom.cpp:140-150 | from any state: a complete read answers from that same cell, changes nothing and clears the leftover |
| `I2c.PartialAddressing` | firmware/simulator/components/i2c_eeprom.cpp:70-138 | an interrupted addressing sequence changes no cell of any slave |
| `I2c.ControlByteParses` | firmware/src/storage/internal/i2c_eeprom.cpp:13-15 | the control byte has 1010 in its high digit, and the slave parses it into the device number and read flag |
| `I2c.ControlBytesAre` | firmware/simulator/components/i2c_eeprom.cpp:42-44 | the slave takes a byte for a control byte exactly if it has bit 7 or bit 5 |
| `Devices.LandsRight` | firmware/simulator/components/i2c_eeprom.cpp:123-138 | an access reaches the cell it names exactly if the leftover counter is zero and the leftover address has no other bit, as when nothing is left over |
| `Devices.RetryLands` | firmware/src/storage/internal/i2c_eeprom.cpp:29-35 | a write tried again after it broke off, with nothing left over before, lands right if and only if its data byte had not arrived |
| `LedScan.LedController.ScanNextLine` | firmware/src/led_controller.cpp:28-39 | one scan from any reachable position: no pin write shows two rows, or STATUS with ERR, or touches the columns of a lit row; the decoder's state changes in the scanned row's part only and becomes that row's LEDs; the row's LEDs tick once |
| `LedScan.RefreshPanel` | firmware/src/led_controller.cpp:28-106 | from any scan position five scans make the decoded panel equal the LED state, blinking and pulsing LEDs included |
| `LedScan.LedController.WriteStateToPins` | firmware/src/led_controller.cpp:53-106 | the same for one row, with the pin position handed to the next row |
| `LedScan.LedController.WriteStatusPins` | firmware/src/led_controller.cpp:57-68 | STATUS is driven only for row 0 and ERR only for row 1, and the decoder notices nothing although it fires on these writes |
| `LedScan.LedController.ClearPins` | firmware/src/led_controller.cpp:70-74 | all rows go off before any column moves, without a trace in the decoder |
| `LedScan.LedController.WriteColumns` | firmware/src/led_controller.cpp:108-121 | the columns carry the low four bits of the value, active low |
| `LedScan.FiveScansShowAll` | firmware/simulator/simulator.cpp:200-229 | painting five rows in turn from any row yields the whole panel |
| `LedScan.NoGhostMeansOneRow` | firmware/src/led_controller.cpp:70-74 | a pin state without ghosts has at most one row pin high |
| `LedScan.Simulator.HandlePortWrite` | firmware/simulator/simulator.cpp:182-198 | a write to port B or D decodes the row whose pin it carries, in the decoder's order of precedence |
| `LedScan.Simulator.UpdateLedState` | firmware/simulator/simulator.cpp:200-229 | decoding a row sets its nibble or flags and keeps the rest |
| `LedScan.LedController.ApplyLedState` | firmware/src/led_controller.cpp:127-142 | an LED's next state and whether it is driven |
| `LedScan.PulseDuration` | firmware/src/led_controller.cpp:133-141 | an LED set to PULSE and left alone is lit for exactly 63 scans of its row, goes off on the 64th and stays off |
| `LedScan.LedController.UpdateBlinkStatus` | firmware/src/led_controller.cpp:41-51 | one update advances the blink status by its step function |
| `LedScan.BlinkClosedForm` | firmware/src/led_controller.cpp:41-51 | after n updates the status byte is n mod 64 plus 128 times the parity of n/64 |
| `LedScan.BlinkLit` | firmware/src/led_controller.cpp:41-51 | an LED set to BLINK is dark for 64 updates, lit for the next 64, and so on, and stays so |
| `LedScan.RowsInOrder` | firmware/src/led_controller.cpp:76-106 | the pins that power the rows, in scan order |
| `PanelReadback.PressAndRead` | firmware/integration/property_test.cpp:70-83 | after an event, the step or lost, under any failure of the external EEPROMs and the USB port, and a full refresh, the panel decoded from the pin writes is the one the board is to show |
| `PanelReadback.Scan` | firmware/src/threeboard.cpp:50-53 | a scan changes nothing that the layers can see |
| `ChordStream.ChordsSnoc` | firmware/src/key_controller.cpp:34-64 | one more sample extends the open block, or closes it and emits the union of the keys seen in it |
| `ChordStream.NeverInactive` | firmware/src/keypress.h:9-12 | no emitted chord is INACTIVE |
| `ChordStream.NamedByBits` | firmware/src/keypress.h:8-21 | the enumerator value of a chord is the sum of 1 for Z, 2 for Y and 4 for X |
| `ChordStream.PinsToBits` | firmware/src/key_controller.cpp:35-56 | a sample's keys are the low pins among PB1 for Z, PB2 for X and PB3 for Y |
| `EventLoop.KeyController.PollKeyState` | firmware/src/key_controller.cpp:34-64 | over any sample sequence the chords handed on are exactly the unions of the maximal non-idle blocks that an idle sample closes, in order; when the three pins are high and a block is open, the event that is handed on has bit 2 set exactly if X was down in one of its samples, bit 1 for Y and bit 0 for Z |
| `EventLoop.KeyController.UpdateMask` | firmware/src/key_controller.cpp:35-56 | the held field becomes the sample and the released field collects the keys let go |
| `EventLoop.EventBuffer.HandleKeypress` | firmware/src/event_buffer.h:27-30 | the newest chord replaces whatever was waiting |
| `EventLoop.EventBuffer.TakeEvent` | firmware/src/event_buffer.h:16-20 | the waiting chord is the newest and is handed out once |
| `EventLoop.TakenIsSubsequence` | firmware/src/event_buffer.h:16-30 | the taken chords are a subsequence of those that arrived, each taken once; a chord that is neither taken nor last was overwritten by the next one before the loop looked |
| `ThreeboardMain.Threeboard.RunEventLoopIteration` | firmware/src/threeboard.cpp:121-144 | an iteration looks at the buffer exactly once, takes the waiting chord, if any, and handles it; the interrupts in between add their samples and the chords these complete |
| `ThreeboardMain.Threeboard.HandleEvent` | firmware/src/threeboard.cpp:125-133 | a failed event makes ERR pulse and disturbs nothing else |
| `ThreeboardMain.Threeboard.HandleTimer3Interrupt` | firmware/src/threeboard.cpp:55-63 | a key poll in the interrupt adds its sample, puts the chord it completes in the buffer, consumes nothing, and moves the blink phase on by one step |
| `ThreeboardMain.RunSchedule` | firmware/src/threeboard.cpp:44-63 | for any interleaving of both timer interrupts, idle reports and loop iterations, whatever the external EEPROMs and the USB port do: the chords that arrive are those of the samples; the events handled are exactly the chords that a look of the loop catches before the next one arrives; these have an account as in `PropertyTest.Play`; and the panel read off the pins after one more refresh is the one to be shown at its end. With reliable devices the panel and the strokes seen by the host are those after all these events |
| `ThreeboardMain.TapAllTaken` | firmware/src/threeboard.cpp:121-144 | every sequence of chords can be entered: held at the pins for one sample and released, with a look of the loop after each, exactly these are taken |
| `ThreeboardMain.TapKeys` | firmware/src/threeboard.cpp:44-63 | so from the pins to the screen: any chords, tapped on a board with reliable devices, make the host see exactly the strokes of their steps, and the panel pins show their board |
| `ThreeboardMain.TapHello` | documentation/threeboard/threeboard_user_manual.md:103-113 | the manual's first example, from the pins to the printed text |
| `Usb.HostSeesStrokes` | firmware/simulator/components/usb_host_impl.cpp:51-65 | over any run of successful keypresses and interrupts, also while a report waits: every report has its reserved byte and key slots 1 to 5 zero, all keys are released in between, and the host sees the strokes sent without all-zero ones if and only if, while the press of a visible stroke waits, there are never as many eligible frames (start of frame, no error, endpoint writable, configured) without a setting of the idle rate in between as the rate asks for |
| `Usb.IdleReportDoubles` | firmware/src/usb/usb_controller_impl.cpp:166-188 | with an idle rate of one frame, one eligible frame while the press waits makes the host see the stroke twice |
| `Usb.HostSeesLog` | firmware/src/usb/usb_controller_impl.cpp:47-58 | over any run of keypresses, successful or not, and interrupts, the host sees what the USB interface of the layers says: each stroke as often as reports carried it |
| `Usb.PortFollows` | firmware/src/usb/usb_controller_impl.cpp:47-58 | one event at the controller is one at that interface |
| `Usb.KeypressReports` | firmware/src/usb/usb_controller_impl.cpp:47-58 | a keypress sends its stroke while it waits and when it gets out, then only releases |
| `Usb.TwoReports` | firmware/src/usb/usb_controller_impl.cpp:47-58 | a successful keypress without interrupts is its report and the empty one |
| `Usb.FailedPressStays` | firmware/src/usb/usb_controller_impl.cpp:47-58 | no key is set after a keypress exactly if its press got out or was empty; otherwise every report that any later interrupts send, until the next keypress, carries the stroke, and the host sees it once per report |
| `Usb.SameUntilPressed` | firmware/src/usb/usb_controller_impl.cpp:82-94 | between two presses every report carries the same stroke |
| `Usb.IdleInvariantHolds` | firmware/src/usb/usb_controller_impl.cpp:82-94 | in every reachable state the idle rate is zero or the idle count is below it |
| `Usb.SilenceIsShort` | firmware/src/usb/usb_controller_impl.cpp:82-94 | from any state with an idle rate set, interrupts that do not set it send no report if and only if there are fewer eligible frames among them than are missing from the idle count to the rate (HID 1.11, section 7.2.4) |
| `Usb.SilentExactly` | firmware/src/usb/usb_controller_impl.cpp:82-94 | the same for all interrupts, with the idle rate set any number of times, to zero included |
| `Usb.PowerOnIdle` | firmware/src/usb/internal/hid_state.h:26-29 | from power-on, once configured, the first idle report comes with the 125th eligible frame |
| `Usb.ReportRestarts` | firmware/src/usb/usb_controller_impl.cpp:196-206 | after any report the next idle report comes with exactly as many eligible frames as the idle rate says |
| `Usb.FrameCounts` | firmware/src/usb/usb_controller_impl.cpp:82-94 | one frame, case by case: which frames count, and when the count sends a report and starts again |
| `Usb.EventsAreActions` | firmware/src/usb/usb_controller_impl.cpp:166-188 | every run of keypresses and interrupts is a run of the actions that the idle theorems are about |
| `Usb.TimesOutWhen` | firmware/src/usb/usb_controller_impl.cpp:166-188 | waiting on a blocked endpoint ends exactly when a frame number at least 50 above the first is seen |
| `Usb.FirstLookDecides` | firmware/src/usb/usb_controller_impl.cpp:166-188 | waiting ends at the first look that finds the endpoint writable, the device unconfigured, or a frame number 50 above the first, with that outcome in this order, and the interrupts up to there have been handled |
| `Usb.TimeoutNeedsLowFrame` | firmware/src/usb/usb_controller_impl.cpp:182-185 | on a blocked endpoint, with frame numbers that advance by at most one between looks: waiting ends after exactly 50 frames if the first frame number is at most 205, and never otherwise |
| `UsbDevices.UsbController.AwaitEndpoint` | firmware/src/usb/usb_controller_impl.cpp:166-188 | the polling loop ends as specified, with the interrupts between its looks handled |
| `UsbDevices.UsbController.SendKeypress` | firmware/src/usb/usb_controller_impl.cpp:47-58 | a keypress moves the HID state and sends reports as its event does, interrupts included; it succeeds exactly if both waits do |
| `UsbDevices.UsbController.SendHidState` | firmware/src/usb/usb_controller_impl.cpp:196-206 | one eight-byte report of the HID state goes out and the idle count restarts |
| `UsbDevices.UsbController.HandleStartOfFrame` | firmware/src/usb/usb_controller_impl.cpp:82-95 | a frame counts and reports as its event does |
| `UsbDevices.UsbController.HandleSetIdle` | firmware/src/usb/internal/request_handler.cpp:152-157 | the idle rate is the high byte and the count restarts |
| `UsbDevices.RequestHandler.HandleGetDescriptor` | firmware/src/usb/internal/request_handler.cpp:70-95 | an unknown id stalls; otherwise, with n = min(wLength, 255, length), what goes out flattens to the first matching descriptor's first n bytes: nothing for n = 0, else n/32+1 packets, all of 32 bytes but the last, which has n mod 32 |
| `UsbDevices.RequestHandler.SendDescriptor` | firmware/src/usb/internal/request_handler.cpp:80-94 | the two loops terminate and send such packets |
| `UsbDevices.RequestHandler.FindMatchingContainer` | firmware/src/usb/internal/request_handler.cpp:25-39 | finds the first matching container, if there is one |
| `UsbDevices.PacketsAreExact` | firmware/src/usb/internal/request_handler.cpp:84-94 | n bytes make n/32+1 packets that concatenate to them, all but the last of 32 bytes and the last of n mod 32, possibly empty (USB 2.0, sections 5.5.3 and 9.4.3) |
| `StateStorage.Build` | firmware/simulator/util/state_storage_impl.cpp:88-94 | for every validated shortcut file the images decode through the storage controller's layout to exactly that file, unless text is given for blob index 248, and exactly then the builder throws |
| `StateStorage.ImageDecodes` | firmware/simulator/util/state_storage_impl.cpp:100-153 | images that satisfy the builder's three postconditions decode to the file's tables |
| `StateStorage.StateStorageImpl.ConfigureInternalEeprom` | firmware/simulator/util/state_storage_impl.cpp:100-114 | cell i holds the key code of the last entry's character less one, or an erased cell; the length cells hold the lengths less one |
| `StateStorage.StateStorageImpl.ConfigureEeprom0` | firmware/simulator/util/state_storage_impl.cpp:116-137 | every word's keys and every low blob's pairs are in place, and the two sections do not disturb each other |
| `StateStorage.StateStorageImpl.ConfigureEeprom1` | firmware/simulator/util/state_storage_impl.cpp:139-153 | every high blob's pairs are in place; throws exactly on text at index 248 |
| `StateStorage.BlobTextReturns` | firmware/simulator/components/usb_keycodes.cpp:64-113 | blob text comes back unchanged if and only if every one of its characters survives the key codes |
| `StateStorage.CharReturns` | firmware/simulator/util/state_storage_impl.cpp:102-105 | a character shortcut types the lower case of its character if and only if it is a letter, the space, NUL or one of - = , . and an empty one has no key |
| `StateStorage.WordReturns` | firmware/simulator/util/state_storage_impl.cpp:118-124 | a word types its text in lower case if and only if all its characters are among these |
| `StateStorage.LookupIsLast` | firmware/simulator/util/state_storage_impl.cpp:102-113 | what counts for a slot is the last entry with its index |
| `Keycodes.RoundTripExactly` | firmware/simulator/components/usb_keycodes.cpp:9-113 | a character survives the two mappings if and only if it is a letter, the space, NUL, or one of ! @ # $ % ^ & - _ = + , . |
| `Keycodes.DigitsRotate` | firmware/simulator/components/usb_keycodes.cpp:17-18 | each digit comes back as the next one, 9 as 0 |
| `Keycodes.LetterCodes` | firmware/simulator/components/usb_keycodes.cpp:12-16 | the key and modifier of every letter |
| `Keycodes.DigitCodes` | firmware/simulator/components/usb_keycodes.cpp:17-18 | of every digit |
| `Keycodes.PunctuationCodes` | firmware/simulator/components/usb_keycodes.cpp:21-58 | of every sign that has a key |
| `Keycodes.OtherCodes` | firmware/simulator/components/usb_keycodes.cpp:9-22 | of white space, of other punctuation and of everything else |
| `Keycodes.KeyAloneExactly` | firmware/simulator/components/usb_keycodes.cpp:64-113 | the key alone, without the modifier, types a character's lower case exactly for those characters |

## Left out

- Registers, timers, the PLL, USB electrical set-up and sleep: hardware calls. Busy-wait loops on
  hardware flags are taken to end, except the USB polling loop, whose looks at the hardware are inputs.
- The translation of register writes into bus messages, and of frames into endpoint reads, is done by
  the AVR simulator, which is not part of this model; it is stated as `TwiBus` and as report lists.
- Interrupts inside one LED scan, inside one report, or between the last look at the endpoint and the
  report: each is one step.
- Interrupts during event handling are placed right after it; the layers share no state with them except
  the LED panel, whose plain LEDs a scan does not change.
- The buffer index of the simulated EEPROM outside its 65535 bytes, and the reference's blob array
  outside its 248 slots, are undefined in the source; here such accesses have no effect, and no theorem
  about the firmware depends on them.
- The boot indicator, USB set-up retries, the constant descriptors and the one-byte GET requests: short
  fixed sequences that would add only easy members.
- ThreeboardMain.Threeboard.HandleTimer3Interrupt: without the poll of the boot indicator, which has
  ended when the event loop starts.
- JSON parsing, files, logging, threads, delays, the terminal interface and the GDB hooks.
- The hardware design files and the test doubles.
- PropertyTest.Play: after an access that a leftover misdirects nothing is said about what is typed or
  stored, only about characters, lengths and the panel.
